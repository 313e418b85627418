/** The command layer: `handler` picks a command by the name a client sent,
    and the picked command turns its arguments into a reply, reading or
    updating the key/value store. */
module Handler {
  import opened RespValue

  /** The commands `handler` can pick. */
  datatype Command = Ping | Set | Get | Unknown

  /** The values that carry text: the only ones whose text the commands
      take. */
  predicate Textual(v: Value) {
    v.Str? || v.Bulk?
  }

  /** The text of a simple or bulk string. */
  function UnwrapStr(v: Value): (r: Bytes)
    requires Textual(v)
    ensures v.Str? ==> r == v.str
    ensures v.Bulk? ==> r == v.bulk
  {
    if v.Str? then v.str else v.bulk
  }

  predicate IsLowerLetter(c: byte) {
    'a' as int <= c as int <= 'z' as int
  }

  predicate IsUpperLetter(c: byte) {
    'A' as int <= c as int <= 'Z' as int
  }

  /** Lower case of one byte: ASCII capitals become small letters, every
      other byte stays. */
  function LowerByte(c: byte): byte {
    if IsUpperLetter(c) then c + 32 else c
  }

  function Lower(s: Bytes): Bytes {
    seq(|s|, i requires 0 <= i < |s| => LowerByte(s[i]))
  }

  /** The command names `handler` knows, in lower case. */
  const PING: Bytes := ['p' as int as byte, 'i' as int as byte, 'n' as int as byte, 'g' as int as byte]
  const SET: Bytes := ['s' as int as byte, 'e' as int as byte, 't' as int as byte]
  const GET: Bytes := ['g' as int as byte, 'e' as int as byte, 't' as int as byte]

  /** `handler`: a bulk string selects by its lower-case form; anything
      else, and any other name, selects `Unknown`. */
  function Select(v: Value): (c: Command)
    ensures !v.Bulk? ==> c == Unknown
  {
    if v.Bulk? then
      var name := Lower(v.bulk);
      if name == PING then Ping
      else if name == SET then Set
      else if name == GET then Get
      else Unknown
    else Unknown
  }

  /** `s` spells the lower-case word `w`, each letter written small or
      capital: the reading of "case-insensitive" that `Select` is checked
      against. */
  predicate SpelledAs(s: Bytes, w: Bytes) {
    |s| == |w| && forall i | 0 <= i < |s| :: s[i] == w[i] || s[i] as int == w[i] as int - 32
  }

  predicate AllLowerLetters(w: Bytes) {
    forall i | 0 <= i < |w| :: IsLowerLetter(w[i])
  }

  lemma LowerMatches(s: Bytes, w: Bytes)
    requires AllLowerLetters(w)
    ensures Lower(s) == w <==> SpelledAs(s, w)
  {
    if SpelledAs(s, w) {
      assert forall i | 0 <= i < |s| :: Lower(s)[i] == w[i];
    }
    if Lower(s) == w {
      forall i | 0 <= i < |s|
        ensures s[i] == w[i] || s[i] as int == w[i] as int - 32
      {
        assert LowerByte(s[i]) == w[i];
      }
    }
  }

  lemma NamesAreLower()
    ensures AllLowerLetters(PING) && AllLowerLetters(SET) && AllLowerLetters(GET)
  {
  }

  /** A bulk name selects a command exactly when it spells that command's
      name in any mix of cases; every other name selects `Unknown`. */
  lemma SelectByName(b: Bytes)
    ensures Select(Bulk(b)) == Ping <==> SpelledAs(b, PING)
    ensures Select(Bulk(b)) == Set <==> SpelledAs(b, SET)
    ensures Select(Bulk(b)) == Get <==> SpelledAs(b, GET)
    ensures Select(Bulk(b)) == Unknown
        <==> !SpelledAs(b, PING) && !SpelledAs(b, SET) && !SpelledAs(b, GET)
  {
    NamesAreLower();
    LowerMatches(b, PING);
    LowerMatches(b, SET);
    LowerMatches(b, GET);
  }

  /** Names that agree up to case select the same command. */
  lemma SelectIgnoresCase(b: Bytes, d: Bytes)
    requires Lower(b) == Lower(d)
    ensures Select(Bulk(b)) == Select(Bulk(d))
  {
  }

  /** `PING`, `Ping` and `ping` all select `Ping`. */
  lemma SelectPing()
    ensures Select(Bulk(['P' as int as byte, 'I' as int as byte, 'N' as int as byte, 'G' as int as byte])) == Ping
    ensures Select(Bulk(['P' as int as byte, 'i' as int as byte, 'n' as int as byte, 'g' as int as byte])) == Ping
    ensures Select(Bulk(PING)) == Ping
  {
  }

  /** `ping`: PONG with no arguments, otherwise the first argument's text. */
  function PingReply(args: seq<Value>): (r: Value)
    requires args != [] ==> Textual(args[0])
    ensures r.Str?
    ensures args == [] ==> r.str == Ascii("PONG")
    ensures args != [] ==> r.str == UnwrapStr(args[0])
  {
    if args == [] then Str(Ascii("PONG")) else Str(UnwrapStr(args[0]))
  }

  /** Only the first argument of `ping` matters. */
  lemma PingIgnoresRest(x: Value, rest: seq<Value>, other: seq<Value>)
    requires Textual(x)
    ensures PingReply([x] + rest) == PingReply([x] + other) == Str(UnwrapStr(x))
  {
  }

  const UNKNOWN_PREFIX: Bytes := Ascii("Unknown command: ")

  /** `unknown`: an error naming the first argument. The source indexes the
      first argument unconditionally, so there must be one. */
  function UnknownReply(args: seq<Value>): (r: Value)
    requires |args| >= 1 && Textual(args[0])
    ensures r.Error? && |r.msg| == |UNKNOWN_PREFIX| + |UnwrapStr(args[0])|
    ensures r.msg[..|UNKNOWN_PREFIX|] == UNKNOWN_PREFIX && r.msg[|UNKNOWN_PREFIX|..] == UnwrapStr(args[0])
  {
    Error(UNKNOWN_PREFIX + UnwrapStr(args[0]))
  }

  const WRONG_ARITY: Value := Error(Ascii("Wrong number of arguments"))

  /** The store after `set`: the key maps to the value when there are
      exactly two arguments; otherwise the store is left as it was. */
  function Store(m: map<Bytes, Bytes>, args: seq<Value>): map<Bytes, Bytes>
    requires |args| == 2 ==> Textual(args[0]) && Textual(args[1])
  {
    if |args| == 2 then m[UnwrapStr(args[0]) := UnwrapStr(args[1])] else m
  }

  /** The reply of `set`. */
  function SetReply(args: seq<Value>): Value {
    if |args| == 2 then Str(Ascii("OK")) else WRONG_ARITY
  }

  /** The reply of `get`: the stored text as a bulk string, Null for a
      missing key, an error for a wrong argument count. */
  function Lookup(m: map<Bytes, Bytes>, args: seq<Value>): Value
    requires |args| == 1 ==> Textual(args[0])
  {
    if |args| == 1 then
      var key := UnwrapStr(args[0]);
      if key in m then Bulk(m[key]) else Null
    else WRONG_ARITY
  }

  /** `set` stores under the key exactly, leaves every other key as it was,
      and a `get` of the key then returns the value: the last write wins. */
  lemma SetThenGet(m: map<Bytes, Bytes>, k: Value, v: Value, other: Bytes)
    requires Textual(k) && Textual(v) && other != UnwrapStr(k)
    ensures Lookup(Store(m, [k, v]), [k]) == Bulk(UnwrapStr(v))
    ensures other in Store(m, [k, v]) <==> other in m
    ensures other in m ==> Store(m, [k, v])[other] == m[other]
    ensures Lookup(Store(m, [k, v]), [Bulk(other)]) == Lookup(m, [Bulk(other)])
  {
  }

  /** A `set` with the wrong argument count changes nothing and says so. */
  lemma SetWrongArity(m: map<Bytes, Bytes>, args: seq<Value>)
    requires |args| != 2
    ensures Store(m, args) == m && SetReply(args) == Error(Ascii("Wrong number of arguments"))
  {
  }

  /** A second `set` of the same key overrides the first. */
  lemma SetTwice(m: map<Bytes, Bytes>, k: Value, v: Value, w: Value)
    requires Textual(k) && Textual(v) && Textual(w)
    ensures Store(Store(m, [k, v]), [k, w]) == Store(m, [k, w])
  {
  }

  /** `get` replies Null exactly when a well-formed request names a missing
      key, and Bulk exactly when it names a present one. */
  lemma LookupCases(m: map<Bytes, Bytes>, args: seq<Value>)
    requires |args| == 1 ==> Textual(args[0])
    ensures Lookup(m, args) == Null <==> |args| == 1 && UnwrapStr(args[0]) !in m
    ensures Lookup(m, args).Bulk? <==> |args| == 1 && UnwrapStr(args[0]) in m
    ensures |args| != 1 ==> Lookup(m, args) == Error(Ascii("Wrong number of arguments"))
  {
  }

  /** The key/value store shared by the commands. */
  class Db {
    var entries: map<Bytes, Bytes>

    constructor ()
      ensures entries == map[]
    {
      entries := map[];
    }

    /** `set`: inserts in place. */
    method Set(args: seq<Value>) returns (r: Value)
      requires |args| == 2 ==> Textual(args[0]) && Textual(args[1])
      modifies this
      ensures entries == Store(old(entries), args) && r == SetReply(args)
    {
      if |args| == 2 {
        entries := entries[UnwrapStr(args[0]) := UnwrapStr(args[1])];
        r := Str(Ascii("OK"));
      } else {
        r := Error(Ascii("Wrong number of arguments"));
      }
    }

    /** `get`: reads the store and changes nothing. */
    method Get(args: seq<Value>) returns (r: Value)
      requires |args| == 1 ==> Textual(args[0])
      ensures r == Lookup(entries, args)
    {
      if |args| == 1 {
        var key := UnwrapStr(args[0]);
        if key in entries {
          r := Bulk(entries[key]);
        } else {
          r := Null;
        }
      } else {
        r := Error(Ascii("Wrong number of arguments"));
      }
    }
  }

  /** What the selected command demands of its arguments. */
  predicate Accepts(c: Command, args: seq<Value>) {
    match c
    case Ping => args != [] ==> Textual(args[0])
    case Set => |args| == 2 ==> Textual(args[0]) && Textual(args[1])
    case Get => |args| == 1 ==> Textual(args[0])
    case Unknown => |args| >= 1 && Textual(args[0])
  }

  /** `handler(name)(args, db)`: selects by name and runs the command; only
      `set` changes the store. */
  method Dispatch(name: Value, args: seq<Value>, db: Db) returns (r: Value)
    requires Accepts(Select(name), args)
    modifies db
    ensures Select(name) == Set ==> db.entries == Store(old(db.entries), args) && r == SetReply(args)
    ensures Select(name) != Set ==> db.entries == old(db.entries)
    ensures Select(name) == Get ==> r == Lookup(db.entries, args)
    ensures Select(name) == Ping ==> r == PingReply(args)
    ensures Select(name) == Unknown ==> r == UnknownReply(args)
  {
    match Select(name)
    case Ping => r := PingReply(args);
    case Set => r := db.Set(args);
    case Get => r := db.Get(args);
    case Unknown => r := UnknownReply(args);
  }
}
