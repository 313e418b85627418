/** The RESP decoder (`RespReader`). The reader owns a byte stream and a
    position that every read advances; it understands two tags only: `*`
    (array) and `$` (bulk string), each followed by a one-digit length.

    Each reader method is proved against a function over the input bytes and
    a start position, which returns what was read and where reading stopped. */
module RespParser {
  import opened RespValue

  /** Why a parse stops. `EndOfInput` is the error `read_exact` returns when
      the stream ends early; `NotADigit` and `UnknownType` are the source's
      panics (a failed `expect`, `panic!`), returned here as values. */
  datatype ParseError =
    | EndOfInput
    | NotADigit(found: byte)
    | UnknownType(tag: byte)

  datatype Result<T> = Ok(value: T) | Err(error: ParseError)

  /** One read from position `i`: the item read and the position after it. */
  type Step<T> = Result<(T, nat)>

  /** `read_char`: one byte. */
  function ReadCharAt(s: Bytes, i: nat): (r: Step<byte>)
    requires i <= |s|
    ensures r.Ok? <==> i < |s|
    ensures r.Ok? ==> r.value == (s[i], i + 1)
    ensures r.Err? ==> r.error == EndOfInput
  {
    if i < |s| then Ok((s[i], i + 1)) else Err(EndOfInput)
  }

  /** `read_int`: exactly one byte, which must be an ASCII digit; the length
      it gives is that digit's value, so never more than 9. */
  function ReadIntAt(s: Bytes, i: nat): (r: Step<nat>)
    requires i <= |s|
    ensures r.Ok? <==> i < |s| && IsDigit(s[i])
    ensures r.Ok? ==> r.value.0 <= 9 && DigitByte(r.value.0) == s[i] && r.value.1 == i + 1
    ensures i == |s| ==> r == Err(EndOfInput)
    ensures i < |s| && !IsDigit(s[i]) ==> r == Err(NotADigit(s[i]))
  {
    if i == |s| then Err(EndOfInput)
    else if IsDigit(s[i]) then Ok((s[i] as int - '0' as int, i + 1))
    else Err(NotADigit(s[i]))
  }

  /** `read_str`: exactly `size` bytes (the payload is kept as raw bytes). */
  function ReadStrAt(s: Bytes, i: nat, size: nat): (r: Step<Bytes>)
    requires i <= |s|
    ensures r.Ok? <==> i + size <= |s|
    ensures r.Ok? ==> r.value == (s[i..i + size], i + size)
    ensures r.Err? ==> r.error == EndOfInput
  {
    if i + size <= |s| then Ok((s[i..i + size], i + size)) else Err(EndOfInput)
  }

  /** `consume_newline`: skips two bytes, whatever they are. */
  function NewlineAt(s: Bytes, i: nat): (r: Step<()>)
    requires i <= |s|
    ensures r.Ok? <==> i + 2 <= |s|
    ensures r.Ok? ==> r.value.1 == i + 2
    ensures r.Err? ==> r.error == EndOfInput
  {
    if i + 2 <= |s| then Ok(((), i + 2)) else Err(EndOfInput)
  }

  /** `parse`: one value from position `i`. The tag decides the variant;
      on success the reader has moved forward and stays within the input. */
  function ParseAt(s: Bytes, i: nat): (r: Step<Value>)
    requires i <= |s|
    ensures r.Ok? ==> i < |s| && i < r.value.1 <= |s|
    decreases |s| - i, 1
  {
    match ReadCharAt(s, i)
    case Err(e) => Err(e)
    case Ok((tag, i1)) =>
      if tag == ARRAY then
        match ReadIntAt(s, i1)
        case Err(e) => Err(e)
        case Ok((n, i2)) =>
          match ParseElems(s, i2, n, [])
          case Err(e) => Err(e)
          case Ok((items, i3)) => Ok((Array(items), i3))
      else if tag == BULK then
        match ReadIntAt(s, i1)
        case Err(e) => Err(e)
        case Ok((n, i2)) =>
          match NewlineAt(s, i2)
          case Err(e) => Err(e)
          case Ok((_, i3)) =>
            match ReadStrAt(s, i3, n)
            case Err(e) => Err(e)
            case Ok((body, i4)) => Ok((Bulk(body), i4))
      else
        Err(UnknownType(tag))
  }

  /** The element loop of the array arm, from position `j` with `count`
      elements still to read and `acc` read so far: each element is preceded
      by two skipped bytes, and the elements are kept in stream order. */
  function ParseElems(s: Bytes, j: nat, count: nat, acc: seq<Value>): (r: Step<seq<Value>>)
    requires j <= |s|
    ensures r.Ok? ==> j <= r.value.1 <= |s| && |r.value.0| == |acc| + count && r.value.0[..|acc|] == acc
    decreases |s| - j, 0
  {
    if count == 0 then Ok((acc, j))
    else
      match NewlineAt(s, j)
      case Err(e) => Err(e)
      case Ok((_, j1)) =>
        match ParseAt(s, j1)
        case Err(e) => Err(e)
        case Ok((elem, j2)) => ParseElems(s, j2, count - 1, acc + [elem])
  }

  /** The tag decides the variant: an array tag gives an array, a bulk tag
      a bulk string, any other byte the `UnknownType` error, and an empty
      remainder `EndOfInput`. */
  lemma ParseAtTag(s: Bytes, i: nat)
    requires i <= |s|
    ensures i == |s| ==> ParseAt(s, i) == Err(EndOfInput)
    ensures i < |s| && s[i] == ARRAY && ParseAt(s, i).Ok? ==> ParseAt(s, i).value.0.Array?
    ensures i < |s| && s[i] == BULK && ParseAt(s, i).Ok? ==> ParseAt(s, i).value.0.Bulk?
    ensures i < |s| && s[i] != ARRAY && s[i] != BULK ==> ParseAt(s, i) == Err(UnknownType(s[i]))
  {
  }

  /** A bulk string whose length digit is n takes the tag, the digit, two
      skipped bytes and exactly the n bytes after them; its own closing CRLF
      is left unread. When the input ends first, the parse reports it. */
  lemma ParseBulk(s: Bytes, i: nat)
    requires i + 1 < |s| && s[i] == BULK && IsDigit(s[i + 1])
    ensures var n := s[i + 1] as int - '0' as int;
            ParseAt(s, i) == if i + 4 + n <= |s| then Ok((Bulk(s[i + 4..i + 4 + n]), i + 4 + n))
                             else Err(EndOfInput)
  {
  }

  /** An array header with length digit n hands the rest to the element
      loop, which starts right after the digit. */
  lemma ParseArrayHeader(s: Bytes, i: nat)
    requires i + 1 < |s| && s[i] == ARRAY && IsDigit(s[i + 1])
    ensures var elems := ParseElems(s, i + 2, s[i + 1] as int - '0' as int, []);
            ParseAt(s, i) == if elems.Ok? then Ok((Array(elems.value.0), elems.value.1)) else Err(elems.error)
  {
  }

  /** One turn of the element loop: skip two bytes, read one element, and
      the loop's result is that of the remaining turns from where it ended. */
  lemma ElemsStep(s: Bytes, j: nat, acc: seq<Value>, a: seq<Value>, mid: nat, next: nat)
    requires a != [] && j + 2 <= |s| && ParseAt(s, j + 2) == Ok((a[0], mid))
    requires ParseElems(s, mid, |a[1..]|, acc + [a[0]]) == Ok((acc + [a[0]] + a[1..], next))
    ensures ParseElems(s, j, |a|, acc) == Ok((acc + a, next))
  {
    assert acc + [a[0]] + a[1..] == acc + a;
  }

  /** An array whose length digit is `0` is empty and ends right after its
      two header bytes. */
  lemma ParseEmptyArray(s: Bytes, i: nat)
    requires i + 1 < |s| && s[i] == ARRAY && s[i + 1] == DigitByte(0)
    ensures ParseAt(s, i) == Ok((Array([]), i + 2))
  {
  }

  /** A successful turn of the element loop: the element two bytes on
      parses, and the loop goes on from where it ended. */
  lemma ElemsUnfold(s: Bytes, j: nat, count: nat, acc: seq<Value>)
    requires j <= |s| && count > 0 && ParseElems(s, j, count, acc).Ok?
    ensures j + 2 <= |s| && ParseAt(s, j + 2).Ok?
    ensures var elem := ParseAt(s, j + 2).value;
            ParseElems(s, j, count, acc) == ParseElems(s, elem.1, count - 1, acc + [elem.0])
  {
  }

  /** `elems` lie back to back in `s`: the first is parsed two bytes after
      `ends[0]` and the parse stops at `ends[1]`, where the rest begin. */
  ghost predicate Spans(s: Bytes, ends: seq<nat>, elems: seq<Value>)
    decreases elems
  {
    |ends| == |elems| + 1
    && (elems != [] ==>
          && ends[0] + 2 <= |s| && ParseAt(s, ends[0] + 2) == Ok((elems[0], ends[1]))
          && Spans(s, ends[1..], elems[1..]))
  }

  /** Element k is parsed two bytes after `ends[k]` and stops at `ends[k + 1]`. */
  lemma {:induction false} SpansIndex(s: Bytes, ends: seq<nat>, elems: seq<Value>, k: nat)
    requires Spans(s, ends, elems) && k < |elems|
    ensures ends[k] + 2 <= |s| && ParseAt(s, ends[k] + 2) == Ok((elems[k], ends[k + 1]))
    decreases k
  {
    if k > 0 {
      SpansIndex(s, ends[1..], elems[1..], k - 1);
    }
  }

  lemma SpansCons(s: Bytes, e: nat, v: Value, ends: seq<nat>, elems: seq<Value>)
    requires e + 2 <= |s| && Spans(s, ends, elems) && ParseAt(s, e + 2) == Ok((v, ends[0]))
    ensures Spans(s, [e] + ends, [v] + elems)
  {
    assert ([e] + ends)[1..] == ends && ([v] + elems)[1..] == elems;
  }

  /** The element loop reads its elements back to back: element k is parsed
      two bytes after the end of element k - 1 (the first two bytes after
      the header), in stream order. */
  lemma {:induction false} ElementBounds(s: Bytes, j: nat, count: nat, acc: seq<Value>) returns (ends: seq<nat>)
    requires j <= |s| && ParseElems(s, j, count, acc).Ok?
    ensures var (items, next) := ParseElems(s, j, count, acc).value;
            && Spans(s, ends, items[|acc|..]) && ends[0] == j && ends[count] == next
    decreases count
  {
    var (items, next) := ParseElems(s, j, count, acc).value;
    if count == 0 {
      ends := [j];
    } else {
      ElemsUnfold(s, j, count, acc);
      var elem := ParseAt(s, j + 2).value;
      var rest := ElementBounds(s, elem.1, count - 1, acc + [elem.0]);
      assert items[|acc|..] == [elem.0] + items[|acc| + 1..] by {
        assert items[|acc|] == (acc + [elem.0])[|acc|] == elem.0;
      }
      SpansCons(s, j, elem.0, rest, items[|acc| + 1..]);
      ends := [j] + rest;
    }
  }

  /** An array with length digit n holds exactly n elements, each parsed two
      bytes after the end of the one before it. */
  lemma ParseArray(s: Bytes, i: nat) returns (ends: seq<nat>)
    requires i < |s| && s[i] == ARRAY && ParseAt(s, i).Ok?
    ensures i + 1 < |s| && IsDigit(s[i + 1])
    ensures var (v, next) := ParseAt(s, i).value;
            && v.Array? && |v.items| == s[i + 1] as int - '0' as int
            && Spans(s, ends, v.items) && ends[0] == i + 2 && ends[|v.items|] == next
  {
    ArrayDigit(s, i);
    ParseArrayHeader(s, i);
    var n := s[i + 1] as int - '0' as int;
    ends := ElementBounds(s, i + 2, n, []);
  }

  /** An array parse that succeeds has read a length digit after the tag. */
  lemma ArrayDigit(s: Bytes, i: nat)
    requires i < |s| && s[i] == ARRAY && ParseAt(s, i).Ok?
    ensures i + 1 < |s| && IsDigit(s[i + 1])
  {
  }

  /** A parse depends only on the bytes it consumes: cutting the input at or
      after the point where it stops changes nothing, and cutting it anywhere
      before that point makes it fail for want of input. */
  lemma {:induction false} ParseCut(s: Bytes, i: nat, k: nat)
    requires i <= k <= |s| && ParseAt(s, i).Ok?
    ensures ParseAt(s[..k], i) == if k >= ParseAt(s, i).value.1 then ParseAt(s, i) else Err(EndOfInput)
    decreases |s| - i, 1
  {
    var t := s[..k];
    if k > i + 1 {
      assert t[i] == s[i] && t[i + 1] == s[i + 1];
      var n := s[i + 1] as int - '0' as int;
      if s[i] == ARRAY {
        ElemsCut(s, i + 2, n, [], k);
      } else if k >= i + 4 + n {
        assert t[i + 4..i + 4 + n] == s[i + 4..i + 4 + n];
      }
    }
  }

  lemma {:induction false} ElemsCut(s: Bytes, j: nat, count: nat, acc: seq<Value>, k: nat)
    requires j <= k <= |s| && ParseElems(s, j, count, acc).Ok?
    ensures ParseElems(s[..k], j, count, acc)
         == if k >= ParseElems(s, j, count, acc).value.1 then ParseElems(s, j, count, acc) else Err(EndOfInput)
    decreases |s| - j, 0
  {
    if count > 0 && k >= j + 2 {
      ParseCut(s, j + 2, k);
      var elem := ParseAt(s, j + 2).value;
      if k >= elem.1 {
        ElemsCut(s, elem.1, count - 1, acc + [elem.0], k);
      }
    }
  }

  /** A method result `r` that ends at position `pos` is what the reading
      function `spec` describes. */
  predicate Agrees<T(==)>(r: Result<T>, spec: Step<T>, pos: nat) {
    match spec
    case Ok(p) => r == Ok(p.0) && pos == p.1
    case Err(e) => r == Err(e)
  }

  /** The reader: the whole stream it will ever see, and how far it has read. */
  class RespReader {
    const input: Bytes
    var pos: nat

    ghost predicate Valid()
      reads this
    {
      pos <= |input|
    }

    constructor (input: Bytes)
      ensures Valid() && this.input == input && pos == 0
    {
      this.input := input;
      pos := 0;
    }

    method ReadChar() returns (r: Result<byte>)
      requires Valid()
      modifies this
      ensures Valid() && Agrees(r, ReadCharAt(input, old(pos)), pos)
    {
      if pos < |input| {
        r := Ok(input[pos]);
        pos := pos + 1;
      } else {
        r := Err(EndOfInput);
      }
    }

    method ReadInt() returns (r: Result<nat>)
      requires Valid()
      modifies this
      ensures Valid() && Agrees(r, ReadIntAt(input, old(pos)), pos)
    {
      if pos == |input| {
        return Err(EndOfInput);
      }
      var b := input[pos];
      pos := pos + 1;
      if IsDigit(b) {
        r := Ok(b as int - '0' as int);
      } else {
        r := Err(NotADigit(b));
      }
    }

    method ReadStr(size: nat) returns (r: Result<Bytes>)
      requires Valid()
      modifies this
      ensures Valid() && Agrees(r, ReadStrAt(input, old(pos), size), pos)
    {
      if pos + size <= |input| {
        r := Ok(input[pos..pos + size]);
        pos := pos + size;
      } else {
        r := Err(EndOfInput);
      }
    }

    method ConsumeNewline() returns (r: Result<()>)
      requires Valid()
      modifies this
      ensures Valid() && Agrees(r, NewlineAt(input, old(pos)), pos)
    {
      if pos + 2 <= |input| {
        r := Ok(());
        pos := pos + 2;
      } else {
        r := Err(EndOfInput);
      }
    }

    method Parse() returns (r: Result<Value>)
      requires Valid()
      modifies this
      ensures Valid() && Agrees(r, ParseAt(input, old(pos)), pos)
      decreases |input| - pos
    {
      var tag := ReadChar();
      if tag.Err? {
        return Err(tag.error);
      }
      if tag.value == ARRAY {
        var len := ReadInt();
        if len.Err? {
          return Err(len.error);
        }
        ghost var start := pos;
        var items: seq<Value> := [];
        for k := 0 to len.value
          invariant Valid() && pos >= old(pos) + 2
          invariant ParseElems(input, pos, len.value - k, items) == ParseElems(input, start, len.value, [])
        {
          var nl := ConsumeNewline();
          if nl.Err? {
            return Err(nl.error);
          }
          var elem := Parse();
          if elem.Err? {
            return Err(elem.error);
          }
          items := items + [elem.value];
        }
        r := Ok(Array(items));
      } else if tag.value == BULK {
        var len := ReadInt();
        if len.Err? {
          return Err(len.error);
        }
        var nl := ConsumeNewline();
        if nl.Err? {
          return Err(nl.error);
        }
        var body := ReadStr(len.value);
        if body.Err? {
          return Err(body.error);
        }
        r := Ok(Bulk(body.value));
      } else {
        r := Err(UnknownType(tag.value));
      }
    }
  }
}
