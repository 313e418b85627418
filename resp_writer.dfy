/** The RESP encoder (`RespWriter::marshal_value`): a total mapping from a
    `Value` to its exact wire bytes. */
module RespWriter {
  import opened RespValue

  /** Decimal text of a non-negative integer as `format!("{}", n)` writes
      it: at least one digit, no sign, no leading zero. */
  function Decimal(n: nat): (r: Bytes)
    ensures |r| >= 1 && AllDigits(r)
    ensures r[0] == DigitByte(0) ==> n == 0
    ensures n < 10 ==> r == [DigitByte(n)]
  {
    if n < 10 then [DigitByte(n)] else Decimal(n / 10) + [DigitByte(n % 10)]
  }

  /** Reads a run of decimal digits back as a number; the independent
      reading against which `Decimal` is checked. */
  function DigitsValue(s: Bytes): nat
    requires AllDigits(s)
  {
    if s == [] then 0
    else DigitsValue(s[..|s| - 1]) * 10 + (s[|s| - 1] as int - '0' as int)
  }

  lemma {:induction false} DecimalValue(n: nat)
    ensures DigitsValue(Decimal(n)) == n
  {
    if n >= 10 {
      var d := Decimal(n);
      assert d[..|d| - 1] == Decimal(n / 10);
      DecimalValue(n / 10);
    }
  }

  /** Signed decimal text of an integer, as `format!("{}", n)` writes an `i32`. */
  function SignedDecimal(n: int): Bytes {
    if n < 0 then [MINUS] + Decimal(-n) else Decimal(n)
  }

  /** Reads signed decimal text back as a number. */
  function SignedValue(s: Bytes): int
    requires s != []
    requires AllDigits(if s[0] == MINUS then s[1..] else s)
  {
    if s[0] == MINUS then -(DigitsValue(s[1..]) as int) else DigitsValue(s)
  }

  lemma SignedDecimalValue(n: int)
    ensures var t := SignedDecimal(n);
            t != [] && AllDigits(if t[0] == MINUS then t[1..] else t) && SignedValue(t) == n
  {
    var t := SignedDecimal(n);
    if n < 0 {
      assert t[1..] == Decimal(-n);
      DecimalValue(-n);
    } else {
      assert !IsDigit(MINUS);
      DecimalValue(n);
    }
  }

  /** The tag byte each variant is written with. */
  function Tag(v: Value): byte {
    match v
    case Str(_) => STRING
    case Num(_) => INTEGER
    case Bulk(_) => BULK
    case Array(_) => ARRAY
    case Error(_) => ERROR
    case Null => BULK
  }

  /** The exact wire bytes of a value. Every encoding is a tag byte, a body,
      and a closing CRLF. */
  function Encode(v: Value): Bytes
    decreases v, 1
  {
    match v
    case Str(s) => [STRING] + s + CRLF
    case Num(n) => [INTEGER] + SignedDecimal(n as int) + CRLF
    case Bulk(b) => [BULK] + Decimal(|b|) + CRLF + b + CRLF
    case Array(a) => [ARRAY] + Decimal(|a|) + CRLF + EncodeSeq(a)
    case Error(e) => [ERROR] + e + CRLF
    case Null => [BULK, MINUS, DigitByte(1)] + CRLF
  }

  /** The encodings of the elements of an array, concatenated in order. */
  function EncodeSeq(a: seq<Value>): Bytes
    decreases a, 0
  {
    if a == [] then [] else Encode(a[0]) + EncodeSeq(a[1..])
  }

  lemma {:induction false} EncodeSeqAppend(a: seq<Value>, v: Value)
    ensures EncodeSeq(a + [v]) == EncodeSeq(a) + Encode(v)
  {
    if a == [] {
      assert [v][1..] == [];
    } else {
      assert (a + [v])[1..] == a[1..] + [v];
      EncodeSeqAppend(a[1..], v);
    }
  }

  /** Every encoding is a tag byte, a body, and a closing CRLF. */
  lemma {:induction false} EncodeFrame(v: Value)
    ensures var e := Encode(v);
            |e| >= 3 && e[0] == Tag(v) && e[|e| - 2..] == CRLF
  {
    match v
    case Array(a) =>
      if a != [] {
        var init, last := a[..|a| - 1], a[|a| - 1];
        assert a == init + [last];
        EncodeSeqAppend(init, last);
        EncodeFrame(last);
        var h, x, y := [ARRAY] + Decimal(|a|) + CRLF, EncodeSeq(init), Encode(last);
        assert Encode(v) == h + x + y;
        assert (h + x + y)[|h + x + y| - 2..] == y[|y| - 2..];
      }
    case _ =>
  }

  /** `marshal_value`: the scalar arms format directly; the array arm writes
      its header and then extends the buffer with each element in turn. */
  method MarshalValue(v: Value) returns (result: Bytes)
    ensures result == Encode(v)
    decreases v
  {
    match v
    case Str(s) => result := [STRING] + s + CRLF;
    case Num(n) => result := [INTEGER] + SignedDecimal(n as int) + CRLF;
    case Bulk(b) => result := [BULK] + Decimal(|b|) + CRLF + b + CRLF;
    case Array(a) =>
      var header := [ARRAY] + Decimal(|a|) + CRLF;
      result := header;
      for k := 0 to |a|
        invariant result == header + EncodeSeq(a[..k])
      {
        var e := MarshalValue(a[k]);
        EncodeSeqAppend(a[..k], a[k]);
        assert a[..k + 1] == a[..k] + [a[k]];
        result := result + e;
      }
      assert a[..|a|] == a;
      assert Encode(v) == header + EncodeSeq(a);
    case Error(e) => result := [ERROR] + e + CRLF;
    case Null => result := [BULK, MINUS, DigitByte(1)] + CRLF;
  }

  /** An integer reply carries, between its tag and its CRLF, signed
      decimal text that reads back as the integer. */
  lemma EncodeNumText(n: int32)
    ensures var t := Encode(Num(n))[1..|Encode(Num(n))| - 2];
            t != [] && AllDigits(if t[0] == MINUS then t[1..] else t) && SignedValue(t) == n as int
  {
    assert Encode(Num(n))[1..|Encode(Num(n))| - 2] == SignedDecimal(n as int);
    SignedDecimalValue(n as int);
  }

  /** A simple string and an error carry their text unchanged between the
      tag and the CRLF; Null is always the five bytes `$-1\r\n`. */
  lemma EncodeTextPayload(t: Bytes)
    ensures var e := Encode(Str(t)); |e| == |t| + 3 && e[0] == STRING && e[1..|e| - 2] == t && e[|e| - 2..] == CRLF
    ensures var e := Encode(Error(t)); |e| == |t| + 3 && e[0] == ERROR && e[1..|e| - 2] == t && e[|e| - 2..] == CRLF
    ensures Encode(Null) == Ascii("$-1\r\n")
  {
  }

  /** A bulk string is announced by its byte length in decimal, and exactly
      its bytes follow the header. */
  lemma EncodeBulkHeader(b: Bytes)
    ensures var e, h := Encode(Bulk(b)), Decimal(|b|);
            && e[1..1 + |h|] == h && DigitsValue(h) == |b|
            && e[1 + |h|..3 + |h|] == CRLF
            && e[3 + |h|..|e| - 2] == b
  {
    DecimalValue(|b|);
  }

  /** An array is announced by its element count in decimal, and the
      element encodings follow the header in order. */
  lemma EncodeArrayHeader(a: seq<Value>)
    ensures var e, h := Encode(Array(a)), Decimal(|a|);
            && e[1..1 + |h|] == h && DigitsValue(h) == |a|
            && e[1 + |h|..3 + |h|] == CRLF
            && e[3 + |h|..] == EncodeSeq(a)
  {
    DecimalValue(|a|);
  }

  /** The two unit tests of the writer, as facts about `Encode`. */
  lemma MarshalBulkExample()
    ensures Encode(Bulk(Ascii("hello"))) == Ascii("$5\r\nhello\r\n")
  {
  }

  lemma MarshalArrayExample()
    ensures Encode(Array([Bulk(Ascii("hello")), Bulk(Ascii("world"))]))
         == Ascii("*2\r\n$5\r\nhello\r\n$5\r\nworld\r\n")
  {
    EncodePair(Bulk(Ascii("hello")), Bulk(Ascii("world")));
    MarshalBulkExample();
    BulkWorldBytes();
    ArrayExampleBytes();
  }

  lemma EncodePair(x: Value, y: Value)
    ensures Encode(Array([x, y])) == Ascii("*2\r\n") + Encode(x) + Encode(y)
  {
    EncodeSeqAppend([x], y);
    EncodeSeqAppend([], x);
    assert [x] + [y] == [x, y];
  }

  lemma BulkWorldBytes()
    ensures Encode(Bulk(Ascii("world"))) == Ascii("$5\r\nworld\r\n")
  {
  }

  lemma ArrayExampleBytes()
    ensures Ascii("*2\r\n$5\r\nhello\r\n$5\r\nworld\r\n")
         == Ascii("*2\r\n") + Ascii("$5\r\nhello\r\n") + Ascii("$5\r\nworld\r\n")
  {
  }
}
