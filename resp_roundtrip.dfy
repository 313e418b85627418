/** How the decoder reads what the encoder writes. The decoder knows only
    arrays and bulk strings with one-digit lengths, and leaves the final
    CRLF of a bulk body to be skipped by whoever reads next; within those
    limits it recovers every value the encoder writes. */
module RespRoundTrip {
  import opened RespValue
  import opened RespWriter
  import opened RespParser

  /** Values the decoder can read back: arrays and bulk strings only, every
      element count and byte length a single decimal digit. */
  predicate Framable(v: Value) {
    match v
    case Bulk(b) => |b| <= 9
    case Array(a) => |a| <= 9 && forall k | 0 <= k < |a| :: Framable(a[k])
    case _ => false
  }

  /** `e` lies in the stream `s` from position `i` on, stated byte by byte. */
  predicate At(s: Bytes, i: nat, e: Bytes)
    decreases |e|
  {
    if e == [] then i <= |s| else i < |s| && s[i] == e[0] && At(s, i + 1, e[1..])
  }

  lemma {:induction false} AtSlice(s: Bytes, i: nat, e: Bytes)
    ensures At(s, i, e) <==> i + |e| <= |s| && s[i..i + |e|] == e
    decreases |e|
  {
    if e != [] {
      AtSlice(s, i + 1, e[1..]);
      if i + |e| <= |s| {
        assert s[i..i + |e|] == [s[i]] + s[i + 1..i + 1 + |e[1..]|];
        assert e == [e[0]] + e[1..];
      }
    }
  }

  /** Wherever the encoding of a framable value sits in a stream, the decoder
      returns that value and stops just before the encoding's last two
      bytes. */
  lemma {:induction false} ParseEncoded(v: Value, s: Bytes, i: nat)
    requires Framable(v) && At(s, i, Encode(v))
    ensures ParseAt(s, i) == Ok((v, i + |Encode(v)| - 2))
    decreases v, 3
  {
    if v.Bulk? {
      ParseBulkAt(v.bulk, s, i);
    } else {
      ParseEncodedArray(v.items, s, i);
    }
  }

  /** An array's encoding, found in the stream, parses back to the array. */
  lemma ParseEncodedArray(a: seq<Value>, s: Bytes, i: nat)
    requires |a| <= 9 && forall k | 0 <= k < |a| :: Framable(a[k])
    requires At(s, i, Encode(Array(a)))
    ensures ParseAt(s, i) == Ok((Array(a), i + |Encode(Array(a))| - 2))
    decreases a, 2
  {
    ArrayAt(a, s, i);
    ParseEncodedElems(a, s, i + 2, []);
    ParseArrayAt(a, s, i, i + 2 + |EncodeSeq(a)|);
  }

  /** A bulk string's encoding, found in the stream, parses back to it. */
  lemma ParseBulkAt(b: Bytes, s: Bytes, i: nat)
    requires |b| <= 9 && At(s, i, Encode(Bulk(b)))
    ensures ParseAt(s, i) == Ok((Bulk(b), i + |Encode(Bulk(b))| - 2))
  {
    var e := Encode(Bulk(b));
    assert e == [BULK, DigitByte(|b|), CR, LF] + b + CRLF;
    AtSlice(s, i, e);
    SliceOf(s, i, e, 0, 2);
    SliceOf(s, i, e, 4, 4 + |b|);
    assert e[..2] == [BULK, DigitByte(|b|)] && e[4..4 + |b|] == b;
    ParseBulk(s, i);
  }

  /** An array's encoding, found in the stream, is its tag, its length digit,
      two more bytes, and then the encodings of its elements. */
  lemma ArrayAt(a: seq<Value>, s: Bytes, i: nat)
    requires |a| <= 9 && At(s, i, Encode(Array(a)))
    ensures i + 4 <= |s| && s[i] == ARRAY && s[i + 1] == DigitByte(|a|)
    ensures At(s, i + 4, EncodeSeq(a)) && |Encode(Array(a))| == 4 + |EncodeSeq(a)|
  {
    var e, body := Encode(Array(a)), EncodeSeq(a);
    assert e == [ARRAY, DigitByte(|a|), CR, LF] + body;
    AtSlice(s, i, e);
    SliceOf(s, i, e, 0, 2);
    SliceOf(s, i, e, 4, |e|);
    assert e[..2] == [ARRAY, DigitByte(|a|)] && e[4..] == body;
    AtSlice(s, i + 4, body);
  }

  /** An array header in the stream, followed by elements the element loop
      reads back, parses to the array of those elements. */
  lemma ParseArrayAt(a: seq<Value>, s: Bytes, i: nat, stop: nat)
    requires |a| <= 9 && i + 1 < |s| && s[i] == ARRAY && s[i + 1] == DigitByte(|a|)
    requires ParseElems(s, i + 2, |a|, []) == Ok(([] + a, stop))
    ensures ParseAt(s, i) == Ok((Array(a), stop))
  {
    assert [] + a == a;
    ParseArrayHeader(s, i);
  }

  /** The element loop reads the encodings of `a`, laid end to end two bytes
      after `j`, back as `a`, and stops before the last two bytes. */
  lemma {:induction false} ParseEncodedElems(a: seq<Value>, s: Bytes, j: nat, acc: seq<Value>)
    requires forall k | 0 <= k < |a| :: Framable(a[k])
    requires At(s, j + 2, EncodeSeq(a))
    ensures ParseElems(s, j, |a|, acc) == Ok((acc + a, j + |EncodeSeq(a)|))
    decreases a, 1
  {
    if a != [] {
      var mid := ParseEncodedHead(a, s, j);
      ParseEncodedElems(a[1..], s, mid, acc + [a[0]]);
      ElemsStep(s, j, acc, a, mid, j + |EncodeSeq(a)|);
    } else {
      assert acc + a == acc;
    }
  }

  /** The first element parses back from its encoding, and the parse stops
      where the encodings of the others begin, two bytes on. */
  lemma ParseEncodedHead(a: seq<Value>, s: Bytes, j: nat) returns (mid: nat)
    requires a != [] && At(s, j + 2, EncodeSeq(a))
    requires forall k | 0 <= k < |a| :: Framable(a[k])
    ensures ParseAt(s, j + 2) == Ok((a[0], mid))
    ensures forall k | 0 <= k < |a[1..]| :: Framable(a[1..][k])
    ensures At(s, mid + 2, EncodeSeq(a[1..])) && mid + |EncodeSeq(a[1..])| == j + |EncodeSeq(a)|
    decreases a, 0
  {
    TailFramable(a);
    mid := SplitElems(a, s, j);
    ParseEncoded(a[0], s, j + 2);
  }

  /** The encodings of a non-empty array's elements, found in the stream two
      bytes after `j`, are the first element's encoding followed by the
      others', which begin two bytes after `mid`. */
  lemma SplitElems(a: seq<Value>, s: Bytes, j: nat) returns (mid: nat)
    requires a != [] && At(s, j + 2, EncodeSeq(a))
    ensures At(s, j + 2, Encode(a[0])) && mid == j + |Encode(a[0])|
    ensures At(s, mid + 2, EncodeSeq(a[1..])) && mid + |EncodeSeq(a[1..])| == j + |EncodeSeq(a)|
  {
    AtSplit(s, j + 2, Encode(a[0]), EncodeSeq(a[1..]));
    mid := j + |Encode(a[0])|;
  }

  /** The elements of a list of framable values are framable, first and rest. */
  lemma TailFramable(a: seq<Value>)
    requires a != [] && forall k | 0 <= k < |a| :: Framable(a[k])
    ensures Framable(a[0]) && forall k | 0 <= k < |a[1..]| :: Framable(a[1..][k])
  {
    assert forall k | 0 <= k < |a[1..]| :: a[1..][k] == a[k + 1];
  }

  /** Where two pieces lie end to end in the stream, each lies in its place. */
  lemma {:induction false} AtSplit(s: Bytes, i: nat, x: Bytes, y: Bytes)
    requires At(s, i, x + y)
    ensures At(s, i, x) && At(s, i + |x|, y)
    decreases |x|
  {
    if x == [] {
      assert x + y == y;
      AtSlice(s, i, y);
    } else {
      assert (x + y)[0] == x[0] && (x + y)[1..] == x[1..] + y;
      AtSplit(s, i + 1, x[1..], y);
    }
  }

  /** A piece of a stretch of the stream is the same piece of what lies there. */
  lemma SliceOf(s: Bytes, i: nat, e: Bytes, p: nat, q: nat)
    requires i + |e| <= |s| && s[i..i + |e|] == e && p <= q <= |e|
    ensures s[i + p..i + q] == e[p..q]
  {
    assert forall k | 0 <= k < |e| :: e[k] == s[i + k];
  }

  /** Parsing the marshalled bytes of a framable value gives the value back,
      with exactly the final CRLF left unread. */
  lemma ParseMarshalled(v: Value)
    requires Framable(v)
    ensures ParseAt(Encode(v), 0) == Ok((v, |Encode(v)| - 2))
  {
    assert Encode(v)[0..|Encode(v)|] == Encode(v);
    AtSlice(Encode(v), 0, Encode(v));
    ParseEncoded(v, Encode(v), 0);
  }

  /** The parser's unit test: the request `*2 $5 hello $5 world`, whose
      bytes are exactly the writer's expected array encoding, parses to the
      array of the two bulk strings. */
  lemma ParseRespExample()
    ensures ParseAt(Ascii("*2\r\n$5\r\nhello\r\n$5\r\nworld\r\n"), 0)
         == Ok((Array([Bulk(Ascii("hello")), Bulk(Ascii("world"))]), 24))
  {
    var v := Array([Bulk(Ascii("hello")), Bulk(Ascii("world"))]);
    MarshalArrayExample();
    assert Framable(v);
    ParseMarshalled(v);
  }

  /** The one-digit limit is real: a ten-byte bulk string is written with
      the length `10`; the decoder takes `1` as the length, skips the `0` and
      the CR as if they were the CRLF, and returns the single byte LF. */
  lemma TenByteBulkMisread(b: Bytes)
    requires |b| == 10
    ensures ParseAt(Encode(Bulk(b)), 0) == Ok((Bulk([LF]), 5))
  {
    var e := Encode(Bulk(b));
    assert Decimal(10) == [DigitByte(1), DigitByte(0)];
    assert e == [BULK, DigitByte(1), DigitByte(0), CR, LF] + b + CRLF;
    assert e[1] == DigitByte(1) && e[4..5] == [LF];
    ParseBulk(e, 0);
  }
}
