/** The value model shared by the RESP decoder, the encoder and the command
    handlers: one closed variant type, and the wire bytes it is built from. */
module RespValue {

  /** One octet of the byte stream. */
  newtype byte = b: int | 0 <= b < 256

  type Bytes = seq<byte>

  /** Rust's `i32`, the payload of an integer reply. */
  newtype int32 = x: int | -0x8000_0000 <= x < 0x8000_0000

  /** The six variants the encoder and the handlers use. Text payloads are
      kept as the raw bytes that travel on the wire, so the length of a
      payload is its byte length. */
  datatype Value =
    | Str(str: Bytes)
    | Num(num: int32)
    | Bulk(bulk: Bytes)
    | Array(items: seq<Value>)
    | Error(msg: Bytes)
    | Null

  /** The one-byte type tags of the wire format. */
  const STRING: byte := '+' as int as byte
  const ERROR: byte := '-' as int as byte
  const INTEGER: byte := ':' as int as byte
  const BULK: byte := '$' as int as byte
  const ARRAY: byte := '*' as int as byte

  const MINUS: byte := '-' as int as byte
  const CR: byte := 13
  const LF: byte := 10
  const CRLF: Bytes := [CR, LF]

  predicate IsDigit(b: byte) {
    '0' as int <= b as int <= '9' as int
  }

  predicate AllDigits(s: Bytes) {
    forall i | 0 <= i < |s| :: IsDigit(s[i])
  }

  function DigitByte(d: nat): byte
    requires d < 10
  {
    ('0' as int + d) as byte
  }

  /** The bytes of a text whose characters are all ASCII, for the fixed
      replies and the tests (each character is cut to its low byte). */
  function Ascii(s: string): Bytes {
    seq(|s|, i requires 0 <= i < |s| => (s[i] as int % 256) as byte)
  }
}
