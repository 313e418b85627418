# redis-rs RESP core in Dafny

This is a model of the sequential core of a small Redis-protocol server written in Rust. It has three parts:

- **Decoder** (`RespReader`, `src/parser.rs`). It reads a one-byte type tag from a byte stream. It understands two tags:
  - `*` arrays, which it reads recursively;
  - `$` bulk strings.

  Every length is a single decimal digit. A bulk length is followed by two skipped bytes, which are not checked. An array skips two unchecked bytes before each element, so an empty array skips none. The CRLF that closes a bulk body is not read by the bulk arm: the array loop's skip before the next element takes its place.
- **Encoder** (`marshal_value`, `src/writer.rs`). It maps each of the six reply variants to its exact wire bytes: simple string, integer, bulk string, array, error and Null.
- **Command layer** (`src/handler.rs`). `handler` selects `ping`, `set`, `get` or `unknown` by the lower-case name of a bulk string. `set` and `get` work on a key/value store that `set` updates in place.

Files:

- `resp_value.dfy` (module `RespValue`): the byte type, the `Value` datatype and the wire constants.
- `resp_writer.dfy` (module `RespWriter`):
  - `Encode`, the function that specifies the encoder;
  - `MarshalValue`, the encoder itself, with the array arm's buffer loop;
  - the lemmas about the encoding.
- `resp_parser.dfy` (module `RespParser`):
  - reading functions over a byte sequence and a position (`ReadCharAt` … `ParseAt`);
  - the class `RespReader`, which owns the input and a position. Each of its methods is proved against the matching reading function;
  - lemmas about the decoder's framing.
- `resp_roundtrip.dfy` (module `RespRoundTrip`): what the decoder makes of the encoder's bytes, including the parse of the marshalled bytes of every value it can frame.
- `handler.dfy` (module `Handler`):
  - command selection;
  - the replies of the four commands;
  - the class `Db`;
  - `Dispatch`, the selected command applied to its arguments and the store.

The model follows the code as written. Where a fuller RESP decoder would do more, the one modelled here:

- reads one-digit lengths only;
- does not check the two bytes it skips;
- does not decode `$-1` as Null;
- stops with a panic, not a typed error, on an unknown tag or a non-digit length.

`TenByteBulkMisread` shows what the one-digit limit does to a ten-byte bulk string.

## Model

| member | source | states |
|---|---|---|
| RespWriter.Decimal | src/writer.rs:18-21 | The length and integer text that `format!` writes: at least one digit, all digits, no leading zero. |
| RespWriter.DecimalValue | src/writer.rs:19 | Decimal text reads back as the number it was written from. |
| RespWriter.SignedDecimalValue | src/writer.rs:18 | The signed text of an `i32` is an optional minus sign followed by digits, and it reads back as the integer. |
| RespWriter.EncodeSeqAppend | src/writer.rs:22-24 | Appending a value to an array appends its encoding to the element bytes: the buffer is extended in element order. |
| RespWriter.EncodeFrame | src/writer.rs:15-30 | Every encoding has at least three bytes, starts with its variant's tag byte and ends with CRLF. |
| RespWriter.MarshalValue | src/writer.rs:15-30 | The encoder, with the array arm's loop that extends the buffer, produces exactly the bytes `Encode` specifies. |
| RespWriter.EncodeTextPayload | src/writer.rs:17 | A simple string and an error are their tag, their text unchanged and CRLF. Null is exactly `$-1\r\n` (lines 27-28). |
| RespWriter.EncodeNumText | src/writer.rs:18 | An integer reply holds, between `:` and CRLF, signed decimal text that reads back as the integer. |
| RespWriter.EncodeBulkHeader | src/writer.rs:19 | A bulk string is announced by its byte length in decimal and CRLF, and then exactly its bytes follow. |
| RespWriter.EncodeArrayHeader | src/writer.rs:20-21 | An array is announced by its element count in decimal and CRLF, and then the element encodings follow in order. |
| RespWriter.MarshalBulkExample | src/writer.rs:43-49 | Bulk "hello" encodes to `$5\r\nhello\r\n`. |
| RespWriter.MarshalArrayExample | src/writer.rs:51-60 | The array of bulk "hello" and bulk "world" encodes to `*2\r\n$5\r\nhello\r\n$5\r\nworld\r\n`. |
| RespWriter.EncodePair | src/writer.rs:20-26 | A two-element array encodes to `*2\r\n` followed by the two element encodings. |
| RespParser.ReadCharAt | src/parser.rs:50-54 | Reads one byte and advances by one. At the end of the input it fails with `EndOfInput`. |
| RespParser.ReadIntAt | src/parser.rs:56-63 | Consumes exactly one byte. It succeeds iff that byte is an ASCII digit, and the length is that digit's value, at most 9. A non-digit is the failed `expect`; a missing byte is `EndOfInput`. |
| RespParser.ReadStrAt | src/parser.rs:65-69 | Returns exactly the next `size` bytes and advances by `size`, or fails with `EndOfInput` iff fewer remain. |
| RespParser.NewlineAt | src/parser.rs:71-74 | Skips two bytes, whatever they are, or fails with `EndOfInput` iff fewer than two remain. |
| RespParser.ParseAt | src/parser.rs:76-107 | A successful parse starts inside the input, moves forward and stops within the input. |
| RespParser.ParseElems | src/parser.rs:85-89 | The array loop's result keeps the elements read before, in front and in order, followed by exactly `count` more. It stops within the input. |
| RespParser.ParseAtTag | src/parser.rs:77-105 | The tag byte decides the result. `*` gives an Array, `$` a Bulk, and any other byte the unknown-type error (the `panic!` at line 105). An exhausted input is `EndOfInput`. |
| RespParser.ParseBulk | src/parser.rs:94-104 | A bulk parse with digit n consumes exactly 1 + 1 + 2 + n bytes. The payload is exactly the n bytes after the two skipped bytes. A short input gives `EndOfInput`. |
| RespParser.ParseArrayHeader | src/parser.rs:80-92 | An array parse reads the digit and hands the rest to the element loop. The array is the loop's elements, or the loop's error. |
| RespParser.ParseEmptyArray | src/parser.rs:81-85 | Length digit `0` gives an empty array and consumes only the two header bytes. |
| RespParser.SpansIndex | src/parser.rs:85-88 | Element k is parsed two bytes after the end of element k - 1 and ends where element k + 1's two skipped bytes begin. |
| RespParser.ElementBounds | src/parser.rs:85-89 | The element loop reads its elements back to back in stream order, each after exactly two skipped bytes. |
| RespParser.ParseArray | src/parser.rs:80-93 | An array parse with digit n has exactly n elements, in stream order. Each element is preceded by exactly two skipped bytes, the first right after the digit. |
| RespParser.ArrayDigit | src/parser.rs:81 | A successful array parse has read a digit right after the tag. |
| RespParser.ParseCut | src/parser.rs:76-107 | A parse depends only on the bytes it consumes. Cutting the input before the stopping point makes it fail with `EndOfInput`; cutting at or after that point changes nothing. |
| RespParser.ElemsCut | src/parser.rs:85-89 | The same for the element loop. |
| RespParser.RespReader.constructor | src/parser.rs:46-48 | A new reader holds the whole input and has read nothing. |
| RespParser.RespReader.ReadChar | src/parser.rs:50-54 | Returns the result `ReadCharAt` gives and moves the position to where it stops. |
| RespParser.RespReader.ReadInt | src/parser.rs:56-63 | Returns the result `ReadIntAt` gives and moves the position to where it stops. |
| RespParser.RespReader.ReadStr | src/parser.rs:65-69 | Returns the result `ReadStrAt` gives and moves the position to where it stops. |
| RespParser.RespReader.ConsumeNewline | src/parser.rs:71-74 | Moves the position by two as `NewlineAt` gives, or fails with its error. |
| RespParser.RespReader.Parse | src/parser.rs:76-107 | The parse method, with the loop that pushes each element, returns the value `ParseAt` gives and leaves the position where it stops. Failures are the same errors. |
| RespRoundTrip.ParseEncoded | src/parser.rs:76-107 | Wherever the encoding of an array or bulk value with one-digit counts lies in a stream, the decoder returns that value and stops just before the encoding's final CRLF. |
| RespRoundTrip.ParseEncodedArray | src/parser.rs:80-93 | The same for an array, read through its element loop. |
| RespRoundTrip.ParseBulkAt | src/parser.rs:94-104 | The same for a bulk string. |
| RespRoundTrip.ParseEncodedElems | src/parser.rs:85-89 | The element loop reads the concatenated element encodings back as the elements, in order. |
| RespRoundTrip.ParseMarshalled | src/parser.rs:76-107 | Parsing what `marshal_value` writes (src/writer.rs:19-26) for any value built from arrays and bulk strings with counts and lengths of at most 9 returns that value. Exactly the last two bytes are left unread. |
| RespRoundTrip.ParseRespExample | src/parser.rs:110-126 | `*2\r\n$5\r\nhello\r\n$5\r\nworld\r\n` parses to the array of bulk "hello" and bulk "world". These are the bytes the writer's array test expects. |
| RespRoundTrip.TenByteBulkMisread | src/parser.rs:56-62 | A ten-byte bulk string, which the encoder writes with length `10`, is read with length 1 as the single byte LF. |
| Handler.UnwrapStr | src/handler.rs:7 | The text of a simple or bulk string is its payload. |
| Handler.Select | src/handler.rs:37-49 | A command value that is not a bulk string selects `unknown`. |
| Handler.SelectByName | src/handler.rs:39-45 | A bulk name selects `ping`, `set` or `get` iff it spells that name in any mix of upper and lower case. Every other name selects `unknown`. |
| Handler.SelectIgnoresCase | src/handler.rs:40 | Names equal up to case select the same command. |
| Handler.SelectPing | src/handler.rs:40-41 | `PING`, `Ping` and `ping` all select `ping`. |
| Handler.PingReply | src/handler.rs:3-9 | No arguments give the simple string PONG. Otherwise the reply is the simple string of the first argument's text. |
| Handler.PingIgnoresRest | src/handler.rs:7 | Only the first argument of `ping` matters. |
| Handler.UnknownReply | src/handler.rs:11-13 | The reply is an error whose text is `Unknown command: ` followed by the first argument's text. There must be a first argument. |
| Handler.SetThenGet | src/handler.rs:15-34 | After `set(k, v)`, `get(k)` returns bulk v. Every other key keeps its presence and its value, and a `get` of it replies as before. |
| Handler.SetWrongArity | src/handler.rs:16-22 | `set` with any argument count but two leaves the store unchanged and replies the error `Wrong number of arguments`. |
| Handler.SetTwice | src/handler.rs:18 | The last write wins: a second `set` of a key overrides the first. |
| Handler.LookupCases | src/handler.rs:25-35 | `get` replies Null iff one key is asked for and it is missing, and a bulk string iff it is present. Any other argument count gives the error `Wrong number of arguments`. |
| Handler.Db.Set | src/handler.rs:15-23 | `set` updates the store in place as `Store` says and replies as `SetReply` says. |
| Handler.Db.Get | src/handler.rs:25-35 | `get` replies as `Lookup` says and cannot change the store. |
| Handler.Dispatch | src/handler.rs:37-49 | Running the selected command gives that command's reply, and only `set` changes the store. |

## Left out

- `src/main.rs` is not part of this model. It holds the TCP accept loop, logging and the fixed `+PONG` reply, and it never calls the handler.
- `RespWriter::write` and its `TcpStream` are not modelled (a socket write). Only `marshal_value` is.
- The `BufReader` behind `RespReader` is the whole input as a byte sequence plus a position. The position counts the bytes that `read_exact` has consumed.
- The `Mutex` around the store (`db.lock()`) is dropped: it is concurrency. `Db` is a single-owner map.
- The `Db` type itself is not defined in the repository: `src/handler.rs:1` imports it from the crate root. Its creation is not part of this model either; `Db`'s constructor gives an empty store. The model takes the type to be the map from keys to values that `insert` and `get` use, with both kept as bytes.
- `String::from_utf8_lossy` in `read_str` is not modelled: payloads are raw bytes. So a bulk string's length is its byte length, as `String::len` gives it. Invalid UTF-8 is not replaced.
- `to_lowercase` is ASCII lower case on bytes. For matching `ping`, `set` and `get` this is exact: no non-ASCII character lower-cases to one of their letters.
- `unwrap_str` is not defined in the repository. `UnwrapStr` gives the text of a simple or bulk string. Each command requires its used arguments to be of those two kinds. What `unwrap_str` does with other values is not modelled.
- The parser's own `Value` (a struct of a tag character and a four-variant `ValueContent`, src/parser.rs:10-38) is merged with the six-variant enum the writer and the handler use. The tag stored in the struct always agrees with the variant, so one datatype stands for both.
- The panics in the decoder are error results, not aborts: the failed `expect` in `read_int` is `NotADigit`, the unknown-tag `panic!` is `UnknownType`.
- RespParser.RespReader.Parse: after an error, the position is left unstated, and the same holds for the other reader methods. The source abandons the reader on an error.
- Multi-digit and negative lengths, CRLF validation and commands other than PING, SET and GET do not exist in this code and are not modelled.
