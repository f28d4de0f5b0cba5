# redis-x: the RESP codec, the command store and the request step

redis-x is a small Redis-like server written in Go. This project models
its core in Dafny and proves properties of that model. The core has three
parts.

- **The RESP codec** (`resp.go`).
  - The decoder reads one value from a byte stream. `*` starts an array of
    values and `$` starts a length-prefixed, binary-safe bulk string. Any
    other prefix byte gives the untyped zero value and no error.
  - The encoder (`Driver` and its helpers) turns a value into bytes.
- **The store and its handlers** (`handler.go`).
  - The store is two maps: strings (`SETs`) and hashes of fields (`HSETs`).
  - The handlers are `ping`, `set`, `get`, `hset`, `hget` and `hgetall`.
- **The request step** (`main.go`). It takes the outcome of one read and
  does one of four things:
  - stops, when the read failed;
  - drops the request, when it is not a non-empty array;
  - answers an unknown command with an empty simple string;
  - runs the handler named by the upper-cased first element on the
    remaining elements.

Modules:

- `Values` holds bytes, the type-prefix bytes and the `Value` record.
  - Go strings are byte strings, so `str` and `bulk` are `Bytes`.
  - The Go field `typ` is a string, but the source only ever assigns
    `"array"`, `"bulk"`, `"string"`, `"null"` or `"error"`, or leaves it as
    `""`. The model uses the enumeration `Typ`, with `NoTyp` for `""`.
  - The Go field `array` is called `elements`, because `array` is a Dafny
    keyword.
- `Numbers` models `strconv.Itoa` and `strconv.ParseInt(·, 10, 64)`.
- `Decoder` has two layers.
  - Specification functions read a value at a position of the input. Each
    gives a `Step`: the result, and the position the reader is left at,
    also on failure.
  - The class `Resp` is the reader: a cursor over the input. Its methods
    consume bytes in loops as the Go methods do, and each is proved equal
    to its specification function.
- `Encoder` has the `Driver` functions and `Encode`, which is the source's
  loop.
- `RoundTrip` proves that decoding inverts encoding.
- `Handlers` has three parts.
  - `Handled` specifies every handler over snapshots (`Db`) of the store.
  - The class `Store` holds the two maps and updates them in place.
  - Lemmas relate the handlers to each other.
- `Server` holds the request step (`Decide`, `Handle`) and end-to-end
  lemmas.

## Model

| member | source | states |
|---|---|---|
| Numbers.Decimal | resp.go:200 | `strconv.Itoa` of a length: a non-empty digit string with no leading zero unless the number is 0 |
| Numbers.DecimalValue | resp.go:200 | the digits Itoa writes denote the number written |
| Numbers.ParseInt64 | resp.go:86-90 | ParseInt succeeds only on a signed decimal, with a value in the int64 range; a '-' gives a value <= 0 and otherwise the value is >= 0 |
| Numbers.ParseInt64Exact | resp.go:86-90 | ParseInt succeeds exactly on a non-empty digit string after an optional '+' or '-' whose value fits in 64 bits, and returns that value; overflow and every other line are errors |
| Numbers.ParseDecimal | resp.go:86-90 | ParseInt reads back every Itoa output up to 2^63-1 |
| Numbers.ParseNegativeDecimal | resp.go:86-90 | ParseInt reads "-" followed by the digits of n, for n up to 2^63, as -n |
| Decoder.ParseLine | resp.go:63-76 | readLine stays within the input and, on success, has consumed at least the two terminator bytes; `ParseLineResult` states which bytes it returns |
| Decoder.ParseLineResult | resp.go:63-76 | readLine returns the bytes before the first '\r' that has a byte after it; it consumes that '\r' and the byte after it, whatever that byte is; without such a '\r' it fails and consumes the whole input |
| Decoder.ParseLineAt | resp.go:64-75 | a '\r' with a byte after it and no earlier '\r' ends the line there, and the reader is left two bytes after the '\r' |
| Decoder.ParseLineFails | resp.go:64-68 | without such a '\r' the read fails with end of input |
| Decoder.ParseInteger | resp.go:81-91 | readInteger stays within the input, and on success it has consumed at least the CRLF and returns a value that fits in int64 |
| Decoder.ParseIntegerResult | resp.go:81-91 | readInteger succeeds exactly when `readLine` succeeds and the line is a signed decimal whose value fits in int64, and then returns that value; it ends where `readLine` ended; a line that is read but is not such a decimal fails with `BadInteger` |
| Decoder.ParseValue | resp.go:96-111 | Read stays within the input and, on success, consumes at least the prefix byte |
| Decoder.ValueOtherPrefix | resp.go:97-110 | end of input before the prefix is an error; a prefix other than '*' and '$' gives the untyped zero value and no error, and consumes only that byte |
| Decoder.ParseArray | resp.go:116-137 | readArray succeeds only after a valid length line, and then its result is an array holding exactly max(n, 0) elements; `ArrayResult` states how a length <= 0 and a failing element end the read |
| Decoder.ArrayResult | resp.go:127-136 | once the length line n is read: a length <= 0 gives the empty array right after that line, and an element that fails makes readArray fail with that element's error where the element loop stopped |
| Decoder.ParseElements | resp.go:127-134 | the element loop stays within the input, and on success it has read exactly max(count, 0) values |
| Decoder.ElementsAbort | resp.go:129-132 | an error from any element aborts the whole read: a failing first element makes the loop fail with that error at that position, and a failure later in the loop is the loop's result |
| Decoder.ParseBulk | resp.go:142-161 | readBulk's successful result is always a bulk string, and it consumes at least one byte |
| Decoder.BulkFromParts | resp.go:147-160 | after a length line n, the bulk content is the next n bytes, whatever they are, and then one more line is skipped |
| Decoder.ArrayFromParts | resp.go:103-104 | '*', a length line n, then n values read in order give an array of exactly those values |
| Decoder.Resp.constructor | resp.go:56-58 | a new reader starts at the beginning of its input |
| Decoder.Resp.ReadByte | resp.go:97-100 | one byte is consumed, or the read fails at end of input and nothing moves |
| Decoder.Resp.ReadLine | resp.go:63-76 | the byte loop gives the same line and leaves the reader at the same position as `ParseLine`; `n` is the line length plus 2 on success |
| Decoder.Resp.ReadInteger | resp.go:81-91 | same outcome and position as `ParseInteger`; `n` is the number of bytes consumed, except that it is 0 when the line could not be read |
| Decoder.Resp.Read | resp.go:96-111 | same outcome and position as `ParseValue` |
| Decoder.Resp.ReadArray | resp.go:116-137 | the element loop gives the same outcome and position as `ParseArray` |
| Decoder.Resp.ReadBulk | resp.go:142-161 | same outcome and position as `ParseBulk` |
| Encoder.Driver | resp.go:166-181 | the switch on the tag; the bytes are given by the definition, and `DriverPrefix`, `ValueRoundTrip` and `NullReplyIsNegativeLength` state what they are |
| Encoder.StringDriver | resp.go:186-192 | '+', the text, CRLF, by definition; `SimpleLineRoundTrip` shows it is one line that reads back as the text |
| Encoder.BulkDriver | resp.go:197-205 | '$', the Itoa of the byte length, CRLF, the raw bytes, CRLF, by definition; `BulkRoundTrip` shows it reads back as the same bulk string |
| Encoder.ArrayDriver | resp.go:210-222 | '*', the Itoa of the element count, CRLF, then each element's encoding in order, by definition; `ArrayRoundTrip` and `Encode` are proved about it |
| Encoder.NullDriver | resp.go:227-229 | the five bytes "$-1\r\n", by definition; `NullReplyIsNegativeLength` reads them back |
| Encoder.ErrorDriver | resp.go:234-240 | '-', the text, CRLF, by definition; `SimpleLineRoundTrip` shows it is one line that reads back as the text |
| Encoder.DriverPrefix | resp.go:166-181 | a value encodes to nothing exactly when it has no tag the encoder knows; otherwise the first byte is the prefix of its type, and null is written with '$' |
| Encoder.Encode | resp.go:166-222 | the source's construction, including the loop that appends each element's encoding in order, gives exactly `Driver(v)` |
| RoundTrip.IntegerAt | resp.go:81-91 | a length line written by Itoa reads back as that length and consumes the digits and CRLF |
| RoundTrip.BulkAt | resp.go:147-160 | binary safety: bulk content is taken by length, so CR and LF inside it are data |
| RoundTrip.BulkRoundTrip | resp.go:197-205 | a bulk string reads back from its encoding and consumes exactly that encoding |
| RoundTrip.ArrayRoundTrip | resp.go:210-222 | an array of decodable values reads back from its encoding and consumes exactly that encoding |
| RoundTrip.ElementsRoundTrip | resp.go:128-134 | the concatenated encodings of values read back as those values in order |
| RoundTrip.ValueRoundTrip | resp.go:96-111 | every value built from bulk strings and arrays reads back unchanged from its encoding, wherever that encoding stands in the input |
| RoundTrip.ReadDriverRoundTrip | resp.go:166-181 | `Read(Driver(v))` returns v without error and stops at the end of the encoding, leaving any following bytes unread |
| RoundTrip.SimpleLineRoundTrip | resp.go:186-192 | a simple string or error is one line: the tag, then text without '\r', then CRLF; reading that line gives the text back |
| RoundTrip.NullReplyIsNegativeLength | resp.go:227-229 | the null reply is the five bytes "$-1\r\n", which the decoder reads as a negative bulk length |
| Handlers.Lookup | handler.go:17-24 | the table maps a name to the command with exactly that key, and maps every other name to nothing |
| Handlers.LookupName | handler.go:17-24 | every table key finds its own handler |
| Handlers.PingReply | handler.go:26-31 | ping's reply, by definition; `PingEcho` states its properties |
| Handlers.PingEcho | handler.go:26-31 | ping with no arguments answers "PONG"; otherwise it answers a simple string equal to the first argument's bulk and ignores the other arguments |
| Handlers.WrongArity | handler.go:34-100 | a wrong number of arguments (2 for set, 1 for get, 3 for hset, 2 for hget, 1 for hgetall) gives that command's "ERR wrong number of arguments" error and changes neither map (the checks at handler.go lines 34-35, 48-49, 64-65, 82-83 and 99-100) |
| Handlers.ReadersChangeNothing | handler.go:47-119 | ping, get, hget and hgetall never change the store |
| Handlers.HandledKeepsWellFormed | handler.go:72-75 | every handler keeps every hash non-empty, because a hash is only created to set a field in it |
| Handlers.GetAfterSet | handler.go:33-61 | get after set k v answers v; every other key and the hashes are unchanged |
| Handlers.HGetAfterHSet | handler.go:63-96 | hget k f after hset k f v answers v; every other key and field keeps its answer, and the string map is unchanged |
| Handlers.HGetAllNotEmpty | handler.go:105-118 | in a well-formed store, hgetall of an existing hash answers an array with at least one pair |
| Handlers.ListingFindsField | handler.go:113-116 | in an hgetall listing every field of the hash appears, immediately followed by its own value |
| Handlers.Store.constructor | handler.go:11-14 | both maps start empty |
| Handlers.Store.Set | handler.go:33-45 | with two arguments, the string map gets key := value, the hashes are untouched, and the reply is "OK"; otherwise the arity error |
| Handlers.Store.Get | handler.go:47-61 | the stored value as a bulk string, null (not an error or an empty bulk) for a missing key, or the arity error; the store is not changed |
| Handlers.Store.HSet | handler.go:63-79 | with three arguments, the hash is created on first use and only that field is set; the reply is "OK" |
| Handlers.Store.HGet | handler.go:81-96 | the field's value as a bulk string, null when either the hash or the field is missing, or the arity error |
| Handlers.Store.HGetAll | handler.go:98-119 | null for a missing hash, otherwise an array listing every field once, each followed by its value, in any order |
| Handlers.Store.List | handler.go:112-116 | the map walk in any order gives 2 x (number of fields) elements, alternating distinct field names and their values, and covers every field |
| Handlers.Store.Execute | handler.go:17-24 | the command runs as `Handled` says for it |
| Server.Decide | main.go:36-59 | the decision for one read, by definition; `DecideCases` states its cases |
| Server.DecideCases | main.go:36-59 | a failed read ends the session; a non-array or an empty array is dropped; otherwise the upper-cased bulk of the first element names a handler or none, and the handler gets exactly the other elements in order |
| Server.DispatchAnyCase | main.go:51-55 | command names are case-insensitive: any spelling whose upper-case form is a table key runs that handler |
| Server.NullArrayDropped | main.go:36-49 | a null array `*-1\r\n` reads as an empty array ending after those five bytes, and the step drops it: nothing is written and the session goes on |
| Server.ToUpper | main.go:51 | `strings.ToUpper` on ASCII letters, by definition; `ToUpperAscii` states what it does |
| Server.ToUpperAscii | main.go:51 | upper-casing keeps the length, turns each of a-z into its capital and keeps every other byte |
| Server.RequestRoundTrip | main.go:36-61 | a command sent as an array of bulk strings decodes unchanged, stopping at the end of its encoding, and runs the named handler on exactly the arguments sent |
| Server.RepliesAreWritten | main.go:61-62 | every handler reply has a tag the encoder writes, so exactly one non-empty reply goes out |
| Server.Handle | main.go:42-62 | nothing is written for a failed read or a dropped request; an unknown command gets `Value{typ: "string", str: ""}`; a known one gets its handler's reply, and only the handler changes the store |
| Server.RespondedCases | main.go:42-62 | a reply is written exactly for an unknown or a known command; only a run handler changes the store, and every step keeps every hash non-empty |

## Left out

- Networking: `net.Listen`, `Accept`, the connection and its lifetime (main.go:15-33) are socket I/O. The input is one byte sequence, and a reply is the value to write.
- The outer loop (main.go:34-35) is I/O. It builds a fresh `bufio.Reader` for every request, which can drop bytes already buffered. The model reads the input as one stream, and `Decide` returns `Stop` where the loop returns.
- `Writter.Write` (resp.go:245-267) only passes `Driver`'s bytes to the connection. The diagnostics printed with `fmt` (resp.go:108, main.go:38-57) are left out too.
- The locks `SETsmu` and `HSETsmu` (handler.go:12, 15) are concurrency only; the model is sequential. `hget` and `hgetall` take `SETsmu` instead of `HSETsmu`, which is a data race between handlers running in parallel and is not modelled.
- aof.go is not part of this model: it writes to a file from a goroutine, and `main.go` never calls it.
- Decoder.ParseBulk: the source reads the content with a single `bufio.Reader.Read`, which may return fewer bytes than asked and leave the rest of the buffer zero. The model takes exactly n bytes, and fails with end of input when fewer than n remain.
- Decoder.Resp.ReadBulk: same as `ParseBulk`.
- Decoder.ParseBulk: a negative bulk length makes the source panic in `make`. The model fails with `NegativeLength` instead; null bulk strings are not decoded.
- Decoder.ParseBulk: allocating a very large positive length can also fail in the source; the model has no memory limit.
- Integers on the wire: the `INTEGER` prefix and the `num` field (resp.go:24, 41) have no reader and no writer in the source, so the model has none either.
- Server.ToUpper, Server.Decide: `strings.ToUpper` is modelled on ASCII letters only. Go also maps a few non-ASCII letters to ASCII (U+017F to 'S', U+0131 to 'I') and replaces invalid UTF-8, so a name written with those letters can name a handler in the source but not in the model. Any other name behaves the same.
- Handlers.Store.HGetAll: Go walks a map in an unspecified order. The reply is specified by its contents, not its order.
- Go's `int` is taken to be 64 bits wide, so the `int(i64)` conversion in resp.go:90 changes nothing.
