/**
 * The RESP value model of resp.go: bytes, the type-prefix constants and the
 * `Value` record that the codec, the handlers and the dispatch step exchange.
 */
module Values {

  /** A Go byte; Go strings are byte sequences, so `str` and `bulk` are `Bytes`. */
  newtype byte = b: int | 0 <= b < 256

  type Bytes = seq<byte>

  const CR: byte := 13
  const LF: byte := 10
  const CRLF: Bytes := [CR, LF]

  // The type prefixes of the wire format.
  const StringTag: byte := 43   // '+'
  const ErrorTag: byte := 45    // '-'
  const IntegerTag: byte := 58  // ':' (declared by the source, never read or written)
  const BulkTag: byte := 36     // '$'
  const ArrayTag: byte := 42    // '*'

  /** The bytes of an ASCII literal. */
  function Ascii(s: string): Bytes
  {
    seq(|s|, i requires 0 <= i < |s| => (s[i] as int % 256) as byte)
  }

  /**
   * The `typ` tag of a value. The source keeps it as a Go string but only
   * ever stores one of "array", "bulk", "string", "null", "error", or leaves
   * it as the zero value "" (`NoTyp`).
   */
  datatype Typ = NoTyp | ArrayTyp | BulkTyp | StringTyp | NullTyp | ErrorTyp

  /**
   * A Redis protocol value. As in the source, every field is present
   * whatever the tag says. The source's field
   * `array` is called `elements` here (`array` is a Dafny keyword).
   */
  datatype Value = Value(typ: Typ, str: Bytes, num: int, bulk: Bytes, elements: seq<Value>)

  /** `Value{}`: the untyped zero value. */
  const Empty: Value := Value(NoTyp, [], 0, [], [])

  /** `Value{typ: "null"}`. */
  const Null: Value := Value(NullTyp, [], 0, [], [])

  /** `Value{typ: "string", str: s}`. */
  function SimpleString(s: Bytes): Value
  {
    Value(StringTyp, s, 0, [], [])
  }

  /** `Value{typ: "error", str: s}`. */
  function ErrorReply(s: Bytes): Value
  {
    Value(ErrorTyp, s, 0, [], [])
  }

  /** `Value{typ: "bulk", bulk: b}`. */
  function BulkString(b: Bytes): Value
  {
    Value(BulkTyp, [], 0, b, [])
  }

  /** `Value{typ: "array", array: vs}`. */
  function ArrayOf(vs: seq<Value>): Value
  {
    Value(ArrayTyp, [], 0, [], vs)
  }

  /** `t` occurs in `s` starting at index `pos`. */
  predicate IsAt(s: Bytes, pos: nat, t: Bytes)
  {
    pos + |t| <= |s| && s[pos..pos + |t|] == t
  }

  lemma IsAtSplit(s: Bytes, pos: nat, a: Bytes, b: Bytes)
    requires IsAt(s, pos, a + b)
    ensures IsAt(s, pos, a) && IsAt(s, pos + |a|, b)
  {
    assert s[pos..pos + |a|] == (a + b)[..|a|];
    assert s[pos + |a|..pos + |a| + |b|] == (a + b)[|a|..];
  }
}
