/**
 * The RESP encoder of resp.go: `Driver` and its helpers turn a `Value` into
 * the bytes written to the connection. The functions are the specification;
 * `Encode` is the source's loop-based construction, proved equal to them.
 */
module Encoder {
  import opened Values
  import opened Numbers

  /** The tags the encoder knows; the untyped zero value encodes to nothing. */
  predicate KnownTag(typ: Typ)
  {
    typ != NoTyp
  }

  /** `Value.Driver`: the wire form of a value, chosen by its tag. */
  function Driver(v: Value): Bytes
    decreases v, 1
  {
    if v.typ == ArrayTyp then ArrayDriver(v)
    else if v.typ == BulkTyp then BulkDriver(v)
    else if v.typ == StringTyp then StringDriver(v)
    else if v.typ == NullTyp then NullDriver()
    else if v.typ == ErrorTyp then ErrorDriver(v)
    else []
  }

  /** `stringDriver`: '+', the text, CRLF. */
  function StringDriver(v: Value): Bytes
  {
    [StringTag] + v.str + CRLF
  }

  /** `bulkDriver`: '$', the decimal byte length, CRLF, the raw bytes, CRLF. */
  function BulkDriver(v: Value): Bytes
  {
    [BulkTag] + Decimal(|v.bulk|) + CRLF + v.bulk + CRLF
  }

  /** `arrayDriver`: '*', the decimal element count, CRLF, then every element's encoding in order. */
  function ArrayDriver(v: Value): Bytes
    decreases v, 0
  {
    [ArrayTag] + Decimal(|v.elements|) + CRLF + DriveAll(v.elements)
  }

  /** The encodings of `vs`, concatenated in order. */
  function DriveAll(vs: seq<Value>): Bytes
    decreases vs
  {
    if vs == [] then [] else Driver(vs[0]) + DriveAll(vs[1..])
  }

  /** `nullDriver`: the five bytes "$-1\r\n". */
  function NullDriver(): Bytes
  {
    [BulkTag, Minus, Zero + 1, CR, LF]
  }

  /** `errorDriver`: '-', the text, CRLF. */
  function ErrorDriver(v: Value): Bytes
  {
    [ErrorTag] + v.str + CRLF
  }

  /**
   * The first byte of an encoding is its type prefix, and only a value with
   * no tag (the zero value's "") encodes to nothing.
   */
  lemma DriverPrefix(v: Value)
    ensures Driver(v) == [] <==> !KnownTag(v.typ)
    ensures v.typ == ArrayTyp ==> Driver(v)[0] == ArrayTag
    ensures v.typ == BulkTyp || v.typ == NullTyp ==> Driver(v)[0] == BulkTag
    ensures v.typ == StringTyp ==> Driver(v)[0] == StringTag
    ensures v.typ == ErrorTyp ==> Driver(v)[0] == ErrorTag
  {
  }

  lemma {:induction false} DriveAllAppend(vs: seq<Value>, v: Value)
    ensures DriveAll(vs + [v]) == DriveAll(vs) + Driver(v)
    decreases |vs|
  {
    if vs == [] {
      assert [] + [v] == [v];
    } else {
      assert (vs + [v])[1..] == vs[1..] + [v];
      DriveAllAppend(vs[1..], v);
    }
  }

  /**
   * `Driver` as the source computes it: a switch on the tag, and for an
   * array a loop appending each element's encoding.
   */
  method Encode(v: Value) returns (bytes: Bytes)
    ensures bytes == Driver(v)
    decreases v
  {
    if v.typ == ArrayTyp {
      bytes := [ArrayTag] + Decimal(|v.elements|) + CRLF;
      var i := 0;
      while i < |v.elements|
        invariant 0 <= i <= |v.elements|
        invariant bytes == [ArrayTag] + Decimal(|v.elements|) + CRLF + DriveAll(v.elements[..i])
      {
        var element := Encode(v.elements[i]);
        DriveAllAppend(v.elements[..i], v.elements[i]);
        assert v.elements[..i + 1] == v.elements[..i] + [v.elements[i]];
        bytes := bytes + element;
        i := i + 1;
      }
      assert v.elements[..i] == v.elements;
    } else if v.typ == BulkTyp {
      bytes := BulkDriver(v);
    } else if v.typ == StringTyp {
      bytes := StringDriver(v);
    } else if v.typ == NullTyp {
      bytes := NullDriver();
    } else if v.typ == ErrorTyp {
      bytes := ErrorDriver(v);
    } else {
      bytes := [];
    }
  }
}
