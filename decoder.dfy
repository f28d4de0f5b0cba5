/**
 * The RESP decoder of resp.go. The spec functions below read a value out of
 * a byte sequence starting at a position and give the result together with
 * the position the reader is left at (also when reading fails). The class
 * `Resp` is the source's reader: a cursor into the input whose methods
 * consume bytes one by one as `readLine`, `readInteger`, `Read`,
 * `readArray` and `readBulk` do, each proved to agree with its spec function.
 */
module Decoder {
  import opened Wrappers
  import opened Values
  import opened Numbers

  /**
   * Why a read failed: the input ended (io.EOF), a length line is not a
   * 64-bit decimal (strconv error), or a bulk length is negative (the
   * source panics in `make`).
   */
  datatype DecodeError = EndOfInput | BadInteger | NegativeLength

  /** The outcome of a read and the position the reader is left at. */
  datatype Step<T> = Step(result: Result<T, DecodeError>, next: nat)

  /** No carriage return at any index in [from, to). */
  predicate NoCR(s: Bytes, from: int, to: int)
    requires 0 <= from
    requires to <= |s|
  {
    forall j :: from <= j < to ==> s[j] != CR
  }

  /**
   * `readLine`: the bytes before the first '\r' at or after `pos`; the '\r'
   * and the byte after it, whatever it is, are consumed too. When the input
   * ends first, everything is consumed and the read fails.
   */
  function ParseLine(s: Bytes, pos: nat): (st: Step<Bytes>)
    requires pos <= |s|
    ensures pos <= st.next <= |s|
    ensures st.result.Success? ==> pos + 2 <= st.next
    decreases |s| - pos
  {
    if pos == |s| then Step(Failure(EndOfInput), |s|)
    else if s[pos] == CR then
      if pos + 1 < |s| then Step(Success([]), pos + 2) else Step(Failure(EndOfInput), |s|)
    else
      var rest := ParseLine(s, pos + 1);
      match rest.result
      case Success(line) => Step(Success([s[pos]] + line), rest.next)
      case Failure(_) => rest
  }

  /**
   * What `readLine` gives: on success, the bytes up to a '\r' that has a
   * byte after it and that is the first '\r' from `pos`, with both consumed;
   * on failure, no such '\r' exists and the whole input is consumed.
   */
  lemma {:induction false} ParseLineResult(s: Bytes, pos: nat)
    requires pos <= |s|
    ensures var st := ParseLine(s, pos);
      && (st.result.Success? ==>
        && s[st.next - 2] == CR
        && NoCR(s, pos, st.next - 2)
        && st.result.value == s[pos..st.next - 2])
      && (st.result.Failure? ==>
        && st == Step(Failure(EndOfInput), |s|)
        && NoCR(s, pos, |s| - 1))
    decreases |s| - pos
  {
    if pos < |s| && s[pos] != CR {
      ParseLineResult(s, pos + 1);
      var rest := ParseLine(s, pos + 1);
      if rest.result.Success? {
        assert [s[pos]] + s[pos + 1..rest.next - 2] == s[pos..rest.next - 2];
      }
    }
  }

  /** A line ends at the first '\r' that has a byte after it. */
  lemma ParseLineAt(s: Bytes, pos: nat, cr: nat)
    requires pos <= cr && cr + 1 < |s|
    requires s[cr] == CR && NoCR(s, pos, cr)
    ensures ParseLine(s, pos) == Step(Success(s[pos..cr]), cr + 2)
  {
    ParseLineResult(s, pos);
  }

  /** Without a '\r' that has a byte after it, reading a line fails at the end of the input. */
  lemma ParseLineFails(s: Bytes, pos: nat)
    requires pos <= |s| && NoCR(s, pos, |s| - 1)
    ensures ParseLine(s, pos) == Step(Failure(EndOfInput), |s|)
  {
    ParseLineResult(s, pos);
  }

  /** `readInteger`: a line holding a signed 64-bit decimal. */
  function ParseInteger(s: Bytes, pos: nat): (st: Step<int>)
    requires pos <= |s|
    ensures pos <= st.next <= |s|
    ensures st.result.Success? ==> pos + 2 <= st.next && MinInt64 <= st.result.value <= MaxInt64
  {
    var line := ParseLine(s, pos);
    match line.result
    case Failure(e) => Step(Failure(e), line.next)
    case Success(text) =>
      match ParseInt64(text)
      case None => Step(Failure(BadInteger), line.next)
      case Some(x) => Step(Success(x), line.next)
  }

  /**
   * What `readInteger` gives: it succeeds exactly when a line is read that
   * is a signed decimal fitting in 64 bits, and returns its value; a line
   * that is not one fails with `BadInteger`, and the reader is left after
   * the line in every case.
   */
  lemma ParseIntegerResult(s: Bytes, pos: nat)
    requires pos <= |s|
    ensures var st, line := ParseInteger(s, pos), ParseLine(s, pos);
      && st.next == line.next
      && (st.result.Success? <==>
        && line.result.Success?
        && IsSignedDecimal(line.result.value)
        && MinInt64 <= SignedValue(line.result.value) <= MaxInt64)
      && (st.result.Success? ==> st.result.value == SignedValue(line.result.value))
      && (line.result.Success? && st.result.Failure? ==> st.result.error == BadInteger)
  {
    var line := ParseLine(s, pos);
    if line.result.Success? {
      ParseInt64Exact(line.result.value);
    }
  }

  /**
   * `Read`: one value, chosen by its prefix byte. '*' reads an array and '$'
   * a bulk string; any other byte gives the untyped zero value and consumes
   * only that byte.
   */
  function ParseValue(s: Bytes, pos: nat): (st: Step<Value>)
    requires pos <= |s|
    ensures pos <= st.next <= |s|
    ensures st.result.Success? ==> pos < st.next
    decreases |s| - pos, 0
  {
    if pos == |s| then Step(Failure(EndOfInput), pos)
    else if s[pos] == ArrayTag then ParseArray(s, pos + 1)
    else if s[pos] == BulkTag then ParseBulk(s, pos + 1)
    else Step(Success(Empty), pos + 1)
  }

  /**
   * End of input before the prefix byte is an error; a prefix other than
   * '*' and '$' gives the zero value, no error, and consumes only itself.
   */
  lemma ValueOtherPrefix(s: Bytes, pos: nat)
    requires pos <= |s|
    ensures pos == |s| ==> ParseValue(s, pos) == Step(Failure(EndOfInput), pos)
    ensures pos < |s| && s[pos] != ArrayTag && s[pos] != BulkTag ==>
      ParseValue(s, pos) == Step(Success(Empty), pos + 1)
  {
  }

  /**
   * `readArray` after the '*': a length line, then that many values in
   * order; a negative length gives an empty array.
   */
  function ParseArray(s: Bytes, pos: nat): (st: Step<Value>)
    requires pos <= |s|
    ensures pos <= st.next <= |s|
    ensures st.result.Success? ==>
      && pos < st.next
      && ParseInteger(s, pos).result.Success?
      && st.result.value == ArrayOf(st.result.value.elements)
      && |st.result.value.elements| == Count(ParseInteger(s, pos).result.value)
    decreases |s| - pos, 2
  {
    var len := ParseInteger(s, pos);
    match len.result
    case Failure(e) => Step(Failure(e), len.next)
    case Success(n) =>
      AsArray(ParseElements(s, len.next, n))
  }

  /** The array value made of the elements read, or the failure that ended the loop. */
  function AsArray(elements: Step<seq<Value>>): Step<Value>
  {
    match elements.result
    case Failure(e) => Step(Failure(e), elements.next)
    case Success(vs) => Step(Success(ArrayOf(vs)), elements.next)
  }

  /** The number of elements a length line announces: a negative length means none. */
  function Count(n: int): nat
  {
    if n < 0 then 0 else n
  }

  /**
   * The element loop of `readArray`: `count` values one after the other;
   * the first failure ends the read.
   */
  function ParseElements(s: Bytes, pos: nat, count: int): (st: Step<seq<Value>>)
    requires pos <= |s|
    ensures pos <= st.next <= |s|
    ensures st.result.Success? ==> |st.result.value| == Count(count)
    decreases |s| - pos, 1
  {
    if count <= 0 then Step(Success([]), pos)
    else
      var first := ParseValue(s, pos);
      match first.result
      case Failure(e) => Step(Failure(e), first.next)
      case Success(v) =>
        var rest := ParseElements(s, first.next, count - 1);
        match rest.result
        case Failure(e) => Step(Failure(e), rest.next)
        case Success(vs) => Step(Success([v] + vs), rest.next)
  }

  /**
   * An error from any element aborts the whole loop: when the first read
   * fails, the loop fails with that error there, and when it succeeds the
   * loop fails exactly when the rest of it does, with the same error and
   * position.
   */
  lemma ElementsAbort(s: Bytes, pos: nat, count: int)
    requires pos <= |s| && count > 0
    ensures var first := ParseValue(s, pos);
      first.result.Failure? ==>
        ParseElements(s, pos, count) == Step(Failure(first.result.error), first.next)
    ensures var first := ParseValue(s, pos);
      first.result.Success? && ParseElements(s, first.next, count - 1).result.Failure? ==>
        ParseElements(s, pos, count) == ParseElements(s, first.next, count - 1)
  {
  }

  /**
   * `readBulk` after the '$': a length line, then exactly that many raw
   * bytes, then one more line whose content is discarded (if the input ends
   * within it, the rest of the input is consumed and the read still
   * succeeds, as the source ignores that error).
   */
  function ParseBulk(s: Bytes, pos: nat): (st: Step<Value>)
    requires pos <= |s|
    ensures pos <= st.next <= |s|
    ensures st.result.Success? ==> pos < st.next && st.result.value == BulkString(st.result.value.bulk)
  {
    var len := ParseInteger(s, pos);
    match len.result
    case Failure(e) => Step(Failure(e), len.next)
    case Success(n) =>
      if n < 0 then Step(Failure(NegativeLength), len.next)
      else if len.next + n > |s| then Step(Failure(EndOfInput), |s|)
      else
        var trailer := ParseLine(s, len.next + n);
        Step(Success(BulkString(s[len.next..len.next + n])), trailer.next)
  }

  /** A bulk string read from its length line and the bytes that follow it. */
  lemma BulkFromParts(s: Bytes, pos: nat, q: nat, content: Bytes)
    requires pos <= |s|
    requires ParseInteger(s, pos) == Step(Success(|content|), q)
    requires IsAt(s, q, content)
    ensures ParseBulk(s, pos) == Step(Success(BulkString(content)), ParseLine(s, q + |content|).next)
  {
    assert s[q..q + |content|] == content;
  }

  /** The elements read so far, put in front of what the rest of the loop reads. */
  function Prepend(done: seq<Value>, rest: Step<seq<Value>>): Step<seq<Value>>
  {
    match rest.result
    case Failure(e) => rest
    case Success(vs) => Step(Success(done + vs), rest.next)
  }

  lemma PrependNothing(rest: Step<seq<Value>>)
    ensures Prepend([], rest) == rest
  {
    if rest.result.Success? {
      assert [] + rest.result.value == rest.result.value;
    }
  }

  /** One turn of the element loop: the value read is added to those read before. */
  lemma PrependStep(s: Bytes, pos: nat, count: int, done: seq<Value>)
    requires pos <= |s| && count > 0
    ensures var first := ParseValue(s, pos);
      first.result.Success? ==>
        Prepend(done, ParseElements(s, pos, count))
        == Prepend(done + [first.result.value], ParseElements(s, first.next, count - 1))
  {
    var first := ParseValue(s, pos);
    if first.result.Success? {
      var rest := ParseElements(s, first.next, count - 1);
      if rest.result.Success? {
        assert done + ([first.result.value] + rest.result.value) == done + [first.result.value] + rest.result.value;
      }
    }
  }

  /** The element loop when its first value and the remaining ones are all read. */
  lemma ElementsCons(s: Bytes, pos: nat, vs: seq<Value>, mid: nat, end: nat)
    requires pos <= |s| && vs != []
    requires ParseValue(s, pos) == Step(Success(vs[0]), mid)
    requires mid <= |s| && ParseElements(s, mid, |vs| - 1) == Step(Success(vs[1..]), end)
    ensures ParseElements(s, pos, |vs|) == Step(Success(vs), end)
  {
    assert [vs[0]] + vs[1..] == vs;
  }

  /** A '$' prefix hands the rest to `readBulk`. */
  lemma BulkPrefix(s: Bytes, pos: nat)
    requires pos < |s| && s[pos] == BulkTag
    ensures ParseValue(s, pos) == ParseBulk(s, pos + 1)
  {
  }

  /** An array read from its length line and its elements. */
  lemma ArrayFromParts(s: Bytes, pos: nat, elements: seq<Value>, end: nat)
    requires pos < |s| && s[pos] == ArrayTag
    requires ParseInteger(s, pos + 1).result == Success(|elements|)
    requires ParseElements(s, ParseInteger(s, pos + 1).next, |elements|) == Step(Success(elements), end)
    ensures ParseValue(s, pos) == Step(Success(ArrayOf(elements)), end)
  {
  }

  /**
   * How `readArray` ends once its length line `n` is read: a length of zero
   * or less gives the empty array right after the line, and a failing
   * element makes the whole read fail with that element's error.
   */
  lemma ArrayResult(s: Bytes, pos: nat)
    requires pos <= |s| && ParseInteger(s, pos).result.Success?
    ensures var len := ParseInteger(s, pos);
      len.result.value <= 0 ==> ParseArray(s, pos) == Step(Success(ArrayOf([])), len.next)
    ensures var len := ParseInteger(s, pos);
      var elements := ParseElements(s, len.next, len.result.value);
      elements.result.Failure? ==> ParseArray(s, pos) == Step(Failure(elements.result.error), elements.next)
  {
  }

  /** The source's `Resp`: a reader positioned in its input. */
  class Resp {
    /** Everything the connection delivers, as one byte sequence. */
    const input: Bytes
    /** How many bytes have been consumed. */
    var pos: nat

    ghost predicate Valid()
      reads this
    {
      pos <= |input|
    }

    /** `NewResp`. */
    constructor (input: Bytes)
      ensures Valid() && this.input == input && pos == 0
    {
      this.input := input;
      pos := 0;
    }

    /** `bufio.Reader.ReadByte`. */
    method ReadByte() returns (r: Result<byte, DecodeError>)
      requires Valid()
      modifies this
      ensures Valid()
      ensures old(pos) < |input| ==> r == Success(input[old(pos)]) && pos == old(pos) + 1
      ensures old(pos) == |input| ==> r == Failure(EndOfInput) && pos == old(pos)
    {
      if pos == |input| {
        return Failure(EndOfInput);
      }
      r := Success(input[pos]);
      pos := pos + 1;
    }

    /** `readLine`, byte by byte; `n` is the number of bytes consumed (0 on failure). */
    method ReadLine() returns (r: Result<Bytes, DecodeError>, n: nat)
      requires Valid()
      modifies this
      ensures Valid()
      ensures Step(r, pos) == ParseLine(input, old(pos))
      ensures n == if r.Success? then |r.value| + 2 else 0
    {
      ghost var start := pos;
      var line: Bytes := [];
      n := 0;
      while true
        invariant Valid() && start <= pos
        invariant line == input[start..pos] && n == |line|
        invariant NoCR(input, start, pos - 1)
        decreases |input| - pos
      {
        var b := ReadByte();
        if b.Failure? {
          ParseLineFails(input, start);
          return Failure(b.error), 0;
        }
        n := n + 1;
        line := line + [b.value];
        if |line| >= 2 && line[|line| - 2] == CR {
          break;
        }
      }
      assert line[..|line| - 2] == input[start..pos - 2];
      ParseLineAt(input, start, pos - 2);
      r := Success(line[..|line| - 2]);
    }

    /** `readInteger`; `n` is the number of bytes of the line (0 if the input ended). */
    method ReadInteger() returns (r: Result<int, DecodeError>, n: nat)
      requires Valid()
      modifies this
      ensures Valid()
      ensures Step(r, pos) == ParseInteger(input, old(pos))
      ensures n == if r.Failure? && r.error != BadInteger then 0 else pos - old(pos)
    {
      ghost var start := pos;
      var line;
      line, n := ReadLine();
      ParseLineResult(input, start);
      if line.Failure? {
        return Failure(line.error), 0;
      }
      var x := ParseInt64(line.value);
      if x.None? {
        return Failure(BadInteger), n;
      }
      r := Success(x.value);
    }

    /** `Read`. */
    method Read() returns (r: Result<Value, DecodeError>)
      requires Valid()
      modifies this
      ensures Valid()
      ensures Step(r, pos) == ParseValue(input, old(pos))
      decreases |input| - pos, 1
    {
      var b := ReadByte();
      if b.Failure? {
        return Failure(b.error);
      }
      if b.value == ArrayTag {
        assert ParseValue(input, old(pos)) == ParseArray(input, pos);
        r := ReadArray();
      } else if b.value == BulkTag {
        assert ParseValue(input, old(pos)) == ParseBulk(input, pos);
        r := ReadBulk();
      } else {
        r := Success(Empty);
      }
    }

    /** `readArray`: the length, then a loop reading that many values. */
    method ReadArray() returns (r: Result<Value, DecodeError>)
      requires Valid()
      modifies this
      ensures Valid()
      ensures Step(r, pos) == ParseArray(input, old(pos))
      decreases |input| - pos, 0
    {
      ghost var start := pos;
      var len, _ := ReadInteger();
      if len.Failure? {
        return Failure(len.error);
      }
      ghost var first := pos;
      ghost var target := ParseElements(input, first, len.value);
      assert ParseArray(input, start) == AsArray(target);
      var elements: seq<Value> := [];
      var i := 0;
      PrependNothing(target);
      assert target == Prepend(elements, ParseElements(input, pos, len.value - i));
      while i < len.value
        invariant Valid() && start < first <= pos
        invariant 0 <= i && (len.value >= 0 ==> i <= len.value)
        invariant target == Prepend(elements, ParseElements(input, pos, len.value - i))
        decreases len.value - i
      {
        ghost var before := pos;
        var val := Read();
        if val.Failure? {
          assert target == Step(Failure(val.error), pos);
          return Failure(val.error);
        }
        PrependStep(input, before, len.value - i, elements);
        elements := elements + [val.value];
        i := i + 1;
      }
      assert elements + [] == elements;
      assert target == Step(Success(elements), pos);
      r := Success(ArrayOf(elements));
    }

    /** `readBulk`: the length, exactly that many bytes, then the terminator line. */
    method ReadBulk() returns (r: Result<Value, DecodeError>)
      requires Valid()
      modifies this
      ensures Valid()
      ensures Step(r, pos) == ParseBulk(input, old(pos))
    {
      var len, _ := ReadInteger();
      if len.Failure? {
        return Failure(len.error);
      }
      if len.value < 0 {
        return Failure(NegativeLength);
      }
      if pos + len.value > |input| {
        pos := |input|;
        return Failure(EndOfInput);
      }
      var bulk := input[pos..pos + len.value];
      pos := pos + len.value;
      var _, _ := ReadLine();
      r := Success(BulkString(bulk));
    }
  }
}
