/**
 * What the decoder makes of the encoder's output: every value built from
 * bulk strings and arrays reads back unchanged, consuming exactly its own
 * encoding; bulk content is taken raw (binary-safe); a simple string or
 * error is a single line; the null reply is a negative bulk length.
 */
module RoundTrip {
  import opened Wrappers
  import opened Values
  import opened Numbers
  import opened Decoder
  import opened Encoder

  /**
   * The values `Read` can produce with a tag the encoder writes: bulk strings
   * and arrays of them, nested, with the fields the tag does not use left
   * empty, and lengths that fit in a Go int.
   */
  predicate Decodable(v: Value)
    decreases v
  {
    && v.str == [] && v.num == 0
    && (|| (v.typ == BulkTyp && v.elements == [] && |v.bulk| <= MaxInt64)
        || (&& v.typ == ArrayTyp && v.bulk == [] && |v.elements| <= MaxInt64
            && forall i :: 0 <= i < |v.elements| ==> Decodable(v.elements[i])))
  }

  /** A decimal followed by CRLF is one line. */
  lemma DecimalLineAt(s: Bytes, pos: nat, n: nat)
    requires IsAt(s, pos, Decimal(n) + CRLF)
    ensures ParseLine(s, pos) == Step(Success(Decimal(n)), pos + |Decimal(n)| + 2)
  {
    var ds := Decimal(n);
    IsAtSplit(s, pos, ds, CRLF);
    assert NoCR(s, pos, pos + |ds|) by {
      forall j | pos <= j < pos + |ds| ensures s[j] != CR {
        assert s[j] == ds[j - pos];
        assert IsDigit(ds[j - pos]);
      }
    }
    ParseLineAt(s, pos, pos + |ds|);
  }

  /** A line holding `Decimal(n)` reads back as n. */
  lemma IntegerAt(s: Bytes, pos: nat, n: nat)
    requires n <= MaxInt64
    requires IsAt(s, pos, Decimal(n) + CRLF)
    ensures ParseInteger(s, pos) == Step(Success(n), pos + |Decimal(n)| + 2)
  {
    DecimalLineAt(s, pos, n);
    ParseDecimal(n);
  }

  /**
   * Binary safety of `readBulk`: after a length line n, the next n bytes are
   * the content whatever they are (CR and LF included), and then one line is
   * skipped.
   */
  lemma BulkAt(s: Bytes, pos: nat, content: Bytes)
    requires |content| <= MaxInt64
    requires IsAt(s, pos, Decimal(|content|) + CRLF + content)
    ensures var end := pos + |Decimal(|content|)| + 2 + |content|;
      ParseBulk(s, pos) == Step(Success(BulkString(content)), ParseLine(s, end).next)
  {
    var header := Decimal(|content|) + CRLF;
    var q := pos + |header|;
    assert ParseInteger(s, pos) == Step(Success(|content|), q) && IsAt(s, q, content) by {
      IsAtSplit(s, pos, header, content);
      IntegerAt(s, pos, |content|);
    }
    BulkFromParts(s, pos, q, content);
  }

  /** Round trip of one value: it reads back from its encoding, wherever that stands. */
  lemma {:induction false} ValueRoundTrip(v: Value, s: Bytes, pos: nat)
    requires Decodable(v)
    requires IsAt(s, pos, Driver(v))
    ensures ParseValue(s, pos) == Step(Success(v), pos + |Driver(v)|)
    decreases v, 2
  {
    if v.typ == BulkTyp {
      BulkRoundTrip(v, s, pos);
    } else {
      ArrayRoundTrip(v, s, pos);
    }
  }

  lemma BulkRoundTrip(v: Value, s: Bytes, pos: nat)
    requires Decodable(v) && v.typ == BulkTyp
    requires IsAt(s, pos, Driver(v))
    ensures ParseValue(s, pos) == Step(Success(v), pos + |Driver(v)|)
  {
    var end := pos + 1 + |Decimal(|v.bulk|)| + 2 + |v.bulk|;
    assert s[pos] == BulkTag && end + 2 == pos + |Driver(v)| by {
      BulkLayout(v, s, pos);
    }
    assert ParseBulk(s, pos + 1) == Step(Success(BulkString(v.bulk)), end + 2) by {
      BulkLayout(v, s, pos);
      BulkAt(s, pos + 1, v.bulk);
      ParseLineAt(s, end, end);
    }
    BulkPrefix(s, pos);
  }

  /** Where the parts of a bulk string's encoding stand. */
  lemma BulkLayout(v: Value, s: Bytes, pos: nat)
    requires v.typ == BulkTyp
    requires IsAt(s, pos, Driver(v))
    ensures var end := pos + 1 + |Decimal(|v.bulk|)| + 2 + |v.bulk|;
      && s[pos] == BulkTag
      && IsAt(s, pos + 1, Decimal(|v.bulk|) + CRLF + v.bulk)
      && end + 2 == pos + |Driver(v)|
      && end + 1 < |s| && s[end] == CR
  {
    var body := Decimal(|v.bulk|) + CRLF + v.bulk;
    assert Driver(v) == [BulkTag] + (body + CRLF);
    IsAtSplit(s, pos, [BulkTag], body + CRLF);
    IsAtSplit(s, pos + 1, body, CRLF);
  }

  lemma {:induction false} ArrayRoundTrip(v: Value, s: Bytes, pos: nat)
    requires Decodable(v) && v.typ == ArrayTyp
    requires IsAt(s, pos, Driver(v))
    ensures ParseValue(s, pos) == Step(Success(v), pos + |Driver(v)|)
    decreases v, 1
  {
    var n := |v.elements|;
    var first := pos + 1 + |Decimal(n)| + 2;
    assert ParseInteger(s, pos + 1).result == Success(n) && ParseInteger(s, pos + 1).next == first by {
      ArrayLayout(v, s, pos);
      IntegerAt(s, pos + 1, n);
    }
    assert ParseElements(s, first, n) == Step(Success(v.elements), pos + |Driver(v)|) by {
      ArrayLayout(v, s, pos);
      ElementsRoundTrip(v, v.elements, s, first);
    }
    assert s[pos] == ArrayTag by {
      ArrayLayout(v, s, pos);
    }
    ArrayFromParts(s, pos, v.elements, pos + |Driver(v)|);
  }

  /** Where the parts of an array's encoding stand. */
  lemma ArrayLayout(v: Value, s: Bytes, pos: nat)
    requires v.typ == ArrayTyp
    requires IsAt(s, pos, Driver(v))
    ensures var first := pos + 1 + |Decimal(|v.elements|)| + 2;
      && pos < |s| && s[pos] == ArrayTag
      && IsAt(s, pos + 1, Decimal(|v.elements|) + CRLF)
      && IsAt(s, first, DriveAll(v.elements))
      && first + |DriveAll(v.elements)| == pos + |Driver(v)|
  {
    var header := Decimal(|v.elements|) + CRLF;
    var body := DriveAll(v.elements);
    assert Driver(v) == [ArrayTag] + (header + body);
    IsAtSplit(s, pos, [ArrayTag], header + body);
    IsAtSplit(s, pos + 1, header, body);
  }

  /** Round trip of the elements of an array, `vs` being a suffix of `parent`'s. */
  lemma {:induction false} ElementsRoundTrip(parent: Value, vs: seq<Value>, s: Bytes, pos: nat)
    requires forall i :: 0 <= i < |vs| ==> Decodable(vs[i])
    requires forall i :: 0 <= i < |vs| ==> vs[i] < parent
    requires IsAt(s, pos, DriveAll(vs))
    ensures ParseElements(s, pos, |vs|) == Step(Success(vs), pos + |DriveAll(vs)|)
    decreases parent, 0, |vs|
  {
    if vs != [] {
      var head := Driver(vs[0]);
      var tail := DriveAll(vs[1..]);
      assert IsAt(s, pos, head) && IsAt(s, pos + |head|, tail) by {
        assert DriveAll(vs) == head + tail;
        IsAtSplit(s, pos, head, tail);
      }
      assert ParseValue(s, pos) == Step(Success(vs[0]), pos + |head|) by {
        ValueRoundTrip(vs[0], s, pos);
      }
      assert ParseElements(s, pos + |head|, |vs| - 1) == Step(Success(vs[1..]), pos + |head| + |tail|) by {
        ElementsRoundTrip(parent, vs[1..], s, pos + |head|);
      }
      ElementsCons(s, pos, vs, pos + |head|, pos + |head| + |tail|);
    }
  }

  /**
   * `Read(Driver(v))` gives v back without error and stops exactly at the
   * end of the encoding: whatever follows is left for the next read.
   */
  lemma ReadDriverRoundTrip(v: Value, rest: Bytes)
    requires Decodable(v)
    ensures ParseValue(Driver(v) + rest, 0) == Step(Success(v), |Driver(v)|)
  {
    assert (Driver(v) + rest)[0..|Driver(v)|] == Driver(v);
    ValueRoundTrip(v, Driver(v) + rest, 0);
  }

  /**
   * A simple string or an error without a '\r' in its text is one line:
   * `readLine` after the tag byte gives the text back and consumes the rest.
   */
  lemma SimpleLineRoundTrip(v: Value)
    requires v.typ == StringTyp || v.typ == ErrorTyp
    requires forall i :: 0 <= i < |v.str| ==> v.str[i] != CR
    ensures |Driver(v)| == |v.str| + 3
    ensures ParseLine(Driver(v), 1) == Step(Success(v.str), |Driver(v)|)
  {
    var b := Driver(v);
    assert b[1..|v.str| + 1] == v.str;
    assert NoCR(b, 1, |v.str| + 1) by {
      forall j | 1 <= j < |v.str| + 1 ensures b[j] != CR {
        assert b[j] == v.str[j - 1];
      }
    }
    ParseLineAt(b, 1, |v.str| + 1);
  }

  /**
   * The null reply, fed back to the decoder, is a bulk string of length -1,
   * which the source's `readBulk` cannot allocate.
   */
  lemma NullReplyIsNegativeLength()
    ensures |Driver(Null)| == 5
    ensures ParseValue(Driver(Null), 0) == Step(Failure(NegativeLength), 5)
  {
    var b := Driver(Null);
    assert b[1..3] == [Minus, Zero + 1];
    ParseLineAt(b, 1, 3);
    assert ParseInt64([Minus, Zero + 1]) == Some(-1) by {
      ParseNegativeDecimal(1);
      assert [Minus] + Decimal(1) == [Minus, Zero + 1];
    }
  }
}
