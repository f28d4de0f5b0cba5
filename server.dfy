/**
 * The per-request step of main.go: a value read from the connection is
 * either the end of the session (the read failed), dropped (not a command
 * array), answered with an empty simple string (unknown command), or
 * handed to the handler its upper-cased first element names, with the
 * remaining elements as arguments.
 */
module Server {
  import opened Wrappers
  import opened Values
  import opened Numbers
  import opened Decoder
  import opened Encoder
  import opened RoundTrip
  import opened Handlers

  /** One byte upper-cased: ASCII letters a-z become A-Z, every other byte is kept. */
  function UpperByte(b: byte): byte
  {
    if 97 <= b <= 122 then b - 32 else b
  }

  /** `strings.ToUpper`, on ASCII letters. */
  function ToUpper(s: Bytes): Bytes
  {
    seq(|s|, i requires 0 <= i < |s| => UpperByte(s[i]))
  }

  /** What the loop does with the outcome of one `Read`. */
  datatype Decision =
    | Stop                                  // the read failed: the session ends
    | Drop                                  // not a command: nothing is written
    | Unknown                               // no such handler: an empty simple string is written
    | Run(cmd: Command, args: seq<Value>)   // the handler's reply is written

  /** The reply to an unknown command: `Value{typ: "string", str: ""}`. */
  const UnknownReply: Value := SimpleString([])

  /** The decision of main.go's loop body for the outcome of one read. */
  function Decide(read: Result<Value, DecodeError>): Decision
  {
    match read
    case Failure(_) => Stop
    case Success(v) =>
      if v.typ != ArrayTyp || |v.elements| == 0 then Drop
      else
        match Lookup(ToUpper(v.elements[0].bulk))
        case None => Unknown
        case Some(c) => Run(c, v.elements[1..])
  }

  /**
   * The cases of the decision: only a failed read ends the session; a value
   * that is not an array, or an empty array, is dropped; otherwise the
   * upper-cased bulk of the first element either names no handler or names
   * the one that runs, and that handler gets the other elements in order.
   */
  lemma DecideCases(read: Result<Value, DecodeError>)
    ensures Decide(read) == Stop <==> read.Failure?
    ensures Decide(read) == Drop <==>
      read.Success? && (read.value.typ != ArrayTyp || read.value.elements == [])
    ensures Decide(read) == Unknown <==>
      && read.Success? && read.value.typ == ArrayTyp && read.value.elements != []
      && forall c: Command :: Name(c) != ToUpper(read.value.elements[0].bulk)
    ensures Decide(read).Run? ==>
      && read.Success? && read.value.typ == ArrayTyp && read.value.elements != []
      && Name(Decide(read).cmd) == ToUpper(read.value.elements[0].bulk)
      && Decide(read).args == read.value.elements[1..]
  {
    if read.Success? && read.value.typ == ArrayTyp && read.value.elements != [] {
      var r := Lookup(ToUpper(read.value.elements[0].bulk));
      if r.Some? {
        assert Name(r.value) == ToUpper(read.value.elements[0].bulk);
      }
    }
  }

  /**
   * Command names are case-insensitive: any spelling whose upper-case form
   * is a table key runs that handler on the elements after the name.
   */
  lemma DispatchAnyCase(name: Bytes, args: seq<Value>, c: Command)
    requires ToUpper(name) == Name(c)
    ensures Decide(Success(ArrayOf([BulkString(name)] + args))) == Run(c, args)
  {
    LookupName(c);
    assert ([BulkString(name)] + args)[1..] == args;
  }

  /** A null array, `*-1\r\n`, is read as an empty array, which the step drops without ending the session. */
  lemma NullArrayDropped(rest: Bytes)
    ensures var s := [ArrayTag, Minus, Zero + 1, CR, LF] + rest;
      && ParseValue(s, 0) == Step(Success(ArrayOf([])), 5)
      && Decide(ParseValue(s, 0).result) == Drop
  {
    var s := [ArrayTag, Minus, Zero + 1, CR, LF] + rest;
    assert ParseInteger(s, 1) == Step(Success(-1), 5) by {
      ParseLineAt(s, 1, 3);
      assert s[1..3] == [Minus] + Decimal(1);
      ParseNegativeDecimal(1);
    }
    ArrayResult(s, 1);
  }

  /**
   * Upper-casing keeps the length, turns each of a-z into the matching
   * capital, and keeps every other byte.
   */
  lemma ToUpperAscii(s: Bytes)
    ensures |ToUpper(s)| == |s|
    ensures forall i :: 0 <= i < |s| && 97 <= s[i] <= 122 ==> ToUpper(s)[i] == s[i] - 32
    ensures forall i :: 0 <= i < |s| && !(97 <= s[i] <= 122) ==> ToUpper(s)[i] == s[i]
  {
  }

  /**
   * A command sent by a client as an array of bulk strings reads back
   * unchanged from its encoding, and the step runs the named handler on
   * exactly the arguments sent, whatever the case of the name.
   */
  lemma RequestRoundTrip(name: Bytes, args: seq<Bytes>, c: Command, rest: Bytes)
    requires ToUpper(name) == Name(c)
    requires |name| <= MaxInt64 && |args| < MaxInt64
    requires forall i :: 0 <= i < |args| ==> |args[i]| <= MaxInt64
    ensures var values := seq(|args|, i requires 0 <= i < |args| => BulkString(args[i]));
      var request := ArrayOf([BulkString(name)] + values);
      && ParseValue(Driver(request) + rest, 0) == Step(Success(request), |Driver(request)|)
      && Decide(Success(request)) == Run(c, values)
  {
    var values := seq(|args|, i requires 0 <= i < |args| => BulkString(args[i]));
    var request := ArrayOf([BulkString(name)] + values);
    assert Decodable(request) by {
      forall i | 0 <= i < |request.elements|
        ensures Decodable(request.elements[i])
      {
        if i > 0 {
          assert request.elements[i] == BulkString(args[i - 1]);
        }
      }
    }
    ReadDriverRoundTrip(request, rest);
    DispatchAnyCase(name, values, c);
  }

  /** Every handler reply has a tag the encoder writes, so every command gets a reply on the wire. */
  lemma RepliesAreWritten(c: Command, args: seq<Value>, before: Db, after: Db, reply: Value)
    requires Handled(c, args, before, after, reply)
    ensures KnownTag(reply.typ)
    ensures Driver(reply) != []
  {
    DriverPrefix(reply);
  }

  /**
   * One step of the loop as it acts on the store: what `Handle` must do
   * for decision `d`, the store going from `before` to `after`.
   */
  predicate Responded(d: Decision, before: Db, after: Db, reply: Option<Value>)
  {
    match d
    case Stop => after == before && reply == None
    case Drop => after == before && reply == None
    case Unknown => after == before && reply == Some(UnknownReply)
    case Run(c, args) => reply.Some? && Handled(c, args, before, after, reply.value)
  }

  /**
   * The loop body of main.go after the read: decide, run the handler if
   * there is one, and give back the value to write, if any.
   */
  method Handle(store: Store, read: Result<Value, DecodeError>) returns (reply: Option<Value>)
    modifies store
    ensures Responded(Decide(read), old(store.State()), store.State(), reply)
  {
    match Decide(read)
    case Stop => reply := None;
    case Drop => reply := None;
    case Unknown => reply := Some(UnknownReply);
    case Run(c, args) =>
      var r := store.Execute(c, args);
      reply := Some(r);
  }

  /** A step writes one reply exactly when a command array came in, and only a handler changes the store. */
  lemma RespondedCases(d: Decision, before: Db, after: Db, reply: Option<Value>)
    requires Responded(d, before, after, reply)
    ensures reply.Some? <==> d.Unknown? || d.Run?
    ensures !d.Run? ==> after == before
    ensures WellFormed(before) ==> WellFormed(after)
  {
    if d.Run? && WellFormed(before) {
      HandledKeepsWellFormed(d.cmd, d.args, before, after, reply.value);
    }
  }
}
