/**
 * The command handlers of handler.go over the in-memory store: a map of
 * strings (`SETs`) and a map of hashes (`HSETs`). `Handled` is the
 * specification of every handler, over snapshots of the store; the class
 * `Store` holds the two maps and updates them in place as the source does.
 */
module Handlers {
  import opened Wrappers
  import opened Values

  /** The entries of the `Handlers` table. */
  datatype Command = Ping | Set | Get | HSet | HGet | HGetAll

  /** The key of a command in the `Handlers` table. */
  function Name(c: Command): Bytes
  {
    match c
    case Ping => Ascii("PING")
    case Set => Ascii("SET")
    case Get => Ascii("GET")
    case HSet => Ascii("HSET")
    case HGet => Ascii("HGET")
    case HGetAll => Ascii("HGETALL")
  }

  /** A lookup in the `Handlers` table. */
  function Lookup(name: Bytes): (r: Option<Command>)
    ensures r.Some? ==> Name(r.value) == name
    ensures r.None? ==> forall c: Command :: Name(c) != name
  {
    if name == Name(Ping) then Some(Ping)
    else if name == Name(Set) then Some(Set)
    else if name == Name(Get) then Some(Get)
    else if name == Name(HSet) then Some(HSet)
    else if name == Name(HGet) then Some(HGet)
    else if name == Name(HGetAll) then Some(HGetAll)
    else None
  }

  /** Every table key finds its own handler: the six names are distinct. */
  lemma LookupName(c: Command)
    ensures Lookup(Name(c)) == Some(c)
  {
    assert Name(Get)[0] != Name(Set)[0];
    assert Name(HSet)[0] != Name(Ping)[0];
    assert Name(HGet)[0] != Name(Ping)[0];
    assert Name(HGet)[1] != Name(HSet)[1];
  }

  /** The number of arguments a handler demands; `ping` takes any number. */
  function Arity(c: Command): Option<nat>
  {
    match c
    case Ping => None
    case Set => Some(2)
    case Get => Some(1)
    case HSet => Some(3)
    case HGet => Some(2)
    case HGetAll => Some(1)
  }

  /** The command's name in its arity error (the handler's own, lower-case, name). */
  function ErrorName(c: Command): string
  {
    match c
    case Ping => "ping"
    case Set => "set"
    case Get => "get"
    case HSet => "hset"
    case HGet => "hget"
    case HGetAll => "hgetall"
  }

  /** The reply to a call with the wrong number of arguments. */
  function ArityError(c: Command): Value
  {
    ErrorReply(Ascii("ERR wrong number of arguments for '" + ErrorName(c) + "' command"))
  }

  const Ok: Value := SimpleString(Ascii("OK"))

  const Pong: Value := SimpleString(Ascii("PONG"))

  /** `ping`: "PONG", or the first argument echoed back. */
  function PingReply(args: seq<Value>): Value
  {
    if |args| == 0 then Pong else SimpleString(args[0].bulk)
  }

  /** `ping` echoes its first argument, ignores the others, and answers "PONG" to none. */
  lemma PingEcho(args: seq<Value>)
    ensures |args| == 0 ==> PingReply(args) == Pong
    ensures |args| > 0 ==> PingReply(args).typ == StringTyp && PingReply(args).str == args[0].bulk
    ensures |args| > 0 ==> PingReply(args) == PingReply(args[..1])
  {
  }

  /** A snapshot of the store: `SETs` and `HSETs`. */
  datatype Db = Db(sets: map<Bytes, Bytes>, hsets: map<Bytes, map<Bytes, Bytes>>)

  /** Every hash in the store has a field: `hset` creates a hash only to set a field in it. */
  predicate WellFormed(db: Db)
  {
    forall key :: key in db.hsets ==> db.hsets[key] != map[]
  }

  /** `HSETs[key]`: a missing hash reads as the empty (nil) map. */
  function Hash(db: Db, key: Bytes): map<Bytes, Bytes>
  {
    if key in db.hsets then db.hsets[key] else map[]
  }

  /** The store after `set key value`. */
  function AfterSet(db: Db, key: Bytes, value: Bytes): Db
  {
    db.(sets := db.sets[key := value])
  }

  /** The store after `hset key field value`: the hash is created on first use. */
  function AfterHSet(db: Db, key: Bytes, field: Bytes, value: Bytes): Db
  {
    db.(hsets := db.hsets[key := Hash(db, key)[field := value]])
  }

  /** The reply of `get key`. */
  function GetReply(db: Db, key: Bytes): Value
  {
    if key in db.sets then BulkString(db.sets[key]) else Null
  }

  /** The reply of `hget key field`. */
  function HGetReply(db: Db, key: Bytes, field: Bytes): Value
  {
    if field in Hash(db, key) then BulkString(Hash(db, key)[field]) else Null
  }

  /** The field named by the i-th pair of a field/value listing. */
  function FieldAt(l: seq<Value>, i: nat): Bytes
    requires 2 * i < |l|
  {
    l[2 * i].bulk
  }

  /** The i-th pair of `l` is a field of `fields` followed by its value, both as bulk strings. */
  predicate PairAt(l: seq<Value>, i: nat, fields: map<Bytes, Bytes>)
    requires 2 * i + 1 < |l|
  {
    && FieldAt(l, i) in fields
    && l[2 * i] == BulkString(FieldAt(l, i))
    && l[2 * i + 1] == BulkString(fields[FieldAt(l, i)])
  }

  /**
   * `l` lists the hash `fields` as `hgetall` does: field, value, field,
   * value, ..., every field exactly once, in any order.
   */
  predicate IsListing(l: seq<Value>, fields: map<Bytes, Bytes>)
  {
    && |l| == 2 * |fields|
    && (forall i :: 0 <= i < |fields| ==> PairAt(l, i, fields))
    && (forall i, j :: 0 <= i < j < |fields| ==> FieldAt(l, i) != FieldAt(l, j))
    && (forall f :: f in fields ==> exists i :: 0 <= i < |fields| && FieldAt(l, i) == f)
  }

  /** The replies `hgetall key` may give: null for a missing hash, otherwise an array listing it. */
  predicate HGetAllReply(db: Db, key: Bytes, reply: Value)
  {
    if key in db.hsets then reply == ArrayOf(reply.elements) && IsListing(reply.elements, db.hsets[key])
    else reply == Null
  }

  /**
   * What running command `c` on `args` does: the store goes from `before`
   * to `after` and the handler replies `reply`. A wrong number of arguments
   * changes nothing and replies the arity error.
   */
  predicate Handled(c: Command, args: seq<Value>, before: Db, after: Db, reply: Value)
  {
    if Arity(c).Some? && |args| != Arity(c).value then
      after == before && reply == ArityError(c)
    else
      match c
      case Ping => after == before && reply == PingReply(args)
      case Set => after == AfterSet(before, args[0].bulk, args[1].bulk) && reply == Ok
      case Get => after == before && reply == GetReply(before, args[0].bulk)
      case HSet => after == AfterHSet(before, args[0].bulk, args[1].bulk, args[2].bulk) && reply == Ok
      case HGet => after == before && reply == HGetReply(before, args[0].bulk, args[1].bulk)
      case HGetAll => after == before && HGetAllReply(before, args[0].bulk, reply)
  }

  /** Only `set` and `hset` change the store. */
  lemma ReadersChangeNothing(c: Command, args: seq<Value>, before: Db, after: Db, reply: Value)
    requires Handled(c, args, before, after, reply)
    requires c != Set && c != HSet
    ensures after == before
  {
  }

  /** A wrong number of arguments is answered by the arity error and changes nothing. */
  lemma WrongArity(c: Command, args: seq<Value>, before: Db, after: Db, reply: Value)
    requires Handled(c, args, before, after, reply)
    requires Arity(c).Some? && |args| != Arity(c).value
    ensures after == before
    ensures reply.typ == ErrorTyp
    ensures reply == ArityError(c)
  {
  }

  /** Every handler keeps every hash non-empty. */
  lemma HandledKeepsWellFormed(c: Command, args: seq<Value>, before: Db, after: Db, reply: Value)
    requires WellFormed(before)
    requires Handled(c, args, before, after, reply)
    ensures WellFormed(after)
  {
    if c == HSet && |args| == 3 {
      var hash := Hash(before, args[0].bulk)[args[1].bulk := args[2].bulk];
      assert args[1].bulk in hash;
    }
  }

  /** `get` after `set` sees the value set, and only that key changed. */
  lemma GetAfterSet(db: Db, key: Bytes, value: Bytes, other: Bytes)
    ensures GetReply(AfterSet(db, key, value), key) == BulkString(value)
    ensures other != key ==> GetReply(AfterSet(db, key, value), other) == GetReply(db, other)
    ensures AfterSet(db, key, value).hsets == db.hsets
  {
  }

  /** `hget` after `hset` sees the value set; every other field of every hash is kept. */
  lemma HGetAfterHSet(db: Db, key: Bytes, field: Bytes, value: Bytes, k: Bytes, f: Bytes)
    ensures HGetReply(AfterHSet(db, key, field, value), key, field) == BulkString(value)
    ensures k != key || f != field ==>
      HGetReply(AfterHSet(db, key, field, value), k, f) == HGetReply(db, k, f)
    ensures AfterHSet(db, key, field, value).sets == db.sets
  {
  }

  /** A listing has one pair per field, so in a well-formed store `hgetall` of a hash is never empty. */
  lemma HGetAllNotEmpty(db: Db, key: Bytes, reply: Value)
    requires WellFormed(db) && key in db.hsets
    requires HGetAllReply(db, key, reply)
    ensures reply.typ == ArrayTyp && |reply.elements| >= 2
  {
    assert |db.hsets[key]| != 0;
  }

  /** Each field of the hash is listed once, next to its own value. */
  lemma ListingFindsField(l: seq<Value>, fields: map<Bytes, Bytes>, f: Bytes)
    requires IsListing(l, fields) && f in fields
    ensures exists i :: 0 <= i < |fields| && l[2 * i] == BulkString(f) && l[2 * i + 1] == BulkString(fields[f])
  {
    var i :| 0 <= i < |fields| && FieldAt(l, i) == f;
    assert PairAt(l, i, fields);
  }

  /** The first `n` pairs of `l` are fields of `fields`, each followed by its value, all in `done`. */
  predicate PairsIn(l: seq<Value>, n: nat, fields: map<Bytes, Bytes>, done: set<Bytes>)
    requires 2 * n <= |l|
  {
    forall i :: 0 <= i < n ==> PairAt(l, i, fields) && FieldAt(l, i) in done
  }

  /** The first `n` pairs of `l` name distinct fields. */
  predicate DistinctFields(l: seq<Value>, n: nat)
    requires 2 * n <= |l|
  {
    forall i, j :: 0 <= i < j < n ==> FieldAt(l, i) != FieldAt(l, j)
  }

  /** Every field of `done` is named by one of the first `n` pairs of `l`. */
  predicate Covers(l: seq<Value>, n: nat, done: set<Bytes>)
    requires 2 * n <= |l|
  {
    forall f :: f in done ==> exists i :: 0 <= i < n && FieldAt(l, i) == f
  }

  /**
   * `l` lists, field by field, the part `done` of the hash `fields`: what
   * the `hgetall` loop has produced once it has walked `done`.
   */
  predicate ListsSoFar(l: seq<Value>, fields: map<Bytes, Bytes>, done: set<Bytes>)
  {
    && |l| == 2 * |done|
    && PairsIn(l, |done|, fields, done)
    && DistinctFields(l, |done|)
    && Covers(l, |done|, done)
  }

  /** Appending to a listing keeps its first pairs. */
  lemma PairsKept(l: seq<Value>, x: seq<Value>, n: nat)
    requires 2 * n <= |l|
    ensures forall i :: 0 <= i < n ==> (l + x)[2 * i] == l[2 * i] && (l + x)[2 * i + 1] == l[2 * i + 1]
    ensures forall i :: 0 <= i < n ==> FieldAt(l + x, i) == FieldAt(l, i)
  {
  }

  /** One more step of the loop: a field not walked yet, then its value. */
  lemma ListsOneMore(l: seq<Value>, fields: map<Bytes, Bytes>, done: set<Bytes>, f: Bytes)
    requires ListsSoFar(l, fields, done)
    requires f in fields && f !in done
    ensures ListsSoFar(l + [BulkString(f), BulkString(fields[f])], fields, done + {f})
  {
    var x := [BulkString(f), BulkString(fields[f])];
    var n := |done|;
    assert |done + {f}| == n + 1;
    PairsKept(l, x, n);
    assert FieldAt(l + x, n) == f;
    OneMorePair(l, x, n, fields, done, f);
    OneMoreDistinct(l, x, n, fields, done, f);
    OneMoreCovered(l, x, n, done, f);
  }

  lemma OneMorePair(l: seq<Value>, x: seq<Value>, n: nat, fields: map<Bytes, Bytes>, done: set<Bytes>, f: Bytes)
    requires f in fields
    requires 2 * n == |l| && x == [BulkString(f), BulkString(fields[f])]
    requires PairsIn(l, n, fields, done)
    requires forall i :: 0 <= i < n ==> (l + x)[2 * i] == l[2 * i] && (l + x)[2 * i + 1] == l[2 * i + 1]
    ensures PairsIn(l + x, n + 1, fields, done + {f})
  {
    forall i | 0 <= i < n + 1
      ensures PairAt(l + x, i, fields) && FieldAt(l + x, i) in done + {f}
    {
      if i < n {
        assert PairAt(l, i, fields);
      }
    }
  }

  lemma OneMoreDistinct(l: seq<Value>, x: seq<Value>, n: nat, fields: map<Bytes, Bytes>, done: set<Bytes>, f: Bytes)
    requires 2 * n == |l| && |x| == 2 && x[0].bulk == f
    requires PairsIn(l, n, fields, done) && DistinctFields(l, n) && f !in done
    requires forall i :: 0 <= i < n ==> FieldAt(l + x, i) == FieldAt(l, i)
    ensures DistinctFields(l + x, n + 1)
  {
    assert FieldAt(l + x, n) == f;
  }

  lemma OneMoreCovered(l: seq<Value>, x: seq<Value>, n: nat, done: set<Bytes>, f: Bytes)
    requires 2 * n == |l| && |x| == 2 && x[0].bulk == f
    requires Covers(l, n, done)
    requires forall i :: 0 <= i < n ==> FieldAt(l + x, i) == FieldAt(l, i)
    ensures Covers(l + x, n + 1, done + {f})
  {
    assert FieldAt(l + x, n) == f;
    forall g | g in done + {f}
      ensures exists i :: 0 <= i < n + 1 && FieldAt(l + x, i) == g
    {
      if g != f {
        var i :| 0 <= i < n && FieldAt(l, i) == g;
        assert FieldAt(l + x, i) == g;
      }
    }
  }

  /** A walk over the whole hash is a listing of it. */
  lemma ListsAll(l: seq<Value>, fields: map<Bytes, Bytes>)
    requires ListsSoFar(l, fields, fields.Keys)
    ensures IsListing(l, fields)
  {
    assert |fields.Keys| == |fields|;
  }

  /** The store of handler.go: the two global maps, updated in place. */
  class Store {
    var sets: map<Bytes, Bytes>
    var hsets: map<Bytes, map<Bytes, Bytes>>

    function State(): Db
      reads this
    {
      Db(sets, hsets)
    }

    /** Both maps start empty. */
    constructor ()
      ensures State() == Db(map[], map[])
      ensures WellFormed(State())
    {
      sets := map[];
      hsets := map[];
    }

    /** `set`: store the value under the key. */
    method Set(args: seq<Value>) returns (reply: Value)
      modifies this
      ensures Handled(Command.Set, args, old(State()), State(), reply)
    {
      if |args| != 2 {
        return ArityError(Command.Set);
      }
      var key := args[0].bulk;
      var value := args[1].bulk;
      sets := sets[key := value];
      reply := Ok;
    }

    /** `get`: the value stored under the key, or null. */
    method Get(args: seq<Value>) returns (reply: Value)
      ensures Handled(Command.Get, args, State(), State(), reply)
    {
      if |args| != 1 {
        return ArityError(Command.Get);
      }
      var key := args[0].bulk;
      if key !in sets {
        return Null;
      }
      reply := BulkString(sets[key]);
    }

    /** `hset`: set one field of a hash, creating the hash on first use. */
    method HSet(args: seq<Value>) returns (reply: Value)
      modifies this
      ensures Handled(Command.HSet, args, old(State()), State(), reply)
    {
      if |args| != 3 {
        return ArityError(Command.HSet);
      }
      var key := args[0].bulk;
      var field := args[1].bulk;
      var value := args[2].bulk;
      if key !in hsets {
        hsets := hsets[key := map[]];
      }
      hsets := hsets[key := hsets[key][field := value]];
      reply := Ok;
    }

    /** `hget`: one field of a hash, or null when the hash or the field is missing. */
    method HGet(args: seq<Value>) returns (reply: Value)
      ensures Handled(Command.HGet, args, State(), State(), reply)
    {
      if |args| != 2 {
        return ArityError(Command.HGet);
      }
      var key := args[0].bulk;
      var field := args[1].bulk;
      if key !in hsets || field !in hsets[key] {
        return Null;
      }
      reply := BulkString(hsets[key][field]);
    }

    /**
     * `hgetall`: every field of a hash followed by its value, in the order
     * the map is walked, which is not specified; null when the hash is missing.
     */
    method HGetAll(args: seq<Value>) returns (reply: Value)
      ensures Handled(Command.HGetAll, args, State(), State(), reply)
    {
      if |args| != 1 {
        return ArityError(Command.HGetAll);
      }
      var key := args[0].bulk;
      if key !in hsets {
        return Null;
      }
      var elements := List(hsets[key]);
      reply := ArrayOf(elements);
    }

    /** The loop of `hgetall`: walk the hash in any order, appending each field and its value. */
    static method List(fields: map<Bytes, Bytes>) returns (elements: seq<Value>)
      ensures IsListing(elements, fields)
    {
      elements := [];
      var remaining := fields.Keys;
      ghost var done: set<Bytes> := {};
      while remaining != {}
        invariant remaining + done == fields.Keys && remaining !! done
        invariant ListsSoFar(elements, fields, done)
        decreases |remaining|
      {
        var field :| field in remaining;
        ListsOneMore(elements, fields, done, field);
        elements := elements + [BulkString(field), BulkString(fields[field])];
        remaining := remaining - {field};
        done := done + {field};
      }
      ListsAll(elements, fields);
    }

    /** Run the handler the table maps `c` to. */
    method Execute(c: Command, args: seq<Value>) returns (reply: Value)
      modifies this
      ensures Handled(c, args, old(State()), State(), reply)
    {
      match c
      case Ping => reply := PingReply(args);
      case Set => reply := Set(args);
      case Get => reply := Get(args);
      case HSet => reply := HSet(args);
      case HGet => reply := HGet(args);
      case HGetAll => reply := HGetAll(args);
    }
  }
}
