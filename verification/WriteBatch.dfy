/** Batches of writes as bytes: a sequence number, a count, and one record for each operation. */
module WriteBatch {
  import opened Options
  import opened Coding

  const HEADER: nat := 12
  const TYPE_DELETION: nat := 0
  const TYPE_VALUE: nat := 1

  datatype Action = Put(key: Bytes, value: Bytes) | Delete(key: Bytes)

  /** Keys and values have 32-bit lengths. */
  predicate Fits(a: Action) { |a.key| < TWO32 && (a.Put? ==> |a.value| < TWO32) }

  function RecordOf(a: Action): Bytes {
    match a
    case Put(key, value) => [TYPE_VALUE] + Prefixed(key) + Prefixed(value)
    case Delete(key) => [TYPE_DELETION] + Prefixed(key)
  }

  function Records(ops: seq<Action>): Bytes {
    if ops == [] then [] else RecordOf(ops[0]) + Records(ops[1..])
  }

  function Contents(sn: nat, ops: seq<Action>): Bytes {
    Fixed64(sn) + Fixed32(|ops|) + Records(ops)
  }

  function Count(rep: Bytes): nat
    requires |rep| >= HEADER
  {
    UnFixed(rep[8..12])
  }

  function Sequence(rep: Bytes): nat
    requires |rep| >= HEADER
  {
    UnFixed(rep[..8])
  }

  // ----- reading

  /** The first record and the rest of the input. */
  function ReadRecord(input: Bytes): (r: Option<(Action, Bytes)>)
    requires input != []
    ensures r.Some? ==> |r.value.1| < |input|
  {
    if input[0] == TYPE_VALUE then
      var key := GetPrefixed(input[1..]);
      if key.None? then None else
      var value := GetPrefixed(key.value.1);
      if value.None? then None else Some((Put(key.value.0, value.value.0), value.value.1))
    else if input[0] == TYPE_DELETION then
      var key := GetPrefixed(input[1..]);
      if key.None? then None else Some((Delete(key.value.0), key.value.1))
    else None
  }

  /** The operations up to the end or to the first malformed record, and whether the end was reached. */
  function Parsed(input: Bytes): (seq<Action>, bool)
    decreases |input|
  {
    if input == [] then ([], true) else
    var r := ReadRecord(input);
    if r.None? then ([], false) else
    var rest := Parsed(r.value.1);
    ([r.value.0] + rest.0, rest.1)
  }

  lemma RecordBack(a: Action, rest: Bytes)
    requires Fits(a)
    ensures ReadRecord(RecordOf(a) + rest) == Some((a, rest))
  {
    hide Varint, GetVarint32, GetPrefixed, Prefixed;
    var input := RecordOf(a) + rest;
    match a
    case Put(key, value) =>
      assert input[1..] == Prefixed(key) + (Prefixed(value) + rest);
      PrefixedRoundTrip(key, Prefixed(value) + rest);
      PrefixedRoundTrip(value, rest);
    case Delete(key) =>
      assert input[1..] == Prefixed(key) + rest;
      PrefixedRoundTrip(key, rest);
  }

  lemma {:induction false} RecordsBack(ops: seq<Action>)
    requires forall i :: 0 <= i < |ops| ==> Fits(ops[i])
    ensures Parsed(Records(ops)) == (ops, true)
    decreases |ops|
  {
    hide ReadRecord, RecordOf;
    if ops != [] {
      RecordNotEmpty(ops[0]);
      RecordBack(ops[0], Records(ops[1..]));
      RecordsBack(ops[1..]);
      assert [ops[0]] + ops[1..] == ops;
    }
  }

  lemma RecordNotEmpty(a: Action)
    ensures RecordOf(a) != []
  {
  }

  lemma {:induction false} RecordsAppend(a: seq<Action>, b: seq<Action>)
    ensures Records(a + b) == Records(a) + Records(b)
    decreases |a|
  {
    hide RecordOf;
    if a == [] {
      assert a + b == b;
    } else {
      RecordsAppend(a[1..], b);
      assert (a + b)[1..] == a[1..] + b;
    }
  }

  lemma ContentsParts(rep: Bytes, sn: nat, ops: seq<Action>)
    requires rep == Contents(sn, ops) && sn < TWO64 && |ops| < TWO32
    ensures |rep| >= HEADER && Sequence(rep) == sn && Count(rep) == |ops| && rep[HEADER..] == Records(ops)
  {
    hide Fixed, UnFixed, Records;
    assert rep[..8] == Fixed64(sn) && rep[8..12] == Fixed32(|ops|);
    Fixed64RoundTrip(sn);
    Fixed32RoundTrip(|ops|);
  }

  /** Operations with the sequence numbers that follow one another from the first. */
  function Numbered(first: nat, ops: seq<Action>): seq<(nat, Action)> {
    seq(|ops|, i requires 0 <= i < |ops| => (first + i, ops[i]))
  }

  class WriteBatch {
    var rep: Bytes
    ghost var sn: nat
    ghost var ops: seq<Action>

    ghost predicate Valid()
      reads this
    {
      rep == Contents(sn, ops) && sn < TWO64 && |ops| < 0x8000_0000 && forall i :: 0 <= i < |ops| ==> Fits(ops[i])
    }

    constructor ()
      ensures Valid() && ops == [] && sn == 0
    {
      rep := Zeros(HEADER);
      sn, ops := 0, [];
      new;
      ZeroHeader();
    }

    method SetSequence(number: nat)
      requires Valid() && number < TWO64
      modifies this
      ensures Valid() && ops == old(ops) && sn == number
    {
      ContentsParts(rep, sn, ops);
      rep := Fixed64(number) + rep[8..];
      sn := number;
    }

    method SetCount(count: nat)
      requires |rep| >= HEADER
      modifies this`rep
      ensures rep == old(rep[..8]) + Fixed32(count) + old(rep[HEADER..])
    {
      rep := rep[..8] + Fixed32(count) + rep[HEADER..];
    }

    method Add(a: Action)
      requires Valid() && Fits(a) && |ops| + 1 < 0x8000_0000
      modifies this
      ensures Valid() && ops == old(ops) + [a] && sn == old(sn)
    {
      hide Records, RecordOf, Fixed64, Fixed32, UnFixed;
      ContentsParts(rep, sn, ops);
      SetCount(Count(rep) + 1);
      rep := rep + RecordOf(a);
      RecordsAppend(ops, [a]);
      OneRecord(a);
      ops := ops + [a];
    }

    method Append(src: WriteBatch)
      requires Valid() && src.Valid() && |ops| + |src.ops| < 0x8000_0000
      modifies this
      ensures Valid() && ops == old(ops) + old(src.ops) && sn == old(sn)
    {
      hide Records, RecordOf, Fixed64, Fixed32, UnFixed;
      ContentsParts(rep, sn, ops);
      ContentsParts(src.rep, src.sn, src.ops);
      RecordsAppend(ops, src.ops);
      var tail := src.rep[HEADER..];
      ghost var more := src.ops;
      SetCount(Count(rep) + Count(src.rep));
      rep := rep + tail;
      ops := ops + more;
    }
  }

  lemma OneRecord(a: Action)
    ensures Records([a]) == RecordOf(a)
  {
    assert RecordOf(a) + Records([a][1..]) == RecordOf(a);
  }

  lemma ZeroHeader()
    ensures Zeros(HEADER) == Contents(0, [])
  {
    assert Fixed(0, 4) == Zeros(4);
    assert Fixed(0, 8) == Zeros(8) by { assert Fixed(0, 6) == Zeros(6); }
  }

  /** What is left to parse gives the rest of the operations. */
  ghost predicate Rest(all: Bytes, handled: seq<Action>, input: Bytes) {
    Parsed(all).0 == handled + Parsed(input).0 && Parsed(all).1 == Parsed(input).1
  }

  lemma RestStarts(all: Bytes)
    ensures Rest(all, [], all)
  {
  }

  lemma RestStep(all: Bytes, handled: seq<Action>, input: Bytes)
    requires Rest(all, handled, input) && input != []
    ensures var r := ReadRecord(input);
      if r.Some? then Rest(all, handled + [r.value.0], r.value.1) else Parsed(all) == (handled, false)
  {
    hide ReadRecord;
    var r := ReadRecord(input);
    if r.Some? {
      assert handled + ([r.value.0] + Parsed(r.value.1).0) == handled + [r.value.0] + Parsed(r.value.1).0;
    } else {
      assert handled + [] == handled;
    }
  }

  lemma RestEnds(all: Bytes, handled: seq<Action>)
    requires Rest(all, handled, [])
    ensures Parsed(all) == (handled, true)
  {
    assert handled + [] == handled;
  }

  /** Well-formed records to the end, as many as the header says. */
  predicate Accepted(rep: Bytes) {
    |rep| >= HEADER && var p := Parsed(rep[HEADER..]); p.1 && |p.0| == Count(rep)
  }

  /** Feeds the operations to the handler; on corruption those before it have been handled. */
  method Iterate(rep: Bytes) returns (ok: bool, handled: seq<Action>)
    ensures ok <==> Accepted(rep)
    ensures handled == if |rep| < HEADER then [] else Parsed(rep[HEADER..]).0
  {
    hide GetPrefixed, Rest, Parsed, UnFixed;
    handled := [];
    if |rep| < HEADER {
      return false, [];
    }
    var input := rep[HEADER..];
    var found := 0;
    RestStarts(input);
    while |input| > 0
      invariant found == |handled| && Rest(rep[HEADER..], handled, input)
      decreases |input|
    {
      RestStep(rep[HEADER..], handled, input);
      found := found + 1;
      var tag := input[0];
      var key := GetPrefixed(input[1..]);
      if tag == TYPE_VALUE {
        if key.None? {
          return false, handled;
        }
        var value := GetPrefixed(key.value.1);
        if value.None? {
          return false, handled;
        }
        handled := handled + [Put(key.value.0, value.value.0)];
        input := value.value.1;
      } else if tag == TYPE_DELETION {
        if key.None? {
          return false, handled;
        }
        handled := handled + [Delete(key.value.0)];
        input := key.value.1;
      } else {
        return false, handled;
      }
    }
    RestEnds(rep[HEADER..], handled);
    ok := found == Count(rep);
  }

  lemma BuiltAccepted(rep: Bytes, sn: nat, ops: seq<Action>)
    requires rep == Contents(sn, ops) && sn < TWO64 && |ops| < TWO32 && forall i :: 0 <= i < |ops| ==> Fits(ops[i])
    ensures |rep| >= HEADER && Accepted(rep) && Parsed(rep[HEADER..]).0 == ops && Sequence(rep) == sn
  {
    ContentsParts(rep, sn, ops);
    RecordsBack(ops);
    hide Parsed, Records, UnFixed;
  }

  /** What InsertInto adds to a memtable; a batch that was built inserts exactly its operations under consecutive
    numbers. */
  method InsertInto(batch: WriteBatch) returns (ok: bool, added: seq<(nat, Action)>)
    requires batch.Valid()
    ensures ok && added == Numbered(batch.sn, batch.ops)
  {
    hide Contents, Parsed, UnFixed, Accepted;
    BuiltAccepted(batch.rep, batch.sn, batch.ops);
    var sequence := Sequence(batch.rep);
    var handled;
    ok, handled := Iterate(batch.rep);
    added := [];
    for i := 0 to |handled|
      invariant |added| == i && sequence == batch.sn + i
      invariant forall k :: 0 <= k < i ==> added[k] == (batch.sn + k, handled[k])
    {
      added := added + [(sequence, handled[i])];
      sequence := sequence + 1;
    }
  }
}
