/** From the bytes of a batch to the entries of a memtable. */
module BatchEntries {
  import opened Coding
  import opened DbFormat
  import opened Database
  import WB = WriteBatch

  /** Keys are ranked by the user's comparator; what a value's bytes stand for does not matter. */
  type Rank = Bytes -> UserKey
  type Text = Bytes -> Value

  function OperationOf(a: WB.Action, rank: Rank, text: Text): (UserKey, Op) {
    match a
    case Put(key, value) => (rank(key), Put(text(value)))
    case Delete(key) => (rank(key), Op.Delete)
  }

  function BatchOf(ops: seq<WB.Action>, rank: Rank, text: Text): Batch {
    seq(|ops|, i requires 0 <= i < |ops| => OperationOf(ops[i], rank, text))
  }

  /** The i-th operation under the i-th number: a value exactly for a Put, an empty one too. */
  ghost predicate IsEntryOf(e: Entry, a: WB.Action, sn: nat, rank: Rank, text: Text) {
    && e.user == rank(a.key) && e.sn == sn && (e.op.Put? <==> a.Put?) && (a.Put? ==> e.op.value == text(a.value))
  }

  /** The entries made from the bytes of a batch are what the engine's write adds, operation by operation. */
  method InsertEntries(batch: WB.WriteBatch, rank: Rank, text: Text) returns (es: seq<Entry>)
    requires batch.Valid()
    ensures |es| == |batch.ops| && forall i :: 0 <= i < |es| ==> IsEntryOf(es[i], batch.ops[i], batch.sn + i, rank, text)
    ensures es == Stamped(batch.sn, BatchOf(batch.ops, rank, text))
  {
    hide WB.Contents, Stamped, BatchOf, OperationOf;
    var ok, added := WB.InsertInto(batch);
    es := [];
    for n := 0 to |added|
      invariant |es| == n
      invariant forall i :: 0 <= i < n ==> IsEntryOf(es[i], batch.ops[i], batch.sn + i, rank, text)
    {
      var e := match added[n].1
        case Put(key, value) => Entry(rank(key), added[n].0, Put(text(value)))
        case Delete(key) => Entry(rank(key), added[n].0, Op.Delete);
      es := es + [e];
    }
    StampedIs(es, batch.sn, batch.ops, rank, text);
  }

  /** The engine's write, told entry by entry. */
  lemma StampedIs(es: seq<Entry>, sn: nat, ops: seq<WB.Action>, rank: Rank, text: Text)
    requires |es| == |ops| && forall i :: 0 <= i < |es| ==> IsEntryOf(es[i], ops[i], sn + i, rank, text)
    ensures es == Stamped(sn, BatchOf(ops, rank, text))
  {
    forall i | 0 <= i < |es| ensures es[i] == Stamped(sn, BatchOf(ops, rank, text))[i] {
      assert IsEntryOf(es[i], ops[i], sn + i, rank, text);
    }
  }
}
