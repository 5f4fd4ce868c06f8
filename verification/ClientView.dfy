/** What clients see of the database: a map from user keys to values, and a frozen copy of it for each live snapshot. */
module ClientView {
  import opened DbFormat
  import opened Options
  import opened Versions
  import opened CompactionReads
  import opened Choosing
  import opened Database
  import opened ReadsOverRuns
  import opened Recovery

  type Store = map<UserKey, Value>

  function Found(m: Store, u: UserKey): Option<Value> { if u in m then Some(m[u]) else None }

  function Do(m: Store, u: UserKey, op: Op): Store {
    match op
    case Put(v) => m[u := v]
    case Delete => m - {u}
  }

  /** The operations of a batch, one after the other. */
  function DoAll(m: Store, batch: Batch): Store {
    if batch == [] then m else
      var n := |batch| - 1;
      Do(DoAll(m, batch[..n]), batch[n].0, batch[n].1)
  }

  datatype View = View(store: Store, snaps: seq<Store>)

  const EMPTY := View(map[], [])

  /** Only these three steps are visible to a client. */
  function AfterStep(w: View, step: Step): View {
    match step
    case DoWrite(batch) => w.(store := DoAll(w.store, batch))
    case DoSnapshot => w.(snaps := w.snaps + [w.store])
    case DoRelease(i) => if i < |w.snaps| then w.(snaps := w.snaps[..i] + w.snaps[i + 1..]) else w
    case _ => w
  }

  function ViewOf(steps: seq<Step>): View {
    if steps == [] then EMPTY else AfterStep(ViewOf(steps[..|steps| - 1]), steps[|steps| - 1])
  }

  ghost predicate ReadsAs(S: set<Entry>, s: nat, m: Store) { forall u :: Read(S, u, s) == Found(m, u) }

  /** Reading the latest data gives the map, and reading at a live snapshot the copy made when it was taken. */
  ghost predicate Shows(db: DB, S: set<Entry>, w: View) {
    && ReadsAs(S, db.last, w.store) && |db.snaps| == |w.snaps|
    && forall k :: 0 <= k < |db.snaps| ==> ReadsAs(S, db.snaps[k], w.snaps[k])
  }

  // ----- a write

  ghost predicate AllBy(S: set<Entry>, s: nat) { forall e :: e in S ==> e.sn <= s }

  ghost function Added(s: nat, batch: Batch): set<Entry> { Elements(Stamped(s + 1, batch)) }

  lemma AddedLast(s: nat, batch: Batch)
    requires batch != []
    ensures var n := |batch| - 1;
            Added(s, batch) == Added(s, batch[..n]) + {Entry(batch[n].0, s + 1 + n, batch[n].1)}
  {
    var n := |batch| - 1;
    assert Stamped(s + 1, batch) == Stamped(s + 1, batch[..n]) + [Entry(batch[n].0, s + 1 + n, batch[n].1)];
    hide Stamped;
  }

  lemma ReadAdded(S: set<Entry>, e: Entry, u: UserKey, s: nat)
    requires Distinct(S) && AllBy(S, s) && s < e.sn
    ensures Distinct(S + {e}) && AllBy(S + {e}, e.sn)
    ensures Read(S + {e}, u, e.sn) == if u == e.user then Answer(Some(e)) else Read(S, u, s)
  {
    if u == e.user {
      VisibleIs(S + {e}, e, u, e.sn);
    } else {
      var r := Visible(S, u, s);
      if r.Some? { VisibleIs(S + {e}, r.value, u, e.sn); }
    }
  }

  lemma AddedNone(s: nat)
    ensures Added(s, []) == {}
  {
  }

  /** The entries of S, all at or below s, and the map say the same about u. */
  ghost predicate Agree(S: set<Entry>, s: nat, u: UserKey, m: Store) {
    Distinct(S) && AllBy(S, s) && Read(S, u, s) == Found(m, u)
  }

  lemma OneMore(S: set<Entry>, e: Entry, u: UserKey, m: Store)
    requires e.sn > 0 && Agree(S, e.sn - 1, u, m)
    ensures Agree(S + {e}, e.sn, u, Do(m, e.user, e.op))
  {
    ReadAdded(S, e, u, e.sn - 1);
    hide Read, Distinct, AllBy;
  }

  /** What a batch adds to a set of older entries does to a read what its operations do to a map. */
  lemma {:induction false} BatchReads(S: set<Entry>, s: nat, batch: Batch, u: UserKey, m: Store)
    requires Agree(S, s, u, m)
    ensures Agree(S + Added(s, batch), s + |batch|, u, DoAll(m, batch))
    decreases |batch|
  {
    hide Agree, Stamped, Do;
    if batch == [] {
      AddedNone(s);
      assert S + Added(s, batch) == S;
    } else {
      var n := |batch| - 1;
      BatchReads(S, s, batch[..n], u, m);
      AddedLast(s, batch);
      var Q := S + Added(s, batch[..n]);
      var e := Entry(batch[n].0, s + 1 + n, batch[n].1);
      hide Added;
      assert S + Added(s, batch) == Q + {e};
      OneMore(Q, e, u, DoAll(m, batch[..n]));
    }
  }

  lemma {:induction false} LastOperation(m: Store, batch: Batch, i: nat)
    requires i < |batch| && forall k :: i < k < |batch| ==> batch[k].0 != batch[i].0
    ensures Found(DoAll(m, batch), batch[i].0) == if batch[i].1.Put? then Some(batch[i].1.value) else None
    decreases |batch|
  {
    var n := |batch| - 1;
    if i < n {
      assert batch[n].0 != batch[i].0;
      LastOperation(m, batch[..n], i);
    }
  }

  lemma {:induction false} OtherKeys(m: Store, batch: Batch, u: UserKey)
    requires forall k :: 0 <= k < |batch| ==> batch[k].0 != u
    ensures Found(DoAll(m, batch), u) == Found(m, u)
    decreases |batch|
  {
    if batch != [] {
      assert batch[|batch| - 1].0 != u;
      OtherKeys(m, batch[..|batch| - 1], u);
    }
  }

  lemma WriteReads(db: DB, db': DB, batch: Batch, u: UserKey, m: Store)
    requires Inv(db) && Write(db, db', batch) && Read(db.Total(), u, db.last) == Found(m, u)
    ensures Read(db'.Total(), u, db'.last) == Found(DoAll(m, batch), u)
  {
    hide Inv, Write, Read, Added, Found, DoAll, Distinct, AllBy;
    TotalOk(db);
    WriteTotal(db, db', batch);
    BatchReads(db.Total(), db.last, batch, u, m);
  }

  lemma TotalOk(db: DB)
    requires Inv(db)
    ensures Distinct(db.Total()) && AllBy(db.Total(), db.last) && Distinct(db.Written()) && AllBy(db.Written(), db.last)
  {
    WrittenDistinct(db);
    hide Recency, NumbersBelow, JobOk, HistoryOk;
  }

  lemma WriteTotal(db: DB, db': DB, batch: Batch)
    requires Inv(db) && Write(db, db', batch)
    ensures db'.Total() == db.Total() + Added(db.last, batch) && db'.Written() == db.Written() + Added(db.last, batch)
    ensures db'.last == db.last + |batch| && db'.snaps == db.snaps
  {
    WriteAdds(db, db', batch);
    hide Inv, Stamped;
  }

  /** After a write, the last operation of the batch on a key is what reading the key gives. */
  lemma LastWriteIsRead(db: DB, db': DB, batch: Batch, i: nat)
    requires Inv(db) && Write(db, db', batch)
    requires i < |batch| && forall k :: i < k < |batch| ==> batch[k].0 != batch[i].0
    ensures Read(db'.Total(), batch[i].0, db'.last) == if batch[i].1.Put? then Some(batch[i].1.value) else None
  {
    var r := Read(db.Total(), batch[i].0, db.last);
    var m: Store := if r.Some? then map[batch[i].0 := r.value] else map[];
    WriteReads(db, db', batch, batch[i].0, m);
    LastOperation(m, batch, i);
  }

  /** A write changes no other key, and nothing that a read at an earlier sequence number gives. */
  lemma OthersUnchanged(db: DB, db': DB, batch: Batch, u: UserKey)
    requires Inv(db) && Write(db, db', batch)
    ensures (forall k :: 0 <= k < |batch| ==> batch[k].0 != u) ==>
              Read(db'.Total(), u, db'.last) == Read(db.Total(), u, db.last)
    ensures forall s: nat :: s <= db.last ==> Read(db'.Total(), u, s) == Read(db.Total(), u, s)
  {
    if forall k :: 0 <= k < |batch| ==> batch[k].0 != u {
      var r := Read(db.Total(), u, db.last);
      var m: Store := if r.Some? then map[u := r.value] else map[];
      WriteReads(db, db', batch, u, m);
      OtherKeys(m, batch, u);
    }
    WriteAdds(db, db', batch);
    WriteKeepsHistory(db, db', batch);
    hide Inv, Stamped, Write;
    forall s: nat | s <= db.last ensures Read(db'.Total(), u, s) == Read(db.Total(), u, s) {
      SameVisible(db.Total(), db'.Total(), u, s);
    }
  }

  // ----- steps and runs

  lemma WriteShowsStore(db: DB, db': DB, batch: Batch, m: Store)
    requires Inv(db) && Write(db, db', batch) && ReadsAs(db.Written(), db.last, m)
    ensures ReadsAs(db'.Written(), db'.last, DoAll(m, batch))
  {
    TotalOk(db);
    WriteTotal(db, db', batch);
    hide Inv, Write, Read, Added, Found, DoAll, Distinct, AllBy;
    forall u ensures Read(db'.Written(), u, db'.last) == Found(DoAll(m, batch), u) {
      assert Agree(db.Written(), db.last, u, m);
      BatchReads(db.Written(), db.last, batch, u, m);
    }
  }

  lemma WriteShowsSnap(db: DB, db': DB, batch: Batch, s: nat, m: Store)
    requires Inv(db) && Write(db, db', batch) && s <= db.last && ReadsAs(db.Written(), s, m)
    ensures ReadsAs(db'.Written(), s, m)
  {
    WrittenGrows(db, db', batch);
    hide Inv, Write, Read, Found, Distinct;
    forall u ensures Read(db'.Written(), u, s) == Found(m, u) {
      Untouched(db.Written(), db'.Written(), db.last, u, s);
    }
  }

  lemma WriteShows(db: DB, db': DB, batch: Batch, w: View)
    requires Inv(db) && Write(db, db', batch) && Shows(db, db.Written(), w)
    ensures Shows(db', db'.Written(), AfterStep(w, DoWrite(batch)))
  {
    SnapsBelow(db);
    WriteTotal(db, db', batch);
    WriteShowsStore(db, db', batch, w.store);
    hide Inv, Write, ReadsAs, Added, DoAll;
    forall k | 0 <= k < |db'.snaps| ensures ReadsAs(db'.Written(), db'.snaps[k], w.snaps[k]) {
      WriteShowsSnap(db, db', batch, db.snaps[k], w.snaps[k]);
    }
  }

  lemma WrittenGrows(db: DB, db': DB, batch: Batch)
    requires Inv(db) && Write(db, db', batch)
    ensures db.Written() <= db'.Written() && Distinct(db'.Written())
    ensures forall e :: e in db'.Written() ==> e in db.Written() || e.sn > db.last
  {
    WriteAdds(db, db', batch);
    WriteKeepsHistory(db, db', batch);
    hide Stamped, Inv;
  }

  lemma SnapsBelow(db: DB)
    requires Inv(db)
    ensures forall k :: 0 <= k < |db.snaps| ==> db.Horizon() <= db.snaps[k] <= db.last
    ensures db.Horizon() <= db.last
  {
    hide Recency, NumbersBelow, JobOk, HistoryOk, AgesOk;
  }

  lemma Untouched(S: set<Entry>, T: set<Entry>, last: nat, u: UserKey, s: nat)
    requires S <= T && Distinct(T) && s <= last && forall e :: e in T ==> e in S || e.sn > last
    ensures Read(T, u, s) == Read(S, u, s)
  {
    SameVisible(S, T, u, s);
  }

  /** Nothing else that the engine does changes what was written or given out. */
  lemma QuietStep(db: DB, db': DB, step: Step)
    requires Next(db, db', step) && !step.DoWrite?
    ensures db'.Written() == db.Written() && db'.last == db.last
    ensures !step.DoSnapshot? && !step.DoRelease? ==> db'.snaps == db.snaps
  {
    hide Chosen, OutputsOf, PlaceOk, LandsClear;
  }

  lemma StepShows(db: DB, db': DB, step: Step, w: View)
    requires Inv(db) && Next(db, db', step) && Shows(db, db.Written(), w)
    ensures Shows(db', db'.Written(), AfterStep(w, step))
  {
    if step.DoWrite? {
      WriteShows(db, db', step.batch, w);
    } else {
      QuietStep(db, db', step);
      hide Inv, Write, Switch, Flush, TrivialMove, Start, Reserve, Finish, Read;
    }
  }

  lemma {:induction false} RunShows(r: Run, i: nat)
    requires IsRun(r) && i < |r.states|
    ensures Shows(r.states[i], r.states[i].Written(), ViewOf(r.steps[..i]))
  {
    if i == 0 {
      assert r.steps[..0] == [] && r.states[0].Written() == {};
    } else {
      RunShows(r, i - 1);
      RecencyOverRuns(r, i - 1);
      assert r.steps[..i][..i - 1] == r.steps[..i - 1];
      StepShows(r.states[i - 1], r.states[i], r.steps[i - 1], ViewOf(r.steps[..i - 1]));
    }
  }

  lemma HistoryShown(db: DB, w: View)
    requires Inv(db) && ReadsOk(db) && Shows(db, db.Written(), w)
    ensures Shows(db, db.Total(), w)
  {
    SnapsBelow(db);
    hide Inv, Read;
  }

  /** On every run that resurrects nothing the database is a map: reading the latest data gives what the batches
    written so far leave in the map, and reading at each live snapshot what they had left when it was taken. */
  lemma RefinesMap(r: Run, i: nat)
    requires SafeRun(r) && i < |r.states|
    ensures Shows(r.states[i], r.states[i].Total(), ViewOf(r.steps[..i]))
  {
    RunShows(r, i);
    RecencyOverRuns(r, i);
    ReadsOverRuns.ReadsOverRuns(r, i);
    HistoryShown(r.states[i], ViewOf(r.steps[..i]));
  }

  // ----- snapshots

  /** Where in the list a snapshot stands after one more step, unless it was released. */
  function PlaceNext(p: Option<nat>, step: Step): Option<nat> {
    if p.None? || !step.DoRelease? || p.value < step.i then p
    else if p.value == step.i then None
    else Some(p.value - 1)
  }

  function PlaceAfter(steps: seq<Step>, n: nat): Option<nat> {
    if steps == [] then Some(n) else PlaceNext(PlaceAfter(steps[..|steps| - 1], n), steps[|steps| - 1])
  }

  predicate CopyAt(w: View, m: Store, p: Option<nat>) { p.Some? ==> p.value < |w.snaps| && w.snaps[p.value] == m }

  lemma CopyStays(w: View, m: Store, p: Option<nat>, step: Step)
    requires CopyAt(w, m, p)
    ensures CopyAt(AfterStep(w, step), m, PlaceNext(p, step))
  {
  }

  lemma ViewLast(steps: seq<Step>, k: nat)
    requires 0 < k <= |steps|
    ensures ViewOf(steps[..k]) == AfterStep(ViewOf(steps[..k - 1]), steps[k - 1])
  {
    assert steps[..k][..k - 1] == steps[..k - 1];
  }

  lemma {:induction false} CopyKept(steps: seq<Step>, i: nat, k: nat)
    requires i < k <= |steps| && steps[i].DoSnapshot?
    ensures CopyAt(ViewOf(steps[..k]), ViewOf(steps[..i]).store, PlaceAfter(steps[i + 1..k],
        |ViewOf(steps[..i]).snaps|))
    decreases k
  {
    ViewLast(steps, k);
    if k == i + 1 {
      assert steps[i + 1..k] == [];
    } else {
      CopyKept(steps, i, k - 1);
      var n := |ViewOf(steps[..i]).snaps|;
      assert steps[i + 1..k][..k - 2 - i] == steps[i + 1..k - 1];
      hide ViewOf, AfterStep, CopyAt;
      CopyStays(ViewOf(steps[..k - 1]), ViewOf(steps[..i]).store, PlaceAfter(steps[i + 1..k - 1], n), steps[k - 1]);
    }
  }

  /** A snapshot gives the answers of the moment it was taken, through all later writes, flushes, compactions and other
    snapshots, until it is itself released. */
  lemma SnapshotsRepeatable(r: Run, i: nat, k: nat, u: UserKey)
    requires SafeRun(r) && i < k < |r.states| && r.steps[i].DoSnapshot?
    ensures var p := PlaceAfter(r.steps[i + 1..k], |r.states[i].snaps|);
            p.Some? ==>
              && p.value < |r.states[k].snaps|
              && Read(r.states[k].Total(), u, r.states[k].snaps[p.value]) == Read(r.states[i].Total(), u, r.states[i].last)
  {
    RefinesMap(r, i);
    RefinesMap(r, k);
    CopyKept(r.steps, i, k);
    hide SafeRun, Read;
  }
}
