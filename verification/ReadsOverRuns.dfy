/** Over whole runs: recency always, and agreement of every live read with the write history. */
module ReadsOverRuns {
  import opened DbFormat
  import opened Versions
  import opened CompactionReads
  import opened Choosing
  import opened Database

  /** Every read at a live snapshot, at the last sequence number or above gives what the write history says. */
  ghost predicate ReadsOk(db: DB) {
    SameReads(db.Total(), db.Written(), db.Horizon())
  }

  ghost predicate JobSafe(db: DB, j: Job) {
    j.level + 1 < NUM_LEVELS && forall t :: !Resurrects(db.Mems(), db.v, j.base, j.level, j.in0, j.in1, j.smallest, t)
  }

  /** The one thing asked of a run: no compaction is installed that drops a tombstone of a split key. */
  ghost predicate StepSafe(db: DB, step: Step) {
    match step
    case DoFinish(_) => db.job.Some? ==> JobSafe(db, db.job.value)
    case _ => true
  }

  datatype Run = Run(states: seq<DB>, steps: seq<Step>)

  ghost predicate IsRun(r: Run) {
    && |r.states| == |r.steps| + 1 && Init(r.states[0])
    && forall i :: 0 <= i < |r.steps| ==> Next(r.states[i], r.states[i + 1], r.steps[i])
  }

  ghost predicate SafeRun(r: Run) {
    IsRun(r) && forall i :: 0 <= i < |r.steps| ==> StepSafe(r.states[i], r.steps[i])
  }

  // ----- one step

  /** Entries newer than s do not change a read at s; they decide a read above if they are visible. */
  lemma AddedReads(S: set<Entry>, T: set<Entry>, N: set<Entry>, u: UserKey, s: nat)
    requires Distinct(S + N) && Distinct(T + N)
    requires forall n, e :: n in N && e in S + T ==> n.sn > e.sn
    requires Read(S, u, s) == Read(T, u, s)
    ensures Read(S + N, u, s) == Read(T + N, u, s)
  {
    var r := Visible(N, u, s);
    if r.Some? {
      VisibleIs(S + N, r.value, u, s);
      VisibleIs(T + N, r.value, u, s);
    } else {
      SameVisible(S, S + N, u, s);
      SameVisible(T, T + N, u, s);
    }
  }

  lemma SameVisible(S: set<Entry>, T: set<Entry>, u: UserKey, s: nat)
    requires S <= T && Distinct(T)
    requires forall x :: x in T && Sees(x, u, s) ==> x in S
    ensures Visible(S, u, s) == Visible(T, u, s)
  {
    var r := Visible(S, u, s);
    if r.Some? { VisibleIs(T, r.value, u, s); }
  }

  /** What a write adds is newer than everything there. */
  lemma WriteAdds(db: DB, db': DB, batch: Batch)
    requires Inv(db) && Write(db, db', batch)
    ensures var es := Stamped(db.last + 1, batch);
            var N := set e | e in es;
            && db'.Written() == db.Written() + N && db'.Total() == db.Total() + N && Distinct(db'.Written())
            && db.Total() <= db.Written()
            && forall n, e :: n in N && e in db.Written() ==> n.sn > e.sn
  {
    WriteKeepsHistory(db, db', batch);
    WrittenDistinct(db');
    WrittenDistinct(db);
    hide Stamped, Recency, NumbersBelow, JobOk, HistoryOk;
    var es := Stamped(db.last + 1, batch);
    assert forall n :: n in es ==> n.sn > db.last;
  }

  lemma WriteKeepsReads(db: DB, db': DB, batch: Batch)
    requires Inv(db) && ReadsOk(db) && Write(db, db', batch)
    ensures ReadsOk(db')
  {
    WriteAdds(db, db', batch);
    HorizonGrows(db, db', DoWrite(batch));
    var es := Stamped(db.last + 1, batch);
    var N := set e | e in es;
    forall u, s: nat | s >= db'.Horizon() ensures Read(db'.Total(), u, s) == Read(db'.Written(), u, s) {
      AddedReads(db.Total(), db.Written(), N, u, s);
    }
    hide Inv, Write, Stamped, Read;
  }

  lemma MoveContent(v: Version, c: nat, f: File)
    requires c + 1 < NUM_LEVELS && f in v[c]
    ensures Content(Replace(v, c, {f}, {}, {f})) == Content(v)
  {
    var w := Replace(v, c, {f}, {}, {f});
    assert {f} + {} == {f};
    AfterIsSubset(v, c, {f}, {}, {f});
    forall x | x in Content(v) ensures x in Content(w) {
      var i, g :| 0 <= i < NUM_LEVELS && g in v[i] && x in g.entries;
      if g == f { assert f in w[c + 1]; } else { assert g in w[i]; }
    }
  }

  lemma MoveKeepsReads(db: DB, db': DB, c: nat, f: File, lo: UserKey, hi: UserKey)
    requires ReadsOk(db) && TrivialMove(db, db', c, f, lo, hi)
    ensures ReadsOk(db')
  {
    MoveContent(db.v, c, f);
    assert db'.Total() == db.Total();
    HigherHorizon(db, db');
  }

  lemma JobSetting(db: DB, j: Job)
    requires Inv(db) && JobInputs(db.v, j)
    ensures Setting(db.Mems(), db.v, j.base, j.level, j.in0, j.in1)
  {
    WrittenDistinct(db);
  }

  lemma FinishKeepsReads(db: DB, db': DB, outs: set<File>)
    requires Inv(db) && ReadsOk(db) && Finish(db, db', outs) && JobSafe(db, db.job.value)
    ensures ReadsOk(db')
  {
    var j := db.job.value;
    JobSetting(db, j);
    ReadsPreservedIff(db.Mems(), db.v, j.base, j.level, j.in0, j.in1, outs, j.smallest);
  }

  lemma HigherHorizon(db: DB, db': DB)
    requires ReadsOk(db) && db'.Total() == db.Total() && db'.Written() == db.Written() && db.Horizon() <= db'.Horizon()
    ensures ReadsOk(db')
  {
  }

  lemma FlushKeepsReads(db: DB, db': DB, f: File, p: nat)
    requires Inv(db) && ReadsOk(db) && Flush(db, db', f, p)
    ensures ReadsOk(db')
  {
    if db.imm.value != {} { FlushKeepsAges(db, db', f, p); }
    HigherHorizon(db, db');
  }

  lemma NextKeepsReads(db: DB, db': DB, step: Step)
    requires Inv(db) && ReadsOk(db) && Next(db, db', step) && StepSafe(db, step)
    ensures ReadsOk(db')
  {
    HorizonGrows(db, db', step);
    hide ReadsOk, JobSafe, Write, Flush, Finish, OutputsOf, Chosen, Recency, NumbersBelow, JobInputs, GapFree, AgesOk;
    match step
    case DoWrite(batch) => WriteKeepsReads(db, db', batch);
    case DoSwitch => HigherHorizon(db, db');
    case DoFlush(f, p) => FlushKeepsReads(db, db', f, p);
    case DoMove(c, f, lo, hi) => MoveKeepsReads(db, db', c, f, lo, hi);
    case DoStart(c, in0, in1, lo, hi) => HigherHorizon(db, db');
    case DoReserve => HigherHorizon(db, db');
    case DoFinish(outs) => FinishKeepsReads(db, db', outs);
    case DoSnapshot => HigherHorizon(db, db');
    case DoRelease(i) => HigherHorizon(db, db');
  }

  // ----- whole runs

  lemma {:induction false} RecencyOverRuns(r: Run, i: nat)
    requires IsRun(r) && i < |r.states|
    ensures Inv(r.states[i])
  {
    if i == 0 {
      InitInv(r.states[0]);
    } else {
      RecencyOverRuns(r, i - 1);
      NextKeepsInv(r.states[i - 1], r.states[i], r.steps[i - 1]);
    }
  }

  lemma {:induction false} ReadsOverRuns(r: Run, i: nat)
    requires SafeRun(r) && i < |r.states|
    ensures ReadsOk(r.states[i])
  {
    RecencyOverRuns(r, i);
    if i > 0 {
      ReadsOverRuns(r, i - 1);
      RecencyOverRuns(r, i - 1);
      NextKeepsReads(r.states[i - 1], r.states[i], r.steps[i - 1]);
    } else {
      assert r.states[0].Total() == r.states[0].Written();
    }
  }

  lemma {:induction false} HistoryGrows(r: Run, i: nat, k: nat)
    requires IsRun(r) && i <= k < |r.states|
    ensures r.states[i].history <= r.states[k].history
  {
    if i < k {
      HistoryGrows(r, i, k - 1);
      assert Next(r.states[k - 1], r.states[k], r.steps[k - 1]);
    }
  }

  /** What was written after step i has a higher sequence number than the last one then. */
  lemma {:induction false} LaterNewer(r: Run, i: nat, k: nat, e: Entry)
    requires IsRun(r) && i <= k < |r.states| && e in r.states[k].history
    ensures (e in r.states[i].history || e.sn > r.states[i].last) && r.states[i].last <= r.states[k].last
  {
    if i < k {
      NewerWritten(r.states[k - 1], r.states[k], r.steps[k - 1], e);
      if e in r.states[k - 1].history {
        LaterNewer(r, i, k - 1, e);
      } else {
        LastGrows(r, i, k - 1);
      }
    }
  }

  lemma NewerWritten(db: DB, db': DB, step: Step, e: Entry)
    requires Next(db, db', step) && e in db'.history
    ensures (e in db.history || e.sn > db.last) && db.last <= db'.last
  {
    hide Chosen, OutputsOf, PlaceOk, LandsClear;
  }

  lemma {:induction false} LastGrows(r: Run, i: nat, k: nat)
    requires IsRun(r) && i <= k < |r.states|
    ensures r.states[i].last <= r.states[k].last
  {
    hide Next;
    if i < k {
      LastGrows(r, i, k - 1);
      StepLast(r.states[k - 1], r.states[k], r.steps[k - 1]);
    }
  }

  lemma StepLast(db: DB, db': DB, step: Step)
    requires Next(db, db', step)
    ensures db.last <= db'.last
  {
    hide Chosen, OutputsOf, PlaceOk, LandsClear;
  }

  /** A snapshot is repeatable: while it is live, reading at it gives what reading the latest
    data gave when it was taken, whatever was written, flushed or compacted in between. */
  lemma SnapshotsRepeatable(r: Run, i: nat, k: nat, u: UserKey)
    requires SafeRun(r) && i <= k < |r.states|
    requires r.states[i].Last() in r.states[k].snaps
    ensures Read(r.states[k].Total(), u, r.states[i].Last()) == Read(r.states[i].Total(), u, r.states[i].Last())
  {
    var a, b := r.states[i], r.states[k];
    var s := a.Last();
    ReadsOverRuns(r, i);
    ReadsOverRuns(r, k);
    RecencyOverRuns(r, i);
    RecencyOverRuns(r, k);
    HistoryGrows(r, i, k);
    WrittenDistinct(b);
    assert a.Written() <= b.Written();
    forall x | x in b.Written() && Sees(x, u, s) ensures x in a.Written() { LaterNewer(r, i, k, x); }
    SameVisible(a.Written(), b.Written(), u, s);
    assert b.Horizon() <= s;
  }
}
