/** What clients see over runs with crashes: the map survives crashes of the process whole, and every synced write
  survives crashes of the machine. */
module CrashView {
  import opened DbFormat
  import opened Options
  import opened Versions
  import opened CompactionReads
  import opened Choosing
  import opened Database
  import opened ReadsOverRuns
  import opened Recovery
  import opened Durability
  import opened Crashes
  import opened MachineCrashes
  import opened ClientView

  /** The client's view and the batch that is logged but not yet to be seen. */
  datatype Standing = Standing(view: View, pending: Option<Batch>)

  function WithPending(w: Standing): Store {
    if w.pending.Some? then DoAll(w.view.store, w.pending.value) else w.view.store
  }

  /** Snapshots do not outlive the process; a batch that was logged does. */
  function AfterEvent(w: Standing, ev: Event): Standing {
    match ev
    case Append(batch, _) => w.(pending := Some(batch))
    case Apply => Standing(w.view.(store := WithPending(w)), None)
    case Engine(step) => w.(view := AfterStep(w.view, step))
    case Reopen(_, _, _) => Standing(View(WithPending(w), []), None)
    case _ => w
  }

  function StandingOf(events: seq<Event>): Standing {
    if events == [] then Standing(EMPTY, None)
    else AfterEvent(StandingOf(events[..|events| - 1]), events[|events| - 1])
  }

  ghost predicate Stands(s: Sys, w: Standing) {
    Shows(s.db, s.db.Written(), w.view) && s.inflight == w.pending
  }

  // ----- one event

  lemma SameDb(s: Sys, s': Sys, w: Standing)
    requires Stands(s, w) && s'.db == s.db && s'.inflight == s.inflight
    ensures Stands(s', w)
  {
  }

  lemma SameWritten(s: Sys, s': Sys, w: Standing)
    requires Stands(s, w) && s'.inflight == s.inflight
    requires s'.db.history == s.db.history && s'.db.last == s.db.last && s'.db.snaps == s.db.snaps
    ensures Stands(s', w)
  {
    hide Read;
  }

  lemma ApplyStands(s: Sys, s': Sys, w: Standing)
    requires Inv(s.db) && Stands(s, w) && ApplyTo(s, s')
    ensures Stands(s', AfterEvent(w, Apply))
  {
    hide Inv, Shows, Write;
    WriteShows(s.db, s'.db, s.inflight.value, w.view);
  }

  lemma EngineStands(s: Sys, s': Sys, w: Standing, step: Step)
    requires Inv(s.db) && Stands(s, w) && EngineTo(s, s', step)
    ensures Stands(s', AfterEvent(w, Engine(step)))
  {
    EngineStepSafe(s, s', step);
    hide Inv, Shows, Next, StepSafe;
    StepShows(s.db, s'.db, step, w.view);
  }

  lemma InstallStands(s: Sys, s': Sys, w: Standing)
    requires Stands(s, w) && InstallTo(s, s')
    ensures Stands(s', w)
  {
    AfterHistory(s.db, s.commit.value);
    AfterLast(s.db, s.commit.value);
    hide Stands, After;
    SameWritten(s, s', w);
  }

  /** The database as it would be had the write under way gone through. */
  ghost function Finished(s: Sys): DB {
    s.db.(history := s.db.history + Inflight(s), last := s.db.last + |Inflight(s)|,
          mem := s.db.mem + Elements(Inflight(s)))
  }

  lemma FinishedShows(s: Sys, w: Standing)
    requires Inv(s.db) && Stands(s, w)
    ensures ReadsAs(Finished(s).Written(), Finished(s).last, WithPending(w))
  {
    if s.inflight.Some? {
      assert Write(s.db, Finished(s), s.inflight.value);
      hide Inv, Write, ReadsAs, DoAll;
      WriteShowsStore(s.db, Finished(s), s.inflight.value, w.view.store);
    } else {
      assert Finished(s).Written() == s.db.Written();
    }
  }

  lemma ReopenedParts(s: Sys, s': Sys, left: Disk, logs: seq<Log>)
    requires SysInv(s) && ReopenTo(s, s', s.disk, left, logs)
    ensures s'.db.history == Finished(s).history && s'.db.last == Finished(s).last && s'.db.snaps == []
        && s'.inflight == None
  {
    ProcessCrash(s, s', left, logs);
    SettledHistory(s);
    SettledLast(s);
    OpenedEmpty(s, s', left, logs);
    hide SysInv, Settled, ReopenTo, Stamped;
  }

  lemma OpenedEmpty(s: Sys, s': Sys, left: Disk, logs: seq<Log>)
    requires ReopenTo(s, s', s.disk, left, logs)
    ensures s'.db.snaps == [] && s'.inflight == None
  {
    hide LogsFrom, Replay, Reopened, MaxOver, Without, Lost, LeftBy, Truncated, Survived;
  }

  lemma ReopenStands(s: Sys, s': Sys, left: Disk, logs: seq<Log>, w: Standing)
    requires SysInv(s) && Stands(s, w) && ReopenTo(s, s', s.disk, left, logs)
    ensures Stands(s', AfterEvent(w, Reopen(s.disk, left, logs)))
  {
    hide *;
    InvOf(s);
    FinishedShows(s, w);
    ReopenedParts(s, s', left, logs);
    NothingTaken(s', Finished(s), WithPending(w));
    ReopenedStanding(w, s.disk, left, logs);
  }

  lemma ReopenedStanding(w: Standing, crashed: Disk, left: Disk, logs: seq<Log>)
    ensures AfterEvent(w, Reopen(crashed, left, logs)) == Standing(View(WithPending(w), []), None)
  {
  }

  lemma InvOf(s: Sys)
    requires SysInv(s)
    ensures Inv(s.db)
  {
  }

  lemma NothingTaken(s': Sys, db: DB, m: Store)
    requires s'.db.history == db.history && s'.db.last == db.last && s'.db.snaps == [] && s'.inflight == None
    requires ReadsAs(db.Written(), db.last, m)
    ensures Stands(s', Standing(View(m, []), None))
  {
    hide ReadsAs;
    assert s'.db.Written() == db.Written();
  }

  lemma EventStands(s: Sys, s': Sys, ev: Event, w: Standing)
    requires SysInv(s) && Stands(s, w) && SysNext(s, s', ev) && MachineUp(s, ev)
    ensures Stands(s', AfterEvent(w, ev))
  {
    assert Inv(s.db);
    hide SysInv, Inv, Shows, ApplyTo, EngineTo, CommitTo, InstallTo, ReopenTo, Spared, Switch;
    match ev
    case Append(batch, sync) =>
    case Apply => ApplyStands(s, s', w);
    case Rotate => RotateStands(s, s', w);
    case Engine(step) => EngineStands(s, s', w, step);
    case BuildOutput(f) =>
    case Commit(step) => CommitStands(s, s', step, w);
    case Install => InstallStands(s, s', w);
    case Pin =>
    case Unpin(keep) =>
    case Collect =>
    case Reopen(d, left, logs) => ReopenStands(s, s', left, logs, w);
  }

  lemma RotateStands(s: Sys, s': Sys, w: Standing)
    requires Stands(s, w) && RotateTo(s, s')
    ensures Stands(s', w)
  {
    hide Stands;
    SameWritten(s, s', w);
  }

  lemma CommitStands(s: Sys, s': Sys, step: Step, w: Standing)
    requires Stands(s, w) && CommitTo(s, s', step)
    ensures Stands(s', w)
  {
    hide Stands, Installable, After;
    SameDb(s, s', w);
  }

  // ----- runs with crashes of the process

  lemma {:induction false} StandsOverRuns(r: SysRun, i: nat)
    requires ProcessRun(r) && i < |r.states|
    ensures Stands(r.states[i], StandingOf(r.events[..i]))
  {
    hide SysInv, SysNext, Stands, MachineUp;
    if i == 0 {
      assert r.events[..0] == [];
      InitStands(r.states[0]);
    } else {
      StandsOverRuns(r, i - 1);
      SysInvOverRuns(r, i - 1);
      assert r.events[..i][..i - 1] == r.events[..i - 1];
      EventStands(r.states[i - 1], r.states[i], r.events[i - 1], StandingOf(r.events[..i - 1]));
    }
  }

  lemma InitStands(s: Sys)
    requires SysInit(s)
    ensures Stands(s, Standing(EMPTY, None))
  {
    assert s.db.Written() == {};
  }

  /** Over every run with crashes of the process at any point the database is the map that the batches written so far
    leave, with its copies for the snapshots taken since the last crash. */
  lemma RefinesMapOverCrashes(r: SysRun, i: nat)
    requires SafeSysRun(r) && i < |r.states|
    ensures Shows(r.states[i].db, r.states[i].db.Total(), StandingOf(r.events[..i]).view)
  {
    StandsOverRuns(r, i);
    SysInvOverRuns(r, i);
    ReadsOverCrashes(r, i);
    assert Inv(r.states[i].db);
    hide Inv, SysInv, SafeSysRun, ReadsOk, Shows;
    HistoryShown(r.states[i].db, StandingOf(r.events[..i]).view);
  }

  ghost predicate Touches(batch: Batch, u: UserKey) { exists k :: 0 <= k < |batch| && batch[k].0 == u }

  /** One batch at a time, and none past the log. */
  ghost predicate Orderly(w: Standing, ev: Event) {
    (ev.Append? ==> w.pending.None?) && (ev.Engine? ==> !ev.step.DoWrite?)
  }

  lemma {:induction false} PendingKept(events: seq<Event>, i: nat, k: nat, u: UserKey)
    requires i <= k <= |events|
    requires forall m :: i <= m < k && events[m].Append? ==> !Touches(events[m].batch, u)
    requires forall m :: i <= m < k ==> Orderly(StandingOf(events[..m]), events[m])
    ensures Found(WithPending(StandingOf(events[..k])), u) == Found(WithPending(StandingOf(events[..i])), u)
    decreases k
  {
    hide WithPending, AfterEvent, Orderly, Touches;
    if i < k {
      PendingKept(events, i, k - 1, u);
      assert events[..k][..k - 1] == events[..k - 1];
      PendingStep(StandingOf(events[..k - 1]), events[k - 1], u);
    }
  }

  lemma PendingStep(w: Standing, ev: Event, u: UserKey)
    requires Orderly(w, ev) && (ev.Append? ==> !Touches(ev.batch, u))
    ensures Found(WithPending(AfterEvent(w, ev)), u) == Found(WithPending(w), u)
  {
    if ev.Append? { OtherKeys(w.view.store, ev.batch, u); }
    hide DoAll, Touches;
  }

  lemma RunsOrderly(r: SysRun, m: nat)
    requires ProcessRun(r) && m < |r.events|
    ensures Orderly(StandingOf(r.events[..m]), r.events[m])
  {
    StandsOverRuns(r, m);
    assert SysNext(r.states[m], r.states[m + 1], r.events[m]);
    hide Shows, ProcessRun;
  }

  /** The last operation on a key of a batch is what reading the key gives from then on, process crashes included, until
    a later batch writes the key again. */
  lemma ReadsBack(r: SysRun, i: nat, k: nat, j: nat)
    requires SafeSysRun(r) && i < k < |r.states| && r.events[i].Append? && r.states[k].inflight == None
    requires var batch := r.events[i].batch;
             && j < |batch| && (forall m :: j < m < |batch| ==> batch[m].0 != batch[j].0)
             && forall m :: i < m < k && r.events[m].Append? ==> !Touches(r.events[m].batch, batch[j].0)
    ensures var op := r.events[i].batch[j];
            Read(r.states[k].db.Total(), op.0, r.states[k].db.last) == if op.1.Put? then Some(op.1.value) else None
  {
    var batch := r.events[i].batch;
    forall m | i <= m < k ensures Orderly(StandingOf(r.events[..m]), r.events[m]) { RunsOrderly(r, m); }
    assert r.events[..i + 1][..i] == r.events[..i];
    var w := StandingOf(r.events[..i]);
    LastOperation(w.view.store, batch, j);
    PendingKept(r.events, i + 1, k, batch[j].0);
    StandsOverRuns(r, k);
    RefinesMapOverCrashes(r, k);
    hide SafeSysRun, Read, StandingOf, DoAll, Touches;
  }

  // ----- runs with crashes of the machine

  /** Nothing of u above n will count. */
  ghost predicate NoneAbove(s: Sys, u: UserKey, n: nat) { forall x :: x in Survived(s) && x.user == u ==> x.sn <= n }

  lemma AppendAdds(s: Sys, s': Sys, batch: Batch, sync: bool)
    requires AppendTo(s, s', batch, sync)
    ensures Survived(s) == s.db.history && Survived(s') == s.db.history + Stamped(s.db.last + 1, batch)
  {
    assert s.db.history + [] == s.db.history;
  }

  lemma EventAdds(s: Sys, s': Sys, ev: Event, u: UserKey, n: nat)
    requires SysInv(s) && SysNext(s, s', ev) && NoneAbove(s, u, n) && (ev.Append? ==> !Touches(ev.batch, u))
    ensures NoneAbove(s', u, n)
  {
    hide SysInv, EngineTo, CommitTo, InstallTo, ReopenTo, Spared, Switch, Survived;
    match ev
    case Append(batch, sync) =>
      AppendAdds(s, s', batch, sync);
      assert forall x :: x in Stamped(s.db.last + 1, batch) ==> Touches(batch, x.user);
    case Apply => ApplySame(s, s');
    case Rotate => RotateSame(s, s');
    case Engine(step) => EngineSame(s, s', step);
    case BuildOutput(f) => SameSurvived(s, s');
    case Commit(step) => CommitSame(s, s', step);
    case Install => InstallSame(s, s');
    case Pin => SameSurvived(s, s');
    case Unpin(keep) => SameSurvived(s, s');
    case Collect => SameSurvived(s, s');
    case Reopen(d, left, logs) => ReopenFewer(s, s', d, left, logs);
  }

  lemma SameSurvived(s: Sys, s': Sys)
    requires s'.db.history == s.db.history && s'.db.last == s.db.last && s'.inflight == s.inflight
    ensures Survived(s') == Survived(s)
  {
  }

  lemma ApplySame(s: Sys, s': Sys)
    requires ApplyTo(s, s')
    ensures Survived(s') == Survived(s)
  {
    hide Stamped;
    assert s'.db.history + [] == s'.db.history;
  }

  lemma RotateSame(s: Sys, s': Sys)
    requires RotateTo(s, s')
    ensures Survived(s') == Survived(s)
  {
    hide Stamped;
  }

  lemma EngineSame(s: Sys, s': Sys, step: Step)
    requires EngineTo(s, s', step)
    ensures Survived(s') == Survived(s)
  {
    hide Chosen, Stamped;
  }

  lemma CommitSame(s: Sys, s': Sys, step: Step)
    requires CommitTo(s, s', step)
    ensures Survived(s') == Survived(s)
  {
    hide Installable, After, Stamped;
  }

  lemma InstallSame(s: Sys, s': Sys)
    requires InstallTo(s, s')
    ensures Survived(s') == Survived(s)
  {
    AfterHistory(s.db, s.commit.value);
    AfterLast(s.db, s.commit.value);
    hide After, Stamped;
  }

  lemma ReopenFewer(s: Sys, s': Sys, d: Disk, left: Disk, logs: seq<Log>)
    requires SysInv(s) && ReopenTo(s, s', d, left, logs)
    ensures forall x :: x in Survived(s') ==> x in Survived(s)
  {
    NothingLoose(s, s', d, left, logs);
    ReopenedDb(s, s', d, left, logs);
    WithoutHas(Survived(s), Lost(s, s'.db.v));
    hide SysInv, ReopenTo, Survived, Without, Lost, MaxOver;
  }

  lemma {:induction false} NoneAboveStays(r: SysRun, i: nat, k: nat, u: UserKey, n: nat)
    requires IsSysRun(r) && i <= k < |r.states| && NoneAbove(r.states[i], u, n)
    requires forall m :: i <= m < k && r.events[m].Append? ==> !Touches(r.events[m].batch, u)
    ensures NoneAbove(r.states[k], u, n)
    decreases k
  {
    hide SysInv, SysInit, SysNext, NoneAbove, Touches;
    if i < k {
      NoneAboveStays(r, i, k - 1, u, n);
      SysInvOverRuns(r, k - 1);
      EventAdds(r.states[k - 1], r.states[k], r.events[k - 1], u, n);
    }
  }

  lemma SyncedEntry(s: Sys, s': Sys, batch: Batch, j: nat) returns (e: Entry)
    requires SysInv(s) && AppendTo(s, s', batch, true)
    requires j < |batch| && forall k :: j < k < |batch| ==> batch[k].0 != batch[j].0
    ensures e.user == batch[j].0 && e.op == batch[j].1 && Durable(s', e) && NoneAbove(s', e.user, e.sn)
  {
    e := Entry(batch[j].0, s.db.last + 1 + j, batch[j].1);
    assert Stamped(s.db.last + 1, batch)[j] == e;
    InInflight(s, s', batch, e);
    SyncMakesDurable(s, s', batch, e);
    AppendAdds(s, s', batch, true);
    HistoryBelow(s);
    hide SysInv, AppendTo, Durable;
  }

  lemma InInflight(s: Sys, s': Sys, batch: Batch, e: Entry)
    requires AppendTo(s, s', batch, true) && e in Stamped(s.db.last + 1, batch)
    ensures e in Elements(Inflight(s'))
  {
    hide Stamped;
  }

  lemma HistoryBelow(s: Sys)
    requires SysInv(s)
    ensures forall x :: x in s.db.history ==> x.sn <= s.db.last
  {
    assert HistoryOk(s.db);
    hide ManifestInv, LastInv, TablesInv, LogsInv, ContentsInv, AgesOk, Recency, NumbersBelow, JobOk;
  }

  /** The last operation on a key of a batch that was written with sync is what reading the key gives, whatever crashes
    of the process and of the machine come in between, until a later batch writes the key again. */
  lemma SyncedWriteIsRead(r: SysRun, i: nat, k: nat, batch: Batch, j: nat)
    requires DiskSafeRun(r) && i < k < |r.states| && r.events[i] == Append(batch, true) && r.states[k].inflight == None
    requires j < |batch| && forall m :: j < m < |batch| ==> batch[m].0 != batch[j].0
    requires forall m :: i < m < k && r.events[m].Append? ==> !Touches(r.events[m].batch, batch[j].0)
    ensures Read(r.states[k].db.Total(), batch[j].0, r.states[k].db.last) ==
            if batch[j].1.Put? then Some(batch[j].1.value) else None
  {
    SysInvOverRuns(r, i);
    var e := SyncedEntry(r.states[i], r.states[i + 1], batch, j);
    NoneAboveStays(r, i + 1, k, e.user, e.sn);
    DurableForever(r, i + 1, k, e);
    ReadsOverAllCrashes(r, k);
    SysInvOverRuns(r, k);
    hide DiskSafeRun, IsSysRun;
    NewestIsRead(r.states[k], e);
  }

  lemma NewestIsRead(s: Sys, e: Entry)
    requires SysInv(s) && ReadsOk(s.db) && Durable(s, e) && NoneAbove(s, e.user, e.sn) && s.inflight == None
    ensures Read(s.db.Total(), e.user, s.db.last) == Answer(Some(e))
  {
    assert Inv(s.db) && s.db.history + [] == s.db.history;
    HistoryBelow(s);
    HorizonBelow(s.db);
    WrittenDistinct(s.db);
    hide SysInv, Inv, HistoryOk;
    VisibleIs(s.db.Written(), e, e.user, s.db.last);
  }
}
