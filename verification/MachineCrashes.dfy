/** Runs in which the process and the machine may crash at any point: what stays, and what reads give. */
module MachineCrashes {
  import opened DbFormat
  import opened Options
  import opened Versions
  import opened CompactionReads
  import opened Database
  import opened ReadsOverRuns
  import opened Recovery
  import opened Durability
  import opened Stored
  import opened Crashes

  // ----- what a machine crash cannot take away

  /** Entries that no table of the current manifest holds. */
  ghost function Loose(s: Sys): set<Entry> { s.db.mem + Elements(Inflight(s)) + if Flushing(s) then {} else s.db.Imm() }

  ghost predicate SyncedIn(s: Sys, e: Entry) {
    || (s.memLog in s.disk.logs && e in SyncedPart(s.disk.logs[s.memLog]))
    || (s.db.imm.Some? && !Flushing(s) && s.immLog in s.disk.logs && e in SyncedPart(s.disk.logs[s.immLog]))
  }

  /** Written, and in a log that was synced behind it if it is in a log only. */
  ghost predicate Durable(s: Sys, e: Entry) { e in Survived(s) && (e in Loose(s) ==> SyncedIn(s, e)) }

  lemma LooseIs(s: Sys)
    requires ManifestInv(s)
    ensures Settled(s).Mems() == Loose(s)
  {
    SettledParts(s);
  }

  lemma {:induction false} SyncedGrows(l: LogFile, r: Record, sync: bool)
    ensures SyncedPart(l) <= SyncedPart(LogFile(l.records + [r], if sync then |l.records| + 1 else l.synced))
  {
    var l' := LogFile(l.records + [r], if sync then |l.records| + 1 else l.synced);
    var k, k' := SyncedCount(l), SyncedCount(l');
    assert l.records[..k] == l'.records[..k'][..k];
    FlatPrefix(l'.records[..k'], k);
    hide Flat;
    var a, b := Flat(l.records[..k]), Flat(l'.records[..k']);
    forall e | e in SyncedPart(l) ensures e in SyncedPart(l') {
      var i :| 0 <= i < |a| && a[i] == e;
      assert b[i] == e;
    }
  }

  lemma AppendStays(s: Sys, s': Sys, batch: Batch, sync: bool, e: Entry)
    requires HistoryOk(s.db) && AppendTo(s, s', batch, sync) && Durable(s, e)
    ensures Durable(s', e)
  {
    var log := s.disk.logs[s.memLog];
    SyncedGrows(log, Record(s.db.last + 1, Stamped(s.db.last + 1, batch)), sync);
    WrittenDistinct(s.db);
    assert Inflight(s) == [] && Elements([]) == {} && Survived(s) == s.db.history;
    assert forall x :: x in Stamped(s.db.last + 1, batch) ==> x.sn > s.db.last;
    hide SyncedPart, Stamped;
    assert e in s.db.Written();
  }

  lemma ApplyStays(s: Sys, s': Sys, e: Entry)
    requires ApplyTo(s, s') && Durable(s, e)
    ensures Durable(s', e)
  {
    assert Inflight(s') == [] && Elements([]) == {};
    assert Elements(Inflight(s)) == set x | x in Inflight(s);
    hide SyncedPart, Stamped;
    assert Survived(s') == Survived(s) && Loose(s') <= Loose(s);
  }

  lemma RotateStays(s: Sys, s': Sys, e: Entry)
    requires ManifestInv(s) && LogsInv(s) && RotateTo(s, s') && Durable(s, e)
    ensures Durable(s', e)
  {
    NotFlushing(s);
    assert Inflight(s) == [] == Inflight(s') && Elements([]) == {};
    hide SyncedPart, ManifestInv;
    assert !Flushing(s') && Loose(s') == Loose(s);
  }

  /** The memtables, the logs in use and the history stay. */
  lemma QuietStays(s: Sys, s': Sys, e: Entry)
    requires Durable(s, e) && s'.db.history == s.db.history && s'.db.last == s.db.last && s'.db.mem == s.db.mem
        && s'.db.imm == s.db.imm
    requires s'.inflight == s.inflight && s'.memLog == s.memLog && s'.immLog == s.immLog && Flushing(s') == Flushing(s)
    requires s.memLog in s.disk.logs ==> s.memLog in s'.disk.logs && s'.disk.logs[s.memLog] == s.disk.logs[s.memLog]
    requires s.db.imm.Some? && s.immLog in s.disk.logs ==>
        s.immLog in s'.disk.logs && s'.disk.logs[s.immLog] == s.disk.logs[s.immLog]
    ensures Durable(s', e)
  {
    assert Inflight(s') == Inflight(s);
    hide SyncedPart, Flushing;
  }

  lemma CollectStays(s: Sys, s': Sys, e: Entry)
    requires LogsInv(s) && CollectTo(s, s') && Durable(s, e)
    ensures Durable(s', e)
  {
    hide Durable;
    QuietStays(s, s', e);
  }

  lemma EngineStays(s: Sys, s': Sys, step: Step, e: Entry)
    requires TablesInv(s) && EngineTo(s, s', step) && Durable(s, e)
    ensures Durable(s', e)
  {
    EngineFrame(s, s', step);
    hide Durable, EngineTo, Next;
    QuietStays(s, s', e);
  }

  /** The flushed memtable's entries are in a table of the new manifest. */
  lemma CommitStays(s: Sys, s': Sys, step: Step, e: Entry)
    requires SysInv(s) && CommitTo(s, s', step) && Durable(s, e)
    ensures Durable(s', e)
  {
    MemImmApart(s);
    CommitFrame(s, s', step);
    hide *;
    SamePartsStay(s, s', e);
  }

  lemma SamePartsStay(s: Sys, s': Sys, e: Entry)
    requires Durable(s, e) && s'.db == s.db && s'.disk.logs == s.disk.logs && s'.inflight == s.inflight
    requires s'.memLog == s.memLog && s'.immLog == s.immLog && !Flushing(s)
    requires s.db.imm.Some? ==>
        s.immLog in s.disk.logs && Elements(Flat(s.disk.logs[s.immLog].records)) !! s.db.mem + Elements(Inflight(s))
    ensures Durable(s', e)
  {
    hide Flushing, SyncedPart, Flat;
    assert Inflight(s') == Inflight(s) && Survived(s') == Survived(s);
    if s.db.imm.Some? { SyncedWithin(s.disk.logs[s.immLog]); }
  }

  lemma CommitFrame(s: Sys, s': Sys, step: Step)
    requires CommitTo(s, s', step)
    ensures s'.db == s.db && s'.disk.logs == s.disk.logs && s'.inflight == s.inflight && s'.memLog == s.memLog
        && s'.immLog == s.immLog
    ensures !Flushing(s)
  {
    hide Installable, After;
  }

  /** No entry of the immutable memtable's log is in the memtable or on its way there. */
  lemma MemImmApart(s: Sys)
    requires SysInv(s)
    ensures s.db.imm.Some? ==>
        s.immLog in s.disk.logs && Elements(Flat(s.disk.logs[s.immLog].records)) !! s.db.mem + Elements(Inflight(s))
  {
    assert AgesOk(s.db) && ContentsInv(s);
    MemWithin(s.db);
    hide Inv, ManifestInv, LastInv, TablesInv, LogsInv, RecordsOk, Recency;
    assert forall x :: x in Inflight(s) ==> x.sn > s.db.last;
    hide Stamped;
  }

  lemma InstallStays(s: Sys, s': Sys, e: Entry)
    requires ManifestInv(s) && InstallTo(s, s') && Durable(s, e)
    ensures Durable(s', e)
  {
    AfterHistory(s.db, s.commit.value);
    AfterImm(s.db, s.commit.value);
    AfterLast(s.db, s.commit.value);
    hide ManifestInv, After, SyncedPart;
    assert Inflight(s') == Inflight(s);
  }

  lemma AfterLast(db: DB, step: Step)
    ensures After(db, step).last == db.last
  {
  }

  lemma ReopenStays(s: Sys, s': Sys, d: Disk, left: Disk, logs: seq<Log>, e: Entry)
    requires SysInv(s) && ReopenTo(s, s', d, left, logs) && Durable(s, e)
    ensures Durable(s', e)
  {
    ReopenedContent(s, s', d, left, logs);
    ReopenedDb(s, s', d, left, logs);
    WithoutHas(Survived(s), Lost(s, s'.db.v));
    LooseIs(s);
    if e in Loose(s) { SyncedKept(s, d, logs, e); }
    NothingLoose(s, s', d, left, logs);
    hide SysInv, ReopenTo, Settled, SyncedIn, ReadBack, LogsFrom, Lost, Without, Survived, MaxOver, Content;
    assert e in s'.db.history;
  }

  lemma NothingLoose(s: Sys, s': Sys, d: Disk, left: Disk, logs: seq<Log>)
    requires ReopenTo(s, s', d, left, logs)
    ensures Loose(s') == {} && Survived(s') == s'.db.history
  {
    hide LogsFrom, Replay, Reopened, MaxOver, Without, Lost, LeftBy, Truncated;
    assert Inflight(s') == [] && Elements([]) == {};
    assert s'.db.history + [] == s'.db.history;
  }

  lemma SyncedKept(s: Sys, d: Disk, logs: seq<Log>, e: Entry)
    requires SysInv(s) && Truncated(s.disk, d) && LogsFrom(d, Current(s.disk).logNumber, logs) && SyncedIn(s, e)
    ensures e in ReadBack(logs)
  {
    MemLogReplayed(s);
    if s.db.imm.Some? && !Flushing(s) {
      ImmLogReplayed(s);
      SyncedReplayed(s.disk, d, Current(s.disk).logNumber, logs, s.immLog);
    }
    hide SysInv, SyncedPart, Flushing, LogsFrom, Truncated, FlatLogs, RecordsOf;
    SyncedReplayed(s.disk, d, Current(s.disk).logNumber, logs, s.memLog);
  }

  lemma EventStays(s: Sys, s': Sys, ev: Event, e: Entry)
    requires SysInv(s) && SysNext(s, s', ev) && Durable(s, e)
    ensures Durable(s', e)
  {
    assert Inv(s.db) && HistoryOk(s.db);
    hide Inv, HistoryOk, ManifestInv, LastInv, TablesInv, LogsInv, ContentsInv, Durable, AppendTo, ApplyTo, RotateTo,
        EngineTo, CommitTo, InstallTo, CollectTo, ReopenTo;
    match ev
    case Append(batch, sync) => AppendStays(s, s', batch, sync, e);
    case Apply => ApplyStays(s, s', e);
    case Rotate => RotateStays(s, s', e);
    case Engine(step) => EngineStays(s, s', step, e);
    case BuildOutput(f) => QuietStays(s, s', e);
    case Commit(step) => CommitStays(s, s', step, e);
    case Install => InstallStays(s, s', e);
    case Pin => QuietStays(s, s', e);
    case Unpin(keep) => QuietStays(s, s', e);
    case Collect => CollectStays(s, s', e);
    case Reopen(d, left, logs) => ReopenStays(s, s', d, left, logs, e);
  }

  /** What is durable at step i stays so at every later step, whatever crashes there are in between: it is in the
    history that counts, and in a memtable or a table unless no read that may come could need it. */
  lemma {:induction false} DurableForever(r: SysRun, i: nat, k: nat, e: Entry)
    requires IsSysRun(r) && i <= k < |r.states| && Durable(r.states[i], e)
    ensures Durable(r.states[k], e) && Accounted(Settled(r.states[k]), e)
    decreases k
  {
    hide SysInv, SysNext, SysInit, Durable, Accounted;
    SysInvOverRuns(r, k);
    if i < k {
      DurableForever(r, i, k - 1, e);
      SysInvOverRuns(r, k - 1);
      EventStays(r.states[k - 1], r.states[k], r.events[k - 1], e);
    }
    StoredOverRuns(r, k);
    DurableAccounted(r.states[k], e);
  }

  lemma DurableAccounted(s: Sys, e: Entry)
    requires SysInv(s) && AllAccounted(s.db) && Durable(s, e)
    ensures Accounted(Settled(s), e)
  {
    SettledStores(s);
    SettledHistory(s);
    hide SysInv, Settled, Accounted, Survived;
    assert e in Settled(s).Written();
  }

  /** A write acknowledged with sync is durable, and so is all that was written to the same log before. */
  lemma SyncMakesDurable(s: Sys, s': Sys, batch: Batch, e: Entry)
    requires SysInv(s) && AppendTo(s, s', batch, true) && e in s'.db.mem + Elements(Inflight(s'))
    ensures Durable(s', e)
  {
    AppendKeepsInv(s, s', batch, true);
    assert ContentsInv(s') && s'.memLog in s'.disk.logs;
    AllSynced(s'.disk.logs[s'.memLog]);
    MemSurvives(s', e);
    hide SysInv, ContentsInv, AppendTo, SyncedPart, Inflight, Survived, Flat;
  }

  lemma AllSynced(l: LogFile)
    requires l.synced >= |l.records|
    ensures SyncedPart(l) == Elements(Flat(l.records))
  {
    assert l.records[..|l.records|] == l.records;
  }

  lemma MemSurvives(s: Sys, e: Entry)
    requires SysInv(s) && e in s.db.mem + Elements(Inflight(s))
    ensures e in Survived(s) && s.memLog in s.disk.logs && e in Elements(Flat(s.disk.logs[s.memLog].records))
  {
    assert Inv(s.db) && ContentsInv(s);
    MemWithin(s.db);
    hide SysInv, Inv, RecordsOk;
  }

  // ----- reads

  /** No table of the compaction resurrects a value, even if nothing but the tables is left. */
  ghost predicate JobDiskSafe(db: DB, j: Job) {
    j.level + 1 < NUM_LEVELS && forall t :: !Resurrects({}, db.v, j.base, j.level, j.in0, j.in1, j.smallest, t)
  }

  ghost predicate StepDiskSafe(db: DB, step: Step) { step.DoFinish? && db.job.Some? ==> JobDiskSafe(db, db.job.value) }

  /** That is more than is asked of a run without machine crashes. */
  lemma DiskSafeIsSafe(db: DB, step: Step)
    requires StepDiskSafe(db, step) && (db.job.Some? ==>
        AreInputs(db.v, db.job.value.level, db.job.value.in0, db.job.value.in1))
    ensures StepSafe(db, step)
  {
    if step.DoFinish? && db.job.Some? {
      var j := db.job.value;
      forall t ensures !Resurrects(db.Mems(), db.v, j.base, j.level, j.in0, j.in1, j.smallest, t) {
        if t in FilesContent(j.in0 + j.in1) { var i, f := InputAt(db.v, j.level, j.in0, j.in1, t); }
        assert !Resurrects({}, db.v, j.base, j.level, j.in0, j.in1, j.smallest, t);
      }
    }
  }

  /** And it holds where no user key is split between an input and a file that stays one level down. */
  lemma NoSplitIsDiskSafe(db: DB, j: Job)
    requires j.level + 1 < NUM_LEVELS && NoSplit(db.v, j.level, j.in0, j.in1)
    ensures JobDiskSafe(db, j)
  {
    hide NoSplit, Resurrects;
    forall t ensures !Resurrects({}, db.v, j.base, j.level, j.in0, j.in1, j.smallest, t) {
      if Resurrects({}, db.v, j.base, j.level, j.in0, j.in1, j.smallest, t) {
        ResurrectionNeedsSplit({}, db.v, j.base, j.level, j.in0, j.in1, j.smallest, t);
      }
    }
  }

  ghost function Old(db: DB): set<Entry> { db.Written() - db.Mems() }

  /** The memtables hold the newest part of the history, and the tables read like the rest of it. */
  ghost predicate DiskReads(db: DB) {
    && (forall e, m :: e in Old(db) && m in db.Mems() ==> e.sn < m.sn)
    && forall u :: Read(Content(db.v), u, db.last) == Read(Old(db), u, db.last)
  }

  /** A read that sees everything is the same wherever it is made. */
  lemma SeesAll(A: set<Entry>, u: UserKey, s: nat, t: nat)
    requires Distinct(A) && forall e :: e in A ==> e.sn <= s && e.sn <= t
    ensures Read(A, u, s) == Read(A, u, t)
  {
    var r := Visible(A, u, s);
    if r.Some? { VisibleIs(A, r.value, u, t); }
  }

  lemma Parts(db: DB)
    requires Inv(db)
    ensures Content(db.v) <= Old(db) && db.Mems() <= db.Written() && Distinct(db.Written())
    ensures forall e :: e in db.Written() ==> e.sn <= db.last
  {
    WrittenDistinct(db);
    FromInv(db);
    hide Recency, NumbersBelow, JobOk, Content;
    assert db.Total() <= db.Written();
  }

  /** The tables and the old part of the history may grow by the same newer entries. */
  lemma GrowTogether(db: DB, db': DB, N: set<Entry>)
    requires Inv(db) && Inv(db') && DiskReads(db) && N <= db.Mems() && db.last <= db'.last
    requires Content(db'.v) == Content(db.v) + N && Old(db') == Old(db) + N
    requires forall e, m :: e in Old(db') && m in db'.Mems() ==> e.sn < m.sn
    ensures DiskReads(db')
  {
    Parts(db);
    Parts(db');
    hide Inv, Content, Read;
    forall u ensures Read(Content(db'.v), u, db'.last) == Read(Old(db'), u, db'.last) {
      SeesAll(Content(db.v), u, db.last, db'.last);
      SeesAll(Old(db), u, db.last, db'.last);
      AddedReads(Content(db.v), Old(db), N, u, db'.last);
    }
  }

  lemma SameParts(db: DB, db': DB)
    requires Inv(db) && Inv(db') && DiskReads(db) && db.last <= db'.last
    requires Content(db'.v) == Content(db.v) && Old(db') == Old(db)
        && forall e, m :: e in Old(db) && m in db'.Mems() ==> e.sn < m.sn
    ensures DiskReads(db')
  {
    hide Inv, Content, DiskReads;
    assert Content(db.v) + {} == Content(db.v) && Old(db) + {} == Old(db);
    GrowTogether(db, db', {});
  }

  lemma WriteKeepsDiskReads(db: DB, db': DB, batch: Batch)
    requires Inv(db) && Inv(db') && DiskReads(db) && Write(db, db', batch)
    ensures DiskReads(db')
  {
    var es := Stamped(db.last + 1, batch);
    var N := set e | e in es;
    Parts(db);
    assert HistoryOk(db);
    WriteKeepsHistory(db, db', batch);
    assert db'.Mems() == db.Mems() + N && db'.Written() == db.Written() + N;
    hide Inv, Content, Stamped, HistoryOk, Read;
    assert Old(db') == Old(db);
    SameParts(db, db');
  }

  lemma FlushKeepsDiskReads(db: DB, db': DB, f: File, p: nat)
    requires Inv(db) && Inv(db') && DiskReads(db) && Flush(db, db', f, p)
    ensures DiskReads(db')
  {
    FlushParts(db, db', f, p);
    hide Inv, Content, Flush, DiskReads;
    GrowTogether(db, db', db.Imm());
  }

  lemma FlushParts(db: DB, db': DB, f: File, p: nat)
    requires Inv(db) && DiskReads(db) && Flush(db, db', f, p)
    ensures Content(db'.v) == Content(db.v) + db.Imm() && Old(db') == Old(db) + db.Imm() && db'.last == db.last
        && db.Imm() <= db.Mems()
    ensures forall e, m :: e in Old(db') && m in db'.Mems() ==> e.sn < m.sn
  {
    assert AgesOk(db);
    Parts(db);
    if db.imm.value != {} { AddContent(db.v, p, f); }
    hide Inv, Content, PlaceOk, LandsClear, Read;
    assert db'.Mems() == db.mem && db'.Written() == db.Written();
    assert forall x :: x in db.mem ==> x !in db.Imm();
    assert Old(db') == Old(db) + db.Imm();
  }

  lemma FinishKeepsDiskReads(db: DB, db': DB, outs: set<File>)
    requires Inv(db) && DiskReads(db) && Finish(db, db', outs) && JobDiskSafe(db, db.job.value)
    ensures DiskReads(db')
  {
    var j := db.job.value;
    TableSetting(db, j);
    HorizonBelow(db);
    ReadsPreservedIff({}, db.v, j.base, j.level, j.in0, j.in1, outs, j.smallest);
    SmallestBelow(db, j);
    hide Inv, Content, Setting, Replace, Resurrects, Read, OutputsOf;
    assert {} + Content(db.v) == Content(db.v) && {} + Content(db'.v) == Content(db'.v);
    assert db'.last == db.last && Old(db') == Old(db) && db'.Mems() == db.Mems();
  }

  lemma SmallestBelow(db: DB, j: Job)
    requires Inv(db) && db.job == Some(j)
    ensures j.smallest <= db.Horizon()
  {
    hide Recency, NumbersBelow, AgesOk, JobInputs;
  }

  lemma TableSetting(db: DB, j: Job)
    requires Inv(db) && db.job == Some(j)
    ensures Setting({}, db.v, j.base, j.level, j.in0, j.in1)
  {
    Parts(db);
    assert JobInputs(db.v, j);
    hide HistoryOk, NumbersBelow, AgesOk, SnapsOk, Content, Recency;
    assert {} + Content(db.v) == Content(db.v);
  }

  lemma MoveKeepsDiskReads(db: DB, db': DB, c: nat, f: File, lo: UserKey, hi: UserKey)
    requires Inv(db) && Inv(db') && DiskReads(db) && TrivialMove(db, db', c, f, lo, hi)
    ensures DiskReads(db')
  {
    MoveContent(db.v, c, f);
    SameParts(db, db');
    hide Inv, Content, Read, Replace;
  }

  lemma NextKeepsDiskReads(db: DB, db': DB, step: Step)
    requires Inv(db) && DiskReads(db) && Next(db, db', step) && StepDiskSafe(db, step)
    ensures Inv(db') && DiskReads(db')
  {
    NextKeepsInv(db, db', step);
    hide Inv, DiskReads, JobDiskSafe, Write, Flush, TrivialMove, Finish;
    match step
    case DoWrite(batch) => WriteKeepsDiskReads(db, db', batch);
    case DoSwitch => SwitchKeepsDiskReads(db, db');
    case DoFlush(f, p) => FlushKeepsDiskReads(db, db', f, p);
    case DoMove(c, f, lo, hi) => MoveKeepsDiskReads(db, db', c, f, lo, hi);
    case DoStart(c, in0, in1, lo, hi) => SameMems(db, db');
    case DoReserve => SameMems(db, db');
    case DoFinish(outs) => FinishKeepsDiskReads(db, db', outs);
    case DoSnapshot => SameMems(db, db');
    case DoRelease(i) => SameMems(db, db');
  }

  lemma SwitchKeepsDiskReads(db: DB, db': DB)
    requires Inv(db) && Inv(db') && DiskReads(db) && Switch(db, db')
    ensures DiskReads(db')
  {
    hide Inv, Content, Read;
    assert db'.Mems() == db.Mems() && Old(db') == Old(db);
    SameParts(db, db');
  }

  lemma SameMems(db: DB, db': DB)
    requires DiskReads(db) && db'.v == db.v && db'.mem == db.mem && db'.imm == db.imm && db'.history == db.history
        && db'.last == db.last
    ensures DiskReads(db')
  {
    hide Content, Read;
    assert db'.Mems() == db.Mems() && Old(db') == Old(db);
  }

  // ----- a crash

  lemma SettledReads(s: Sys)
    requires SysInv(s) && DiskReads(s.db) && (s.commit.Some? ==> StepDiskSafe(s.db, s.commit.value))
    ensures DiskReads(Settled(s)) && Inv(Settled(s))
  {
    SettledInv(s);
    hide SysInv, Inv, ManifestInv, DiskReads, StepDiskSafe, Settled, Next;
    var db := After'(s);
    if s.commit.Some? { NextKeepsDiskReads(s.db, db, s.commit.value); }
    if s.inflight.Some? {
      WriteIsNext(db, Settled(s), s.inflight.value);
      WriteIsSafe(db, s.inflight.value);
      NextKeepsDiskReads(db, Settled(s), DoWrite(s.inflight.value));
    }
  }

  lemma WriteIsSafe(db: DB, batch: Batch)
    ensures StepDiskSafe(db, DoWrite(batch))
  {
  }

  /** What recovery reads back agrees with what is left of the history, whichever part of the logs is lost. */
  lemma ReopenReads(s: Sys, s': Sys, d: Disk, left: Disk, logs: seq<Log>)
    requires SysInv(s) && DiskReads(s.db) && (s.commit.Some? ==> StepDiskSafe(s.db, s.commit.value))
        && ReopenTo(s, s', d, left, logs)
    ensures DiskReads(s'.db) && ReadsOk(s'.db)
  {
    hide *;
    ManifestNow(s);
    SettledReads(s);
    ReopenedContent(s, s', d, left, logs);
    ReopenedDb(s, s', d, left, logs);
    VersionReopened(s, s', d, left, logs);
    SettledHistory(s);
    WithoutHas(Survived(s), Lost(s, s'.db.v));
    OldBelow(s, s', d, left, logs);
    AfterCut(Settled(s), s'.db, ReadBack(logs), Lost(s, s'.db.v));
  }

  lemma OldBelow(s: Sys, s': Sys, d: Disk, left: Disk, logs: seq<Log>)
    requires SysInv(s) && ReopenTo(s, s', d, left, logs)
    ensures forall e :: e in Settled(s).history && e !in Settled(s).Mems() ==> e.sn <= s'.db.last
  {
    ReopenedContent(s, s', d, left, logs);
    ReopenedDb(s, s', d, left, logs);
    hide SysInv, Settled, ReopenTo, LogsFrom, MaxOver, ReadBack, Lost, Without, Survived, Content, LeftBy;
    forall e | e in Settled(s).history && e !in Settled(s).Mems() ensures e.sn <= s'.db.last {
      CutOf(s, s', d, left, logs);
      KeptWithin(s, d, logs, e);
    }
  }

  lemma CutOf(s: Sys, s': Sys, d: Disk, left: Disk, logs: seq<Log>)
    requires ReopenTo(s, s', d, left, logs)
    ensures Truncated(s.disk, d)
  {
    hide LogsFrom, Replay, Reopened, MaxOver, Without, Lost, LeftBy, Truncated, Survived;
  }

  lemma AfterCut(db: DB, db': DB, N: set<Entry>, lost: set<Entry>)
    requires Inv(db) && DiskReads(db) && Inv(db') && N <= db.Mems() && lost == db.Mems() - N
    requires db'.Mems() == {} && db'.Total() == Content(db'.v) == Content(db.v) + N && db'.Horizon() == db'.last
    requires forall e :: e in db'.history <==> e in db.history && e !in lost
    requires forall e :: e in db.history && e !in db.Mems() ==> e.sn <= db'.last
    ensures DiskReads(db') && ReadsOk(db')
  {
    Parts(db);
    Parts(db');
    CutParts(db, db', N, lost);
    hide Inv, Content, Read;
    forall u, s: nat | s >= db'.last ensures Read(Content(db'.v), u, s) == Read(Old(db'), u, s) {
      SeesAll(Content(db.v), u, db.last, s);
      SeesAll(Old(db), u, db.last, s);
      AddedReads(Content(db.v), Old(db), N, u, s);
    }
    assert Old(db') == db'.Written();
  }

  lemma CutParts(db: DB, db': DB, N: set<Entry>, lost: set<Entry>)
    requires N <= db.Mems() <= db.Written() && lost == db.Mems() - N && db'.Mems() == {}
    requires forall e :: e in db'.history <==> e in db.history && e !in lost
    ensures Old(db') == Old(db) + N == db'.Written()
  {
  }

  // ----- whole runs

  ghost predicate EventDiskSafe(s: Sys, ev: Event) {
    (ev.Install? || ev.Reopen?) && s.commit.Some? ==> StepDiskSafe(s.db, s.commit.value)
  }

  ghost predicate DiskSafeRun(r: SysRun) {
    IsSysRun(r) && forall i :: 0 <= i < |r.events| ==> EventDiskSafe(r.states[i], r.events[i])
  }

  lemma RotateKeepsDiskReads(s: Sys, s': Sys)
    requires Inv(s.db) && DiskReads(s.db) && RotateTo(s, s')
    ensures DiskReads(s'.db)
  {
    SwitchKeepsInv(s.db, s'.db);
    hide Inv, DiskReads;
    SwitchKeepsDiskReads(s.db, s'.db);
  }

  lemma EngineKeepsDiskReads(s: Sys, s': Sys, step: Step)
    requires Inv(s.db) && DiskReads(s.db) && EngineTo(s, s', step)
    ensures DiskReads(s'.db)
  {
    EngineStepSafe(s, s', step);
    EngineDiskSafe(s, s', step);
    hide Inv, DiskReads, EngineTo, Next, StepDiskSafe;
    NextKeepsDiskReads(s.db, s'.db, step);
  }

  lemma EngineDiskSafe(s: Sys, s': Sys, step: Step)
    requires EngineTo(s, s', step)
    ensures StepDiskSafe(s.db, step)
  {
    hide Next;
  }

  lemma InstallKeepsDiskReads(s: Sys, s': Sys)
    requires SysInv(s) && DiskReads(s.db) && InstallTo(s, s') && StepDiskSafe(s.db, s.commit.value)
    ensures DiskReads(s'.db)
  {
    hide Inv, DiskReads, LastInv, TablesInv, LogsInv, ContentsInv, NumbersBelow, After, StepDiskSafe;
    NextKeepsDiskReads(s.db, s'.db, s.commit.value);
  }

  lemma EventKeepsDiskReads(s: Sys, s': Sys, ev: Event)
    requires SysInv(s) && DiskReads(s.db) && SysNext(s, s', ev) && EventDiskSafe(s, ev)
    ensures DiskReads(s'.db)
  {
    assert Inv(s.db);
    hide SysInv, Inv, DiskReads, StepDiskSafe, Write, Switch, EngineTo, CommitTo, ReopenTo, CollectTo;
    match ev
    case Append(batch, sync) =>
    case Apply =>
      WriteKeepsInv(s.db, s'.db, s.inflight.value);
      WriteKeepsDiskReads(s.db, s'.db, s.inflight.value);
    case Rotate => RotateKeepsDiskReads(s, s');
    case Engine(step) => EngineKeepsDiskReads(s, s', step);
    case BuildOutput(f) =>
    case Commit(step) => CommitSameDb(s, s', step);
    case Install => InstallKeepsDiskReads(s, s');
    case Pin =>
    case Unpin(keep) =>
    case Collect => CollectSameDb(s, s');
    case Reopen(d, left, logs) => ReopenReads(s, s', d, left, logs);
  }

  /** A commit that is safe on the disk is safe for a run without machine crashes. */
  lemma CommitSafe(s: Sys, ev: Event)
    requires SysInv(s) && EventDiskSafe(s, ev)
    ensures EventSafe(s, ev)
  {
    if s.commit.Some? && (ev.Install? || ev.Reopen?) {
      JobIsInputs(s.db);
      DiskSafeIsSafe(s.db, s.commit.value);
    }
    hide SysInv, StepDiskSafe, StepSafe;
  }

  lemma JobIsInputs(db: DB)
    requires Inv(db)
    ensures db.job.Some? ==> AreInputs(db.v, db.job.value.level, db.job.value.in0, db.job.value.in1)
  {
    hide Recency, NumbersBelow, AgesOk, HistoryOk, SnapsOk;
  }

  lemma InitReads(s: Sys)
    requires SysInit(s)
    ensures DiskReads(s.db)
  {
    assert Content(s.db.v) == {} && Old(s.db) == {};
  }

  /** In every state of a run with crashes of the process and of the machine anywhere, reads agree with the history that
    counts, if no compaction is installed or recovered that would resurrect a value from the tables alone. */
  lemma {:induction false} ReadsOverAllCrashes(r: SysRun, i: nat)
    requires DiskSafeRun(r) && i < |r.states|
    ensures ReadsOk(r.states[i].db) && DiskReads(r.states[i].db)
    decreases i
  {
    hide SysInv, SysInit, SysNext, ReadsOk, DiskReads, EventDiskSafe;
    if i == 0 {
      SysInitInv(r.states[0]);
      InitReads(r.states[0]);
    } else {
      ReadsOverAllCrashes(r, i - 1);
      SysInvOverRuns(r, i - 1);
      StepReads(r.states[i - 1], r.states[i], r.events[i - 1]);
    }
  }

  lemma StepReads(s: Sys, s': Sys, ev: Event)
    requires SysInv(s) && ReadsOk(s.db) && DiskReads(s.db) && SysNext(s, s', ev) && EventDiskSafe(s, ev)
    ensures ReadsOk(s'.db) && DiskReads(s'.db)
  {
    EventKeepsDiskReads(s, s', ev);
    CommitSafe(s, ev);
    if ev.Reopen? {
      ReopenReads(s, s', ev.d, ev.left, ev.logs);
    } else {
      EventKeepsReads(s, s', ev);
    }
    hide SysInv, ReadsOk, DiskReads, EventSafe, ReopenTo;
  }

  /** A value that was durable at step i is what every later read gives that sees it and nothing newer of its key. */
  lemma DurableIsRead(r: SysRun, i: nat, k: nat, e: Entry, s: nat)
    requires DiskSafeRun(r) && i <= k < |r.states| && Durable(r.states[i], e) && e.op.Put?
        && r.states[k].inflight == None
    requires r.states[k].db.Horizon() <= s && e.sn <= s
    requires forall x :: x in r.states[k].db.history && x.user == e.user && e.sn < x.sn ==> x.sn > s
    ensures Read(r.states[k].db.Total(), e.user, s) == Some(e.op.value)
  {
    DurableForever(r, i, k, e);
    ReadsOverAllCrashes(r, k);
    SysInvOverRuns(r, k);
    assert Inv(r.states[k].db);
    assert Inflight(r.states[k]) == [] && r.states[k].db.history + [] == r.states[k].db.history;
    hide DiskSafeRun, IsSysRun, SysInv, Inv, ReadsOk, DiskReads;
    WrittenIsRead(r.states[k].db, e, s);
  }
}
