/** The engine as a state machine: writes, switches, flushes, moves, interleaved merge compactions, snapshots. */
module Database {
  import opened DbFormat
  import opened Options
  import opened Versions
  import opened CompactionReads
  import opened Choosing

  /** A merge compaction under way: its inputs, its input version, smallest_snapshot, and the numbers of its output
    files. */
  datatype Job = Job(level: nat, in0: set<File>, in1: set<File>, base: Version, smallest: nat, reserved: set<nat>)

  datatype DB = DB(
    history: seq<Entry>,          // every entry ever written, oldest first
    last: nat,                    // LastSequence
    mem: set<Entry>,
    imm: Option<set<Entry>>,
    v: Version,
    snaps: seq<nat>,              // live snapshots, oldest first
    nextFile: nat,
    job: Option<Job>
  ) {
    function Last(): nat { last }

    /** smallest_snapshot as a compaction started now would compute it. */
    function Horizon(): nat { if snaps == [] then Last() else snaps[0] }

    ghost function Imm(): set<Entry> { if imm.Some? then imm.value else {} }

    ghost function Mems(): set<Entry> { mem + Imm() }

    ghost function Total(): set<Entry> { Mems() + Content(v) }

    ghost function Written(): set<Entry> { set e | e in history }
  }

  ghost function Inputs(j: Job): set<Entry> { FilesContent(j.in0 + j.in1) }

  /** The input entries that survive the compaction. */
  ghost function ToKeep(j: Job): set<Entry> { Kept(j.base, j.level, Inputs(j), j.smallest) }

  // ----- steps

  ghost predicate Init(db: DB) {
    db.history == [] && db.last == 0 && db.mem == {} && db.imm == None && db.v == seq(NUM_LEVELS, i => {}) &&
    db.snaps == [] && db.job == None
  }

  type Batch = seq<(UserKey, Op)>

  /** The batch's operations get the sequence numbers that follow the last one, in order. */
  function Stamped(first: nat, batch: Batch): seq<Entry> {
    seq(|batch|, i requires 0 <= i < |batch| => Entry(batch[i].0, first + i, batch[i].1))
  }

  ghost predicate Write(db: DB, db': DB, batch: Batch) {
    var es := Stamped(db.Last() + 1, batch);
    db' == db.(history := db.history + es, last := db.last + |batch|, mem := db.mem + (set e | e in es))
  }

  /** A new log takes a file number. */
  ghost predicate Switch(db: DB, db': DB) {
    db.imm == None && db' == db.(imm := Some(db.mem), mem := {}, nextFile := db.nextFile + 1)
  }

  /** A table does not land between entries that a running compaction is about to put at its level. */
  ghost predicate LandsClear(db: DB, f: File, p: nat) {
    db.job.Some? && p == db.job.value.level + 1 ==> Clear(f, ToKeep(db.job.value))
  }

  /** An empty memtable makes no table. */
  ghost predicate Flush(db: DB, db': DB, f: File, p: nat) {
    && db.imm.Some?
    && (if db.imm.value == {} then db' == db.(imm := None, nextFile := db.nextFile + 1)
        else
          && FilesContent({f}) == db.imm.value && f.number == db.nextFile && PlaceOk(db.v, f, p) && LandsClear(db, f, p)
          && db' == db.(imm := None, v := AddAt(db.v, p, f), nextFile := db.nextFile + 1))
  }

  ghost predicate TrivialMove(db: DB, db': DB, c: nat, f: File, lo: UserKey, hi: UserKey) {
    && db.job == None && Chosen(db.v, c, {f}, {}, lo, hi)
    && db' == db.(v := Replace(db.v, c, {f}, {}, {f}))
  }

  ghost predicate Start(db: DB, db': DB, c: nat, in0: set<File>, in1: set<File>, lo: UserKey, hi: UserKey) {
    && db.job == None && Chosen(db.v, c, in0, in1, lo, hi)
    && db' == db.(job := Some(Job(c, in0, in1, db.v, db.Horizon(), {})))
  }

  /** The compaction opens an output file. */
  ghost predicate Reserve(db: DB, db': DB) {
    && db.job.Some?
    && db' == db.(nextFile := db.nextFile + 1,
                  job := Some(db.job.value.(reserved := db.job.value.reserved + {db.nextFile})))
  }

  /** The outputs are new files, apart from each other, that hold exactly the kept entries. */
  ghost predicate OutputsOf(j: Job, outs: set<File>) {
    && FilesContent(outs) == ToKeep(j)
    && (forall o :: o in outs ==> o.number in j.reserved)
    && (forall o, q :: o in outs && q in outs && o != q ==> Apart(o, q) && o.number != q.number)
  }

  ghost predicate Finish(db: DB, db': DB, outs: set<File>) {
    && db.job.Some? && OutputsOf(db.job.value, outs)
    && var j := db.job.value;
       db' == db.(v := if j.level + 1 < NUM_LEVELS then Replace(db.v, j.level, j.in0, j.in1, outs)
           else db.v, job := None)
  }

  ghost predicate Snapshot(db: DB, db': DB) {
    db' == db.(snaps := db.snaps + [db.Last()])
  }

  ghost predicate Release(db: DB, db': DB, i: nat) {
    i < |db.snaps| && db' == db.(snaps := db.snaps[..i] + db.snaps[i + 1..])
  }

  datatype Step =
    | DoWrite(batch: Batch)
    | DoSwitch
    | DoFlush(f: File, p: nat)
    | DoMove(c: nat, f: File, lo: UserKey, hi: UserKey)
    | DoStart(c: nat, in0: set<File>, in1: set<File>, lo: UserKey, hi: UserKey)
    | DoReserve
    | DoFinish(outs: set<File>)
    | DoSnapshot
    | DoRelease(i: nat)

  ghost predicate Next(db: DB, db': DB, step: Step) {
    match step
    case DoWrite(batch) => Write(db, db', batch)
    case DoSwitch => Switch(db, db')
    case DoFlush(f, p) => Flush(db, db', f, p)
    case DoMove(c, f, lo, hi) => TrivialMove(db, db', c, f, lo, hi)
    case DoStart(c, in0, in1, lo, hi) => Start(db, db', c, in0, in1, lo, hi)
    case DoReserve => Reserve(db, db')
    case DoFinish(outs) => Finish(db, db', outs)
    case DoSnapshot => Snapshot(db, db')
    case DoRelease(i) => Release(db, db', i)
  }

  // ----- invariant

  /** Sequence numbers grow along the history, up to the last one; a machine crash may have left gaps. */
  ghost predicate HistoryOk(db: DB) {
    && (forall i, k :: 0 <= i < k < |db.history| ==> db.history[i].sn < db.history[k].sn)
    && forall i :: 0 <= i < |db.history| ==> 1 <= db.history[i].sn <= db.last
  }

  /** Memtable over immutable memtable over files, in age; nothing that was not written. */
  ghost predicate AgesOk(db: DB) {
    && db.Total() <= db.Written()
    && (forall a, b :: a in db.mem && b in db.Imm() ==> a.sn > b.sn)
    && NewerEntries(db.Mems(), db.v)
  }

  ghost predicate NumbersBelow(v: Version, n: nat) {
    forall i, f :: 0 <= i < NUM_LEVELS && f in v[i] ==> f.number < n
  }

  ghost predicate SnapsOk(db: DB) {
    && (forall i, k :: 0 <= i < k < |db.snaps| ==> db.snaps[i] <= db.snaps[k])
    && (forall i :: 0 <= i < |db.snaps| ==> db.snaps[i] <= db.Last())
  }

  ghost predicate JobInputs(v: Version, j: Job) {
    && AreInputs(v, j.level, j.in0, j.in1) && StayersNewer(v, j.level, j.in0)
    && (forall g :: g in v[j.level + 1] && g !in j.in1 ==> Clear(g, ToKeep(j)))
    && BaseStable(v, j.base, j.level, Inputs(j))
  }

  ghost predicate JobOk(db: DB, j: Job) {
    && JobInputs(db.v, j) && j.smallest <= db.Horizon()
    && Unused(db.v, j.reserved) && forall n :: n in j.reserved ==> n < db.nextFile
  }

  ghost predicate Unused(v: Version, numbers: set<nat>) {
    forall i, f :: 0 <= i < NUM_LEVELS && f in v[i] ==> f.number !in numbers
  }

  ghost predicate Inv(db: DB) {
    && HistoryOk(db) && AgesOk(db) && Recency(db.v) && NumbersBelow(db.v, db.nextFile) && SnapsOk(db)
    && (db.job.Some? ==> JobOk(db, db.job.value))
  }

  lemma WrittenDistinct(db: DB)
    requires HistoryOk(db)
    ensures Distinct(db.Written())
    ensures forall e :: e in db.Written() ==> 1 <= e.sn <= db.Last()
  {
    forall x, y | x in db.Written() && y in db.Written() && x.sn == y.sn ensures x == y {
      var i :| 0 <= i < |db.history| && db.history[i] == x;
      var k :| 0 <= k < |db.history| && db.history[k] == y;
    }
  }

  // ----- each step keeps the invariant

  lemma WriteKeepsInv(db: DB, db': DB, batch: Batch)
    requires Inv(db) && Write(db, db', batch)
    ensures Inv(db')
  {
    WriteKeepsHistory(db, db', batch);
    WriteKeepsAges(db, db', batch);
    hide Recency, NumbersBelow, JobInputs, GapFree, HistoryOk, AgesOk, Stamped;
  }

  lemma WriteKeepsHistory(db: DB, db': DB, batch: Batch)
    requires HistoryOk(db) && Write(db, db', batch)
    ensures HistoryOk(db') && forall e :: e in Stamped(db.last + 1, batch) ==> e.sn > db.last
  {
  }

  lemma WriteKeepsAges(db: DB, db': DB, batch: Batch)
    requires AgesOk(db) && HistoryOk(db) && Write(db, db', batch)
    ensures AgesOk(db')
  {
    var es := Stamped(db.last + 1, batch);
    WrittenDistinct(db);
    WriteKeepsHistory(db, db', batch);
    hide Stamped;
    assert forall e :: e in es ==> e in db'.history;
    assert forall e :: e in db.history ==> e in db'.history;
  }

  lemma FlushNewer(db: DB, f: File)
    requires AgesOk(db) && NumbersBelow(db.v, db.nextFile)
    requires db.imm.Some? && FilesContent({f}) == db.imm.value && f.number == db.nextFile
    ensures NewerThanAll(f, db.v)
  {
    forall i, g | 0 <= i < NUM_LEVELS && g in db.v[i] ensures Newer(f, g) {
      forall d, e | d in f.entries && e in g.entries && d.user == e.user ensures d.sn > e.sn {
        assert d in FilesContent({f}) && e in Content(db.v);
      }
    }
  }

  lemma AddContent(v: Version, p: nat, f: File)
    requires p < NUM_LEVELS
    ensures Content(AddAt(v, p, f)) == Content(v) + FilesContent({f})
  {
    var w := AddAt(v, p, f);
    forall e | e in Content(v) + FilesContent({f}) ensures e in Content(w) {
      if e in Content(v) {
        var i, g :| 0 <= i < NUM_LEVELS && g in v[i] && e in g.entries;
        assert g in w[i];
      } else {
        assert f in w[p] && e in f.entries;
      }
    }
    forall e | e in Content(w) ensures e in Content(v) + FilesContent({f}) {
      var i, g :| 0 <= i < NUM_LEVELS && g in w[i] && e in g.entries;
      if g !in v[i] { assert g == f; }
    }
  }

  lemma FlushMeetsNoInput(v: Version, j: Job, f: File, p: nat)
    requires AreInputs(v, j.level, j.in0, j.in1) && PlaceOk(v, f, p) && p >= j.level + 1
    ensures forall g :: g in j.in0 + j.in1 ==> !Overlaps(g, Lo(f), Hi(f))
  {
    forall g | g in j.in0 + j.in1 ensures !Overlaps(g, Lo(f), Hi(f)) {
      assert g in v[j.level] || g in v[j.level + 1];
    }
  }

  lemma FlushKeepsBase(v: Version, j: Job, f: File, p: nat)
    requires JobInputs(v, j) && PlaceOk(v, f, p)
    ensures BaseStable(AddAt(v, p, f), j.base, j.level, Inputs(j))
  {
    var w := AddAt(v, p, f);
    forall i, g, d, e | j.level + 2 <= i < NUM_LEVELS && g in w[i] && g !in j.base[i] && d in g.entries
        && e in Inputs(j)
      ensures d.user != e.user
    {
      if g !in v[i] {
        assert g == f && i == p;
        FlushMeetsNoInput(v, j, f, p);
        var h :| h in j.in0 + j.in1 && e in h.entries;
        InRange(f, d);
        InRange(h, e);
      }
    }
  }

  /** Where the output level is deeper than flushes reach, or the inputs leave no gap, every table
    placed by the rule lands clear: nothing is held back. */
  lemma FlushKeepsClear(v: Version, j: Job, f: File, p: nat)
    requires AreInputs(v, j.level, j.in0, j.in1) && PlaceOk(v, f, p)
    requires GapFree(j.in0 + j.in1) || j.level + 1 > MAX_MEM_COMPACT_LEVEL
    ensures p == j.level + 1 ==> Clear(f, ToKeep(j))
  {
    if p == j.level + 1 {
      FlushMeetsNoInput(v, j, f, p);
      OutsideGapFree(j.in0 + j.in1, f);
    }
  }

  lemma FlushKeepsStayers(v: Version, j: Job, f: File, p: nat)
    requires AreInputs(v, j.level, j.in0, j.in1) && StayersNewer(v, j.level, j.in0)
    requires p < NUM_LEVELS && NewerThanAll(f, v)
    ensures AreInputs(AddAt(v, p, f), j.level, j.in0, j.in1)
    ensures StayersNewer(AddAt(v, p, f), j.level, j.in0)
  {
    var w := AddAt(v, p, f);
    forall g, h | g in w[j.level] && g !in j.in0 && h in j.in0 ensures Newer(g, h) {
      assert g in v[j.level] || g == f;
    }
  }

  lemma FlushKeepsJobInputs(v: Version, j: Job, f: File, p: nat)
    requires JobInputs(v, j) && PlaceOk(v, f, p) && NewerThanAll(f, v) && (p == j.level + 1 ==> Clear(f, ToKeep(j)))
    ensures JobInputs(AddAt(v, p, f), j)
  {
    FlushKeepsStayers(v, j, f, p);
    FlushKeepsBase(v, j, f, p);
    hide Clear, Newer, Kept;
    forall g | g in AddAt(v, p, f)[j.level + 1] && g !in j.in1 ensures Clear(g, ToKeep(j)) {
      assert g in v[j.level + 1] || (g == f && p == j.level + 1);
    }
  }

  lemma FlushKeepsNumbers(v: Version, f: File, p: nat, n: nat)
    requires NumbersBelow(v, n) && p < NUM_LEVELS && f.number == n
    ensures NumbersBelow(AddAt(v, p, f), n + 1)
  {
    var w := AddAt(v, p, f);
    forall i, g | 0 <= i < NUM_LEVELS && g in w[i] ensures g.number < n + 1 {
      assert g in v[i] || g == f;
    }
  }

  lemma FlushKeepsAges(db: DB, db': DB, f: File, p: nat)
    requires AgesOk(db) && Flush(db, db', f, p) && db.imm.value != {}
    ensures AgesOk(db') && db'.Total() == db.Total()
  {
    AddContent(db.v, p, f);
    forall a, e | a in db'.Mems() && e in Content(db'.v) ensures a.sn > e.sn {
      assert a in db.mem;
      assert e in Content(db.v) || e in db.Imm();
    }
  }

  lemma FlushKeepsJob(db: DB, db': DB, f: File, p: nat)
    requires db.job.Some? ==> JobOk(db, db.job.value)
    requires Flush(db, db', f, p) && db.imm.value != {} && NewerThanAll(f, db.v)
    ensures db'.job.Some? ==> JobOk(db', db'.job.value)
  {
    hide JobInputs, Clear, NewerThanAll;
    if db.job.Some? {
      FlushKeepsJobInputs(db.v, db.job.value, f, p);
      FlushKeepsUnused(db.v, f, p, db.job.value.reserved);
    }
  }

  lemma FlushKeepsUnused(v: Version, f: File, p: nat, numbers: set<nat>)
    requires Unused(v, numbers) && p < NUM_LEVELS && f.number !in numbers
    ensures Unused(AddAt(v, p, f), numbers)
  {
    var w := AddAt(v, p, f);
    forall i, g | 0 <= i < NUM_LEVELS && g in w[i] ensures g.number !in numbers {
      assert g in v[i] || g == f;
    }
  }

  lemma EmptyFlushKeepsInv(db: DB, db': DB, f: File, p: nat)
    requires Inv(db) && Flush(db, db', f, p) && db.imm.value == {}
    ensures Inv(db')
  {
    assert db'.Mems() == db.Mems() && db'.Total() == db.Total();
    hide Recency, NumbersBelow, JobInputs, GapFree;
  }

  lemma FlushKeepsInv(db: DB, db': DB, f: File, p: nat)
    requires Inv(db) && Flush(db, db', f, p)
    ensures Inv(db')
  {
    hide Recency, NumbersBelow, AgesOk, JobOk, NewerThanAll;
    if db.imm.value == {} {
      EmptyFlushKeepsInv(db, db', f, p);
    } else {
      FlushNewer(db, f);
      FlushKeepsRecency(db.v, f, p);
      FlushKeepsNumbers(db.v, f, p, db.nextFile);
      FlushKeepsAges(db, db', f, p);
      FlushKeepsJob(db, db', f, p);
    }
  }

  lemma OutputsFitClear(v: Version, j: Job, outs: set<File>)
    requires AreInputs(v, j.level, j.in0, j.in1)
    requires forall g :: g in v[j.level + 1] && g !in j.in1 ==> Clear(g, ToKeep(j))
    requires OutputsOf(j, outs) && Unused(v, j.reserved)
    ensures OutputsFit(v, j.level, j.in0, j.in1, outs)
  {
    forall o, g | o in outs && g in v[j.level + 1] && g !in j.in1 ensures Apart(o, g) {
      assert forall e :: e in o.entries ==> e in FilesContent(outs);
      ClearFits(g, ToKeep(j), o);
    }
  }

  lemma ReplaceNumbers(v: Version, c: nat, in0: set<File>, in1: set<File>, outs: set<File>, n: nat)
    requires c + 1 < NUM_LEVELS && NumbersBelow(v, n)
    requires forall o :: o in outs ==> o.number < n
    ensures NumbersBelow(Replace(v, c, in0, in1, outs), n)
  {
  }

  lemma OutputsNumbered(db: DB, outs: set<File>)
    requires db.job.Some? && JobOk(db, db.job.value) && OutputsOf(db.job.value, outs)
    ensures AreInputs(db.v, db.job.value.level, db.job.value.in0, db.job.value.in1)
    ensures StayersNewer(db.v, db.job.value.level, db.job.value.in0)
    ensures OutputsFit(db.v, db.job.value.level, db.job.value.in0, db.job.value.in1, outs)
    ensures forall o :: o in outs ==> o.number < db.nextFile
    ensures FilesContent(outs) <= FilesContent(db.job.value.in0 + db.job.value.in1)
  {
    hide StayersNewer, OutputsFit, Unused, Clear, BaseStable;
    OutputsFitClear(db.v, db.job.value, outs);
    hide FilesContent, Apart;
    KeepsOfInputs(db.job.value);
  }

  lemma KeepsOfInputs(j: Job)
    ensures ToKeep(j) <= FilesContent(j.in0 + j.in1)
  {
  }

  lemma FinishKeepsInv(db: DB, db': DB, outs: set<File>)
    requires Inv(db) && Finish(db, db', outs)
    ensures Inv(db')
  {
    hide Recency, NumbersBelow, AgesOk, JobOk, OutputsOf, Replace, StayersNewer, OutputsFit, FilesContent, Content;
    var j := db.job.value;
    OutputsNumbered(db, outs);
    ReplaceNumbers(db.v, j.level, j.in0, j.in1, outs, db.nextFile);
    ReplaceKeepsRecency(db.v, j.level, j.in0, j.in1, outs);
    AfterIsSubset(db.v, j.level, j.in0, j.in1, outs);
    FewerAgesOk(db, db');
  }

  lemma FewerAgesOk(db: DB, db': DB)
    requires AgesOk(db) && Content(db'.v) <= Content(db.v)
    requires db'.mem == db.mem && db'.imm == db.imm && db'.history == db.history
    ensures AgesOk(db')
  {
  }

  lemma ChosenIsJob(v: Version, c: nat, in0: set<File>, in1: set<File>, lo: UserKey, hi: UserKey, smallest: nat)
    requires LevelsApart(v) && Chosen(v, c, in0, in1, lo, hi)
    ensures JobInputs(v, Job(c, in0, in1, v, smallest, {}))
  {
    var j := Job(c, in0, in1, v, smallest, {});
    assert ToKeep(j) <= FilesContent(in0 + in1);
    forall g | g in v[c + 1] && g !in in1 ensures Clear(g, ToKeep(j)) {
      StayerClear(v, c, in0, in1, lo, hi, g);
    }
  }

  lemma MoveFits(v: Version, c: nat, f: File, lo: UserKey, hi: UserKey)
    requires Recency(v) && Chosen(v, c, {f}, {}, lo, hi)
    ensures OutputsFit(v, c, {f}, {}, {f})
  {
    assert {f} + {} == {f};
    forall g | g in v[c + 1] ensures Apart(f, g) {
      StayerClear(v, c, {f}, {}, lo, hi, g);
      assert forall e :: e in f.entries ==> e in FilesContent({f});
      ClearFits(g, FilesContent({f}), f);
    }
  }

  lemma MoveKeepsInv(db: DB, db': DB, c: nat, f: File, lo: UserKey, hi: UserKey)
    requires Inv(db) && TrivialMove(db, db', c, f, lo, hi)
    ensures Inv(db')
  {
    MoveFits(db.v, c, f, lo, hi);
    assert {f} + {} == {f};
    hide Recency, NumbersBelow, GapFree, AgesOk;
    ReplaceKeepsRecency(db.v, c, {f}, {}, {f});
    AfterIsSubset(db.v, c, {f}, {}, {f});
    ReplaceNumbers(db.v, c, {f}, {}, {f}, db.nextFile);
    FewerAgesOk(db, db');
  }

  lemma ReleaseKeepsInv(db: DB, db': DB, i: nat)
    requires Inv(db) && Release(db, db', i)
    ensures Inv(db') && db.Horizon() <= db'.Horizon()
  {
    assert forall k :: 0 <= k < |db'.snaps| ==> db'.snaps[k] == if k < i then db.snaps[k] else db.snaps[k + 1];
  }

  lemma InitInv(db: DB)
    requires Init(db)
    ensures Inv(db)
  {
    assert Content(db.v) == {};
  }

  lemma SwitchKeepsInv(db: DB, db': DB)
    requires Inv(db) && Switch(db, db')
    ensures Inv(db') && db'.Mems() == db.Mems()
  {
    assert db'.Mems() == db.Mems();
    hide Recency, NumbersBelow, JobInputs, GapFree;
  }

  lemma StartKeepsInv(db: DB, db': DB, c: nat, in0: set<File>, in1: set<File>, lo: UserKey, hi: UserKey)
    requires Inv(db) && Start(db, db', c, in0, in1, lo, hi)
    ensures Inv(db')
  {
    ChosenIsJob(db.v, c, in0, in1, lo, hi, db.Horizon());
    hide Recency, NumbersBelow, JobInputs, GapFree;
  }

  lemma SnapshotKeepsInv(db: DB, db': DB)
    requires Inv(db) && Snapshot(db, db')
    ensures Inv(db') && db.Horizon() <= db'.Horizon()
  {
    hide Recency, NumbersBelow, JobInputs, GapFree;
  }

  lemma ReserveKeepsInv(db: DB, db': DB)
    requires Inv(db) && Reserve(db, db')
    ensures Inv(db')
  {
    hide Recency, JobOk;
    assert NumbersBelow(db'.v, db'.nextFile);
    assert AgesOk(db') by { hide NewerEntries; }
    ReserveJob(db, db');
  }

  lemma ReserveJob(db: DB, db': DB)
    requires Reserve(db, db') && JobOk(db, db.job.value) && NumbersBelow(db.v, db.nextFile)
    ensures JobOk(db', db'.job.value)
  {
    assert ToKeep(db'.job.value) == ToKeep(db.job.value) && Inputs(db'.job.value) == Inputs(db.job.value);
    hide StayersNewer, Clear, BaseStable, ToKeep, Inputs;
  }

  /** smallest_snapshot is the oldest live snapshot, or the last sequence number if none is live. */
  lemma HorizonIs(db: DB)
    requires SnapsOk(db)
    ensures if db.snaps == [] then db.Horizon() == db.last
            else db.Horizon() in db.snaps && forall s :: s in db.snaps ==> db.Horizon() <= s
  {
    forall s | s in db.snaps ensures db.Horizon() <= s {
      var i :| 0 <= i < |db.snaps| && db.snaps[i] == s;
      assert db.snaps[0] <= db.snaps[i];
    }
  }

  /** smallest_snapshot never falls. */
  lemma HorizonGrows(db: DB, db': DB, step: Step)
    requires SnapsOk(db) && Next(db, db', step)
    ensures db.Horizon() <= db'.Horizon()
  {
    hide Chosen, OutputsOf, PlaceOk, GapFree;
  }

  lemma NextKeepsInv(db: DB, db': DB, step: Step)
    requires Inv(db) && Next(db, db', step)
    ensures Inv(db') && db.Horizon() <= db'.Horizon()
  {
    HorizonGrows(db, db', step);
    hide Inv, Write, Switch, Flush, TrivialMove, Start, Reserve, Finish, Snapshot, Release;
    match step
    case DoWrite(batch) => WriteKeepsInv(db, db', batch);
    case DoSwitch => SwitchKeepsInv(db, db');
    case DoFlush(f, p) => FlushKeepsInv(db, db', f, p);
    case DoMove(c, f, lo, hi) => MoveKeepsInv(db, db', c, f, lo, hi);
    case DoStart(c, in0, in1, lo, hi) => StartKeepsInv(db, db', c, in0, in1, lo, hi);
    case DoReserve => ReserveKeepsInv(db, db');
    case DoFinish(outs) => FinishKeepsInv(db, db', outs);
    case DoSnapshot => SnapshotKeepsInv(db, db');
    case DoRelease(i) => ReleaseKeepsInv(db, db', i);
  }
}
