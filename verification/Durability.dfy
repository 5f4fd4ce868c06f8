/** The engine together with its files: logs, tables, manifests, obsolete files, crashes and reopening. */
module Durability {
  import opened DbFormat
  import opened Options
  import opened Versions
  import opened Choosing
  import opened Database
  import opened Recovery

  /** The first synced records of a log survive even a machine crash. */
  datatype LogFile = LogFile(records: seq<Record>, synced: nat)

  datatype Disk = Disk(tables: map<nat, File>, logs: map<nat, LogFile>, manifests: map<nat, Manifest>, current: nat)

  datatype Sys = Sys(
    db: DB,
    disk: Disk,
    memLog: nat,                  // log of the memtable
    immLog: nat,                  // log of the immutable memtable, if there is one
    inflight: Option<Batch>,      // logged, not yet in the memtable
    logNumber: nat,               // log number of the installed version
    pinned: set<File>,            // files of older versions that readers still hold
    commit: Option<Step>          // in the manifest, not yet installed
  )

  ghost function FilesOf(v: Version): set<File> { set i, f | 0 <= i < NUM_LEVELS && f in v[i] :: f }

  ghost predicate Have(tables: map<nat, File>, files: set<File>) {
    forall f :: f in files ==> f.number in tables && tables[f.number] == f
  }

  /** A step that changes the current version, carried out. */
  ghost function After(db: DB, step: Step): DB {
    match step
    case DoFlush(f, p) =>
      if db.imm == Some({}) || p >= NUM_LEVELS then db.(imm := None, nextFile := db.nextFile + 1)
      else db.(imm := None, v := AddAt(db.v, p, f), nextFile := db.nextFile + 1)
    case DoMove(c, f, _, _) => if c + 1 < NUM_LEVELS then db.(v := Replace(db.v, c, {f}, {}, {f})) else db
    case DoFinish(outs) =>
      if db.job.Some? && db.job.value.level + 1 < NUM_LEVELS then
        var j := db.job.value; db.(v := Replace(db.v, j.level, j.in0, j.in1, outs), job := None)
      else db.(job := None)
    case _ => db
  }

  predicate ChangesVersion(step: Step) { step.DoFlush? || step.DoMove? || step.DoFinish? }

  ghost predicate Installable(db: DB, step: Step) { ChangesVersion(step) && Next(db, After(db, step), step) }

  // ----- events

  datatype Event =
    | Append(batch: Batch, sync: bool)
    | Apply
    | Rotate
    | Engine(step: Step)
    | BuildOutput(f: File)
    | Commit(step: Step)
    | Install
    | Pin
    | Unpin(keep: set<File>)
    | Collect
    | Reopen(d: Disk, left: Disk, logs: seq<Log>)

  ghost predicate AppendTo(s: Sys, s': Sys, batch: Batch, sync: bool) {
    && s.inflight == None && s.memLog in s.disk.logs
    && var log := s.disk.logs[s.memLog];
       var first := s.db.Last() + 1;
       var records := log.records + [Record(first, Stamped(first, batch))];
       s' == s.(inflight := Some(batch),
                disk := s.disk.(logs := s.disk.logs[s.memLog := LogFile(records, if sync then |records| else log.synced)]))
  }

  ghost predicate ApplyTo(s: Sys, s': Sys) {
    && s.inflight.Some? && Write(s.db, s'.db, s.inflight.value)
    && s' == s.(db := s'.db, inflight := None)
  }

  ghost predicate RotateTo(s: Sys, s': Sys) {
    && s.inflight == None && Switch(s.db, s'.db)
    && s' == s.(db := s'.db, memLog := s.db.nextFile, immLog := s.memLog,
                disk := s.disk.(logs := s.disk.logs[s.db.nextFile := LogFile([], 0)]))
  }

  ghost predicate EngineTo(s: Sys, s': Sys, step: Step) {
    && (((step.DoStart? || step.DoReserve?) && s.commit == None) || step.DoSnapshot? || step.DoRelease?)
    && Next(s.db, s'.db, step) && s' == s.(db := s'.db)
  }

  ghost predicate BuildTo(s: Sys, s': Sys, f: File) {
    && s.commit == None && s.db.job.Some? && f.number in s.db.job.value.reserved
    && s' == s.(disk := s.disk.(tables := s.disk.tables[f.number := f]))
  }

  /** The log number the edit carries: after a flush the older logs are no longer needed. */
  ghost function EditLog(s: Sys, step: Step): nat { if step.DoFlush? then s.memLog else s.logNumber }

  /** The manifest gets the edit; a flushed table was written just before. */
  ghost predicate CommitTo(s: Sys, s': Sys, step: Step) {
    && s.commit == None && Installable(s.db, step)
    && (step.DoFinish? ==> Have(s.disk.tables, step.outs))
    && var db' := After(s.db, step);
       s' == s.(commit := Some(step),
                disk := s.disk.(tables := if step.DoFlush?
                    && s.db.imm != Some({}) then s.disk.tables[step.f.number := step.f] else s.disk.tables,
                                manifests := s.disk.manifests[s.disk.current := Manifest(db'.v, EditLog(s, step),
                                    db'.nextFile, s.db.Last())]))
  }

  ghost predicate InstallTo(s: Sys, s': Sys) {
    && s.commit.Some?
    && s' == s.(db := After(s.db, s.commit.value), logNumber := EditLog(s, s.commit.value), commit := None)
  }

  // ----- removal of obsolete files

  /** Numbers of the tables that must stay: files of live versions and outputs of a running compaction. */
  ghost function Live(s: Sys): set<nat> {
    (set f | f in FilesOf(s.db.v) + s.pinned :: f.number) + if s.db.job.Some? then s.db.job.value.reserved else {}
  }

  /** Everything RemoveObsoleteFiles keeps is kept. */
  ghost predicate Spared(s: Sys, d: Disk) {
    && d.current == s.disk.current
    && (forall n :: n in s.disk.tables && n in Live(s) ==> n in d.tables)
    && (forall n :: n in d.tables ==> n in s.disk.tables && d.tables[n] == s.disk.tables[n])
    && (forall n :: n in s.disk.logs && n >= s.logNumber ==> n in d.logs)
    && (forall n :: n in d.logs ==> n in s.disk.logs && d.logs[n] == s.disk.logs[n])
    && (forall n :: n in s.disk.manifests && n >= s.disk.current ==> n in d.manifests)
    && (forall n :: n in d.manifests ==> n in s.disk.manifests && d.manifests[n] == s.disk.manifests[n])
  }

  ghost predicate CollectTo(s: Sys, s': Sys) {
    s.commit == None && Spared(s, s'.disk) && s' == s.(disk := s'.disk)
  }

  /** The disk after RemoveObsoleteFiles: live tables and outputs under way, logs from the installed version's on, and
    the current manifest and later ones. */
  ghost function Collected(s: Sys): Disk {
    s.disk.(tables := map n | n in s.disk.tables && n in Live(s) :: s.disk.tables[n],
            logs := map n | n in s.disk.logs && n >= s.logNumber :: s.disk.logs[n],
            manifests := map n | n in s.disk.manifests && n >= s.disk.current :: s.disk.manifests[n])
  }

  /** Removing every other file is a step; a removal that fails leaves more. */
  lemma CollectsAll(s: Sys)
    requires s.commit == None
    ensures CollectTo(s, s.(disk := Collected(s)))
    ensures forall s' :: CollectTo(s, s') ==>
              && Collected(s).tables.Keys <= s'.disk.tables.Keys && Collected(s).logs.Keys <= s'.disk.logs.Keys
              && Collected(s).manifests.Keys <= s'.disk.manifests.Keys
  {
  }

  // ----- crash and reopening

  /** The logs that recovery replays, oldest first.  Opens that failed earlier may have left empty ones. */
  ghost predicate LogsFrom(d: Disk, from: nat, logs: seq<Log>) {
    && (forall i, j :: 0 <= i < j < |logs| ==> logs[i].number < logs[j].number)
    && (forall n :: n in d.logs && n >= from ==> exists i :: 0 <= i < |logs| && logs[i] == Log(n, d.logs[n].records))
    && (forall i :: 0 <= i < |logs| ==>
       logs[i].number >= from && (logs[i].records == []
       || (logs[i].number in d.logs && d.logs[logs[i].number].records == logs[i].records)))
  }

  /** What the write history is after a crash: a logged write counts even if nobody was told. */
  ghost function Survived(s: Sys): seq<Entry> {
    s.db.history + if s.inflight.Some? then Stamped(s.db.Last() + 1, s.inflight.value) else []
  }

  ghost function Current(d: Disk): Manifest
    requires d.current in d.manifests
  {
    d.manifests[d.current]
  }

  /** A machine crash may cut any log anywhere after its synced part. */
  ghost predicate Truncated(d: Disk, d': Disk) {
    && d' == d.(logs := d'.logs) && d'.logs.Keys == d.logs.Keys
    && forall n :: n in d.logs ==>
       d'.logs[n].records <= d.logs[n].records && SyncedCount(d.logs[n]) <= |d'.logs[n].records|
  }

  function SyncedCount(l: LogFile): nat { if l.synced < |l.records| then l.synced else |l.records| }

  /** A committed edit counts as installed and a logged write as made. */
  ghost function Settled(s: Sys): DB {
    var db := After'(s);
    db.(history := db.history + Inflight(s), last := db.last + |Inflight(s)|, mem := db.mem + Elements(Inflight(s)))
  }

  /** What a crash loses: entries that were there and are not read back. */
  ghost function Lost(s: Sys, v: Version): set<Entry> { Settled(s).Total() - Content(v) }

  ghost function Without(es: seq<Entry>, lost: set<Entry>): seq<Entry> {
    if es == [] then [] else Without(es[..|es| - 1], lost) + if es[|es| - 1] in lost then [] else [es[|es| - 1]]
  }

  /** What opens that were cut short may leave behind: files under numbers that the manifest has not given out,
    logs without records, manifests that are not current. */
  ghost predicate LeftBy(d: Disk, left: Disk)
    requires d.current in d.manifests
  {
    && left.current == d.current && left.current in left.manifests && Current(left) == Current(d)
    && (forall n :: n in d.tables && n < Current(d).nextFile ==> n in left.tables && left.tables[n] == d.tables[n])
    && (forall n :: n in d.logs ==> n in left.logs && left.logs[n] == d.logs[n])
    && (forall n :: n in left.logs && n !in d.logs ==> left.logs[n].records == [])
  }

  /** The process crashes and leaves its disk as it is, or the machine does and leaves d.  Everything is rebuilt from
    the disk: the version, the last sequence number, a new, empty log and memtable, saved in a new manifest. */
  ghost predicate ReopenTo(s: Sys, s': Sys, d: Disk, left: Disk, logs: seq<Log>) {
    && s.disk.current in s.disk.manifests && Truncated(s.disk, d) && LeftBy(d, left)
    && LogsFrom(left, Current(s.disk).logNumber, logs)
    && Replay(Current(s.disk), logs, s'.db.v, s'.memLog, s'.db.nextFile)
    && s'.db == DB(Without(Survived(s), Lost(s, s'.db.v)), MaxOver(Current(s.disk).last, logs), {}, None, s'.db.v, [],
       s'.db.nextFile, None)
    && s' == Sys(s'.db, s'.disk, s'.memLog, s'.immLog, None, s'.memLog, {}, None)
    && Reopened(left, s'.disk, Manifest(s'.db.v, s'.memLog, s'.db.nextFile, s'.db.last))
  }

  /** Recovery adds its level-0 tables, a log and a manifest under the number set aside for it, and makes that one
    current. */
  ghost predicate Reopened(d: Disk, d': Disk, m': Manifest)
    requires d.current in d.manifests
  {
    && TablesAdded(d.tables, d'.tables, FilesOf(m'.v) - FilesOf(Current(d).v))
    && d'.logs == d.logs[m'.logNumber := LogFile([], 0)]
    && d'.current == Current(d).nextFile && d'.manifests == d.manifests[d'.current := m']
  }

  /** The new files under their numbers, everything else as it was. */
  ghost predicate TablesAdded(tables: map<nat, File>, tables': map<nat, File>, files: set<File>) {
    var numbers := set f | f in files :: f.number;
    && tables'.Keys == tables.Keys + numbers && Have(tables', files)
    && forall n :: n in tables && n !in numbers ==> tables'[n] == tables[n]
  }

  ghost predicate SysNext(s: Sys, s': Sys, ev: Event) {
    match ev
    case Append(batch, sync) => AppendTo(s, s', batch, sync)
    case Apply => ApplyTo(s, s')
    case Rotate => RotateTo(s, s')
    case Engine(step) => EngineTo(s, s', step)
    case BuildOutput(f) => BuildTo(s, s', f)
    case Commit(step) => CommitTo(s, s', step)
    case Install => InstallTo(s, s')
    case Pin => s' == s.(pinned := s.pinned + FilesOf(s.db.v))
    case Unpin(keep) => s' == s.(pinned := s.pinned * keep)
    case Collect => CollectTo(s, s')
    case Reopen(d, left, logs) => ReopenTo(s, s', d, left, logs)
  }

  /** A database just created and opened for the first time. */
  ghost predicate SysInit(s: Sys) {
    && Init(s.db) && s.db.nextFile > s.memLog > 0 && s.logNumber == s.memLog && s.inflight == None && s.pinned == {}
    && s.commit == None
    && s.disk.current in s.disk.manifests && Current(s.disk) == Manifest(s.db.v, s.memLog, s.db.nextFile, 0)
    && s.disk.current < s.db.nextFile
    && s.memLog in s.disk.logs && s.disk.logs[s.memLog] == LogFile([], 0) && forall n :: n in s.disk.logs ==>
       n <= s.memLog
  }

  // ----- invariant

  ghost predicate Flushing(s: Sys) { s.commit.Some? && s.commit.value.DoFlush? }

  /** The current manifest describes the installed version, or the one about to be installed. */
  ghost predicate ManifestInv(s: Sys) {
    && s.disk.current in s.disk.manifests
    && var m := Current(s.disk);
       && s.disk.current < m.nextFile <= After'(s).nextFile && m.last <= s.db.Last()
       && (s.commit.Some? ==> Installable(s.db, s.commit.value))
       && m.v == After'(s).v && NumbersBelow(m.v, m.nextFile)
       && m.logNumber == (if Flushing(s) then s.memLog else s.logNumber)
       && forall e :: e in Content(m.v) ==> e.sn <= m.last
  }

  ghost function After'(s: Sys): DB { if s.commit.Some? then After(s.db, s.commit.value) else s.db }

  /** What is newer than the manifest's last sequence number is in a memtable that the manifest does not cover. */
  ghost predicate LastInv(s: Sys) {
    && s.disk.current in s.disk.manifests
    && (forall e :: e in s.db.history && e.sn > Current(s.disk).last ==>
       e in s.db.mem || (e in s.db.Imm() && !Flushing(s)))
    && (s.db.last <= Current(s.disk).last || exists e :: e in s.db.history && e.sn == s.db.last)
  }

  ghost predicate TablesInv(s: Sys) {
    && s.disk.current in s.disk.manifests
    && Have(s.disk.tables, FilesOf(s.db.v) + s.pinned + FilesOf(Current(s.disk).v))
    && (forall f :: f in s.pinned ==> f.number < s.db.nextFile)
    && (s.db.job.Some? ==> forall f :: f in s.pinned ==> f.number !in s.db.job.value.reserved)
  }

  ghost predicate RecordsOk(rs: seq<Record>, last: nat) {
    && Growing(Flat(rs)) && (forall i :: 0 <= i < |rs| ==> rs[i].Last() <= last)
    && forall i, k :: 0 <= i < |rs| && 0 <= k < |rs[i].entries| ==> rs[i].entries[k].sn == rs[i].first + k
  }

  ghost function Inflight(s: Sys): seq<Entry> {
    if s.inflight.Some? then Stamped(s.db.Last() + 1, s.inflight.value) else []
  }

  /** The memtables are in their logs; newer logs than the installed version's are these two, or empty. */
  ghost predicate LogsInv(s: Sys) {
    && s.logNumber <= s.memLog < s.db.nextFile && s.memLog in s.disk.logs
    && (forall n :: n in s.disk.logs && n >= s.logNumber ==>
       n == s.memLog || (s.db.imm.Some? && n == s.immLog) || s.disk.logs[n].records == [])
    && (forall n :: n in s.disk.logs ==> n < s.db.nextFile)
    && (s.db.imm.Some? ==> s.logNumber <= s.immLog < s.memLog && s.immLog in s.disk.logs)
  }

  ghost predicate ContentsInv(s: Sys) {
    && s.memLog in s.disk.logs && RecordsOk(s.disk.logs[s.memLog].records, s.db.Last() + |Inflight(s)|)
    && Elements(Flat(s.disk.logs[s.memLog].records)) == s.db.mem + Elements(Inflight(s))
    && (s.inflight.Some? ==> exists i ::
          && 0 <= i < |s.disk.logs[s.memLog].records|
          && s.disk.logs[s.memLog].records[i].Last() == s.db.Last() + |Inflight(s)|)
    && (s.db.imm.Some? ==> s.immLog in s.disk.logs && RecordsOk(s.disk.logs[s.immLog].records, s.db.Last()))
    && (s.db.imm.Some? ==> Elements(Flat(s.disk.logs[s.immLog].records)) == s.db.imm.value)
  }

  ghost predicate SysInv(s: Sys) {
    Inv(s.db) && ManifestInv(s) && LastInv(s) && TablesInv(s) && LogsInv(s) && ContentsInv(s)
  }

  // ----- a committed edit stays installable while writers and readers go on

  lemma CommitStands(db: DB, db': DB, step: Step)
    requires Installable(db, step) && db'.v == db.v && db'.job == db.job && db.nextFile <= db'.nextFile
    requires step.DoFlush? ==> db'.imm == db.imm && db'.nextFile == db.nextFile
    ensures Installable(db', step) && After(db', step).v == After(db, step).v
        && After(db, step).nextFile <= After(db', step).nextFile
  {
    hide Chosen, PlaceOk, OutputsOf, GapFree;
  }

  /** Steps that leave the version and the compaction alone. */
  lemma SameVersionKeeps(s: Sys, s': Sys)
    requires ManifestInv(s) && TablesInv(s) && s'.commit == s.commit && s'.logNumber == s.logNumber
        && s'.pinned == s.pinned
    requires s'.disk.manifests == s.disk.manifests && s'.disk.current == s.disk.current
        && s'.disk.tables == s.disk.tables
    requires s'.db.v == s.db.v && s'.db.job == s.db.job && s.db.nextFile <= s'.db.nextFile
        && s.db.Last() <= s'.db.Last()
    requires Flushing(s) ==> s'.db.imm == s.db.imm && s'.db.nextFile == s.db.nextFile && s'.memLog == s.memLog
    ensures ManifestInv(s') && TablesInv(s')
  {
    if s.commit.Some? { CommitStands(s.db, s'.db, s.commit.value); }
    hide Installable, After, NumbersBelow;
  }

  // ----- writing

  lemma FlatAppend(rs: seq<Record>, r: Record)
    ensures Flat(rs + [r]) == Flat(rs) + r.entries
  {
    assert (rs + [r])[..|rs|] == rs;
  }

  lemma AppendRecord(rs: seq<Record>, last: nat, batch: Batch)
    requires RecordsOk(rs, last) && forall e :: e in Elements(Flat(rs)) ==> e.sn <= last
    ensures var r := Record(last + 1, Stamped(last + 1, batch));
        RecordsOk(rs + [r], last + |batch|) && Elements(Flat(rs + [r])) == Elements(Flat(rs)) + Elements(r.entries)
  {
    var r := Record(last + 1, Stamped(last + 1, batch));
    FlatAppend(rs, r);
    hide Flat;
    ElementsJoin(Flat(rs), r.entries);
    GrowJoin(Flat(rs), r.entries);
  }

  lemma MemWithin(db: DB)
    requires Inv(db)
    ensures forall e :: e in db.mem + db.Imm() ==> e in db.history && e.sn <= db.Last()
  {
    WrittenDistinct(db);
    hide Recency, NumbersBelow, JobOk;
    assert db.mem + db.Imm() <= db.Total() <= db.Written();
  }

  lemma AppendContents(s: Sys, s': Sys, batch: Batch, sync: bool)
    requires ContentsInv(s) && LogsInv(s) && AppendTo(s, s', batch, sync)
    requires forall e :: e in s.db.mem + s.db.Imm() ==> e.sn <= s.db.Last()
    ensures ContentsInv(s')
  {
    hide RecordsOk, Flat;
    assert Inflight(s) == [] && Elements([]) == {};
    AppendRecord(s.disk.logs[s.memLog].records, s.db.Last(), batch);
    assert s'.disk.logs[s.memLog].records[|s.disk.logs[s.memLog].records|].Last() == s.db.Last() + |batch|;
  }

  lemma AppendLogs(s: Sys, s': Sys, batch: Batch, sync: bool)
    requires LastInv(s) && LogsInv(s) && AppendTo(s, s', batch, sync)
    ensures LastInv(s') && LogsInv(s')
  {
    hide Stamped;
  }

  lemma AppendKeepsInv(s: Sys, s': Sys, batch: Batch, sync: bool)
    requires SysInv(s) && AppendTo(s, s', batch, sync)
    ensures SysInv(s')
  {
    hide Inv, ManifestInv, TablesInv, LastInv, LogsInv, ContentsInv, Stamped;
    MemWithin(s.db);
    AppendContents(s, s', batch, sync);
    AppendLogs(s, s', batch, sync);
    SameVersionKeeps(s, s');
  }

  lemma ApplyLast(s: Sys, s': Sys)
    requires LastInv(s) && ApplyTo(s, s')
    ensures LastInv(s')
  {
    forall e | e in s'.db.history && e.sn > Current(s'.disk).last
      ensures e in s'.db.mem || (e in s'.db.Imm() && !Flushing(s')) {
      if e in s.db.history {
        assert e in s.db.mem || (e in s.db.Imm() && !Flushing(s));
      }
    }
    LastStamped(s.db, s'.db, s.inflight.value);
  }

  lemma LastStamped(db: DB, db': DB, batch: Batch)
    requires Write(db, db', batch)
    ensures batch == [] ==> db' == db
    ensures batch != [] ==> exists e :: e in db'.history && e.sn == db'.last
  {
    var es := Stamped(db.last + 1, batch);
    if batch == [] {
      assert es == [] && db.history + [] == db.history && db.mem + (set e | e in es) == db.mem;
    } else {
      assert es[|batch| - 1] in db'.history;
    }
  }

  lemma ApplyContents(s: Sys, s': Sys)
    requires ContentsInv(s) && ApplyTo(s, s')
    ensures ContentsInv(s')
  {
    assert Inflight(s') == [] && Elements([]) == {};
    assert Elements(Inflight(s)) == set e | e in Inflight(s);
    assert s'.db.Last() == s.db.Last() + |Inflight(s)|;
    hide Flat, Growing;
  }

  lemma ApplyKeepsInv(s: Sys, s': Sys)
    requires SysInv(s) && ApplyTo(s, s')
    ensures SysInv(s')
  {
    hide Inv, LastInv, LogsInv, ContentsInv, ManifestInv, TablesInv, ApplyTo, Write;
    ApplyFrame(s, s');
    WriteKeepsInv(s.db, s'.db, s.inflight.value);
    ApplyLast(s, s');
    ApplyContents(s, s');
    ApplyLogs(s, s');
    SameVersionKeeps(s, s');
  }

  lemma ApplyFrame(s: Sys, s': Sys)
    requires ApplyTo(s, s')
    ensures s.inflight.Some? && Write(s.db, s'.db, s.inflight.value)
    ensures s'.commit == s.commit && s'.logNumber == s.logNumber && s'.pinned == s.pinned && s'.disk == s.disk
        && s'.memLog == s.memLog
    ensures s'.db.v == s.db.v && s'.db.job == s.db.job && s'.db.imm == s.db.imm && s'.db.nextFile == s.db.nextFile
        && s.db.Last() <= s'.db.Last()
  {
    hide Stamped;
  }

  lemma ApplyLogs(s: Sys, s': Sys)
    requires LogsInv(s) && ApplyTo(s, s')
    ensures LogsInv(s')
  {
    hide Stamped;
  }

  lemma RotateLogs(s: Sys, s': Sys)
    requires LastInv(s) && LogsInv(s) && !Flushing(s) && RotateTo(s, s')
    ensures LastInv(s') && LogsInv(s')
  {
  }

  lemma RotateContents(s: Sys, s': Sys)
    requires ContentsInv(s) && LogsInv(s) && RotateTo(s, s')
    ensures ContentsInv(s')
  {
    assert Inflight(s) == [] && Inflight(s') == [] && Elements([]) == {};
    assert Flat([]) == [];
  }

  lemma RotateKeepsInv(s: Sys, s': Sys)
    requires SysInv(s) && RotateTo(s, s')
    ensures SysInv(s')
  {
    NotFlushing(s);
    hide Inv, ManifestInv, TablesInv, LastInv, LogsInv, ContentsInv;
    RotateLogs(s, s');
    RotateContents(s, s');
    SwitchKeepsInv(s.db, s'.db);
    SameVersionKeeps(s, s');
  }

  lemma NotFlushing(s: Sys)
    requires ManifestInv(s) && s.db.imm == None
    ensures !Flushing(s)
  {
  }

  /** The memtables, the version and the disk stay as they are. */
  ghost predicate Quiet(s: Sys, s': Sys) {
    && s' == s.(db := s'.db)
    && s'.db.history == s.db.history && s'.db.last == s.db.last && s'.db.mem == s.db.mem && s'.db.imm == s.db.imm
    && s'.db.v == s.db.v && s.db.nextFile <= s'.db.nextFile
    && (s.commit.Some? ==> s'.db.job == s.db.job && s'.db.nextFile == s.db.nextFile)
    && (s'.db.job.Some? ==> forall f :: f in s.pinned ==> f.number !in s'.db.job.value.reserved)
  }

  lemma QuietManifest(s: Sys, s': Sys)
    requires ManifestInv(s) && TablesInv(s) && Quiet(s, s')
    ensures ManifestInv(s') && TablesInv(s')
  {
    hide NumbersBelow;
    if s.commit.Some? { CommitStands(s.db, s'.db, s.commit.value); }
    hide Installable, After;
  }

  lemma QuietLogs(s: Sys, s': Sys)
    requires LastInv(s) && LogsInv(s) && ContentsInv(s) && Quiet(s, s')
    ensures LastInv(s') && LogsInv(s') && ContentsInv(s')
  {
    hide RecordsOk, Stamped;
    assert Inflight(s') == Inflight(s);
  }

  lemma QuietKeeps(s: Sys, s': Sys)
    requires SysInv(s) && Inv(s'.db) && Quiet(s, s')
    ensures SysInv(s')
  {
    hide Inv, ManifestInv, LastInv, TablesInv, LogsInv, ContentsInv, Quiet;
    QuietManifest(s, s');
    QuietLogs(s, s');
  }

  lemma EngineFrame(s: Sys, s': Sys, step: Step)
    requires EngineTo(s, s', step)
    requires forall f :: f in s.pinned ==> f.number < s.db.nextFile
    requires s.db.job.Some? ==> forall f :: f in s.pinned ==> f.number !in s.db.job.value.reserved
    ensures Next(s.db, s'.db, step) && Quiet(s, s')
  {
    hide Chosen;
  }

  lemma EngineKeepsInv(s: Sys, s': Sys, step: Step)
    requires SysInv(s) && EngineTo(s, s', step)
    ensures SysInv(s')
  {
    hide EngineTo, Next, Inv, ManifestInv, LastInv, LogsInv, ContentsInv, Quiet;
    EngineFrame(s, s', step);
    NextKeepsInv(s.db, s'.db, step);
    QuietKeeps(s, s');
  }

  // ----- files

  lemma BuildKeepsInv(s: Sys, s': Sys, f: File)
    requires SysInv(s) && BuildTo(s, s', f)
    ensures SysInv(s')
  {
    hide Inv, ManifestInv, TablesInv, LastInv, LogsInv, ContentsInv;
    FilesBelow(s.db);
    BuildTables(s, s', f);
    BuildOthers(s, s', f);
  }

  lemma BuildTables(s: Sys, s': Sys, f: File)
    requires ManifestInv(s) && TablesInv(s) && BuildTo(s, s', f)
    requires forall g :: g in FilesOf(s.db.v) ==> s.db.job.Some? ==> g.number !in s.db.job.value.reserved
    ensures ManifestInv(s') && TablesInv(s')
  {
    hide Installable, After, FilesOf;
  }

  lemma BuildOthers(s: Sys, s': Sys, f: File)
    requires LastInv(s) && LogsInv(s) && ContentsInv(s) && BuildTo(s, s', f)
    ensures s'.db == s.db && LastInv(s') && LogsInv(s') && ContentsInv(s')
  {
    hide Installable, After, RecordsOk;
    assert Inflight(s') == Inflight(s);
  }

  lemma FilesBelow(db: DB)
    requires Inv(db)
    ensures forall f :: f in FilesOf(db.v) ==> f.number < db.nextFile && (db.job.Some? ==>
        f.number !in db.job.value.reserved)
  {
    hide Recency, JobInputs, AgesOk, SnapsOk;
  }

  lemma PinTables(s: Sys, s': Sys)
    requires TablesInv(s) && s' == s.(pinned := s.pinned + FilesOf(s.db.v))
    requires forall f :: f in FilesOf(s.db.v) ==> f.number < s.db.nextFile && (s.db.job.Some? ==>
        f.number !in s.db.job.value.reserved)
    ensures TablesInv(s')
  {
    hide FilesOf;
  }

  lemma PinKeepsInv(s: Sys, s': Sys)
    requires SysInv(s) && s' == s.(pinned := s.pinned + FilesOf(s.db.v))
    ensures SysInv(s')
  {
    hide Inv, ManifestInv, TablesInv, LastInv, LogsInv, ContentsInv, FilesOf;
    FilesBelow(s.db);
    PinTables(s, s');
    Repinned(s, s');
  }

  lemma Repinned(s: Sys, s': Sys)
    requires s' == s.(pinned := s'.pinned) && ManifestInv(s) && LastInv(s) && LogsInv(s) && ContentsInv(s)
    ensures ManifestInv(s') && LastInv(s') && LogsInv(s') && ContentsInv(s')
  {
    hide Installable, After, NumbersBelow, RecordsOk;
    assert Inflight(s') == Inflight(s);
  }

  lemma UnpinKeepsInv(s: Sys, s': Sys, keep: set<File>)
    requires SysInv(s) && s' == s.(pinned := s.pinned * keep)
    ensures SysInv(s')
  {
    hide Inv, ManifestInv, LastInv, LogsInv, ContentsInv, NumbersBelow;
    Repinned(s, s');
  }

  /** Removing obsolete files takes away no file of a live version, no output of a running compaction,
    no log that recovery would need and not the current manifest. */
  lemma CollectKeepsInv(s: Sys, s': Sys)
    requires SysInv(s) && CollectTo(s, s')
    ensures SysInv(s')
  {
    hide Inv, Recency, NumbersBelow, RecordsOk, Installable, After;
    assert Current(s'.disk) == Current(s.disk);
    assert Inflight(s') == Inflight(s);
    forall f | f in FilesOf(s.db.v) + s.pinned ensures f.number in s'.disk.tables && s'.disk.tables[f.number] == f {
      assert f.number in Live(s);
    }
  }

  // ----- a new version

  lemma CommitManifest(s: Sys, s': Sys, step: Step)
    requires Inv(s.db) && Inv(After(s.db, step)) && ManifestInv(s) && CommitTo(s, s', step)
    ensures ManifestInv(s') && LastInv(s')
  {
    var db' := After(s.db, step);
    WrittenDistinct(s.db);
    assert db'.history == s.db.history;
    forall e | e in Content(db'.v) ensures e.sn <= s.db.Last() {
      assert e in db'.Total() && e in db'.Written();
    }
    hide Recency, NumbersBelow, JobOk, Installable;
    assert s.db.nextFile <= db'.nextFile;
  }

  lemma CommitTables(s: Sys, s': Sys, step: Step)
    requires TablesInv(s) && CommitTo(s, s', step)
    requires forall f :: f in FilesOf(s.db.v) ==> f.number < s.db.nextFile
    ensures TablesInv(s')
  {
    hide FilesOf, After, Installable;
    var db' := After(s.db, step);
    if step.DoFlush? && s.db.imm != Some({}) { FlushNumber(s.db, step); }
    forall f | f in FilesOf(db'.v) ensures f.number in s'.disk.tables && s'.disk.tables[f.number] == f {
      NewFiles(s.db, step, f);
    }
  }

  lemma FlushNumber(db: DB, step: Step)
    requires Installable(db, step) && step.DoFlush? && db.imm != Some({})
    ensures step.f.number == db.nextFile
  {
  }

  lemma NewFiles(db: DB, step: Step, f: File)
    requires Installable(db, step) && f in FilesOf(After(db, step).v)
    ensures f in FilesOf(db.v) || (step.DoFlush? && db.imm != Some({}) && f == step.f)
        || (step.DoFinish? && f in step.outs)
  {
    var w := After(db, step).v;
    var i :| 0 <= i < NUM_LEVELS && f in w[i];
    assert f in db.v[i] || (step.DoFlush? && db.imm != Some({}) && f == step.f) || (step.DoFinish? && f in step.outs)
        || (step.DoMove? && f == step.f);
    if step.DoMove? && f == step.f {
      assert f in db.v[step.c];
    }
  }

  lemma CommitLogs(s: Sys, s': Sys, step: Step)
    requires LogsInv(s) && ContentsInv(s) && CommitTo(s, s', step)
    ensures LogsInv(s') && ContentsInv(s')
  {
    hide Installable, After, RecordsOk;
    assert Inflight(s') == Inflight(s);
  }

  lemma CommitKeepsInv(s: Sys, s': Sys, step: Step)
    requires SysInv(s) && CommitTo(s, s', step)
    ensures SysInv(s')
  {
    hide Inv, ManifestInv, LastInv, TablesInv, LogsInv, ContentsInv, Next, After, FilesOf;
    NextKeepsInv(s.db, After(s.db, step), step);
    FilesBelow(s.db);
    CommitManifest(s, s', step);
    CommitTables(s, s', step);
    CommitLogs(s, s', step);
  }

  lemma InstallManifest(s: Sys, s': Sys)
    requires ManifestInv(s) && LastInv(s) && TablesInv(s) && InstallTo(s, s')
    ensures ManifestInv(s') && LastInv(s') && TablesInv(s')
  {
    hide Chosen, PlaceOk, OutputsOf, NumbersBelow;
  }

  lemma InstallContents(s: Sys, s': Sys)
    requires ManifestInv(s) && LogsInv(s) && ContentsInv(s) && InstallTo(s, s')
    ensures LogsInv(s') && ContentsInv(s')
  {
    hide Chosen, PlaceOk, OutputsOf, NumbersBelow, RecordsOk;
    assert Inflight(s') == Inflight(s);
  }

  lemma InstallKeepsInv(s: Sys, s': Sys)
    requires SysInv(s) && InstallTo(s, s')
    ensures SysInv(s')
  {
    NextKeepsInv(s.db, s'.db, s.commit.value);
    hide Inv, ManifestInv, LastInv, TablesInv, LogsInv, ContentsInv;
    InstallManifest(s, s');
    InstallContents(s, s');
  }
}
