/** A machine crash: exactly when nothing read back afterwards is newer than something lost. */
module CrashPrefix {
  import opened DbFormat
  import opened Versions
  import opened Database
  import opened Recovery
  import opened Durability
  import opened Crashes

  /** A machine crash leaves d, and v is what recovery then reads back. */
  ghost predicate CutAndReplayed(s: Sys, d: Disk, logs: seq<Log>, v: Version, newLog: nat, next: nat)
    requires s.disk.current in s.disk.manifests
  {
    Truncated(s.disk, d) && LogsFrom(d, Current(s.disk).logNumber, logs)
        && Replay(Current(s.disk), logs, v, newLog, next)
  }

  /** What is older than a kept entry of X is kept as well. */
  ghost predicate NoHole(s: Sys, v: Version, X: set<Entry>) {
    forall e, x :: e in Settled(s).Total() && x in X && x in Content(v) && e.sn < x.sn ==> e in Content(v)
  }

  ghost predicate NoHoles(s: Sys, X: set<Entry>)
    requires s.disk.current in s.disk.manifests
  {
    forall d, logs, v, newLog, next :: CutAndReplayed(s, d, logs, v, newLog, next) ==> NoHole(s, v, X)
  }

  /** No entry of the immutable memtable's log, if recovery would need that log, is past the synced part. */
  ghost predicate ImmSynced(s: Sys)
    requires s.db.imm.Some? ==> s.immLog in s.disk.logs
  {
    s.db.imm.None? || Flushing(s) || var l := s.disk.logs[s.immLog];
        Flat(l.records[..SyncedCount(l)]) == Flat(l.records)
  }

  ghost function MemEntries(s: Sys): set<Entry>
    requires s.memLog in s.disk.logs
  {
    Elements(Flat(s.disk.logs[s.memLog].records))
  }

  ghost function ImmEntries(s: Sys): set<Entry>
    requires s.db.imm.Some? ==> s.immLog in s.disk.logs
  {
    if s.db.imm.None? || Flushing(s) then {} else Elements(Flat(s.disk.logs[s.immLog].records))
  }

  // ----- where entries are before and after

  lemma InLogs(s: Sys)
    requires SysInv(s)
    ensures s.memLog in s.disk.logs && (s.db.imm.Some? ==> s.immLog in s.disk.logs)
        && s.disk.current in s.disk.manifests
  {
    hide Inv, ManifestInv, LastInv, TablesInv, ContentsInv;
    LogsThere(s);
    ManifestThere(s);
  }

  lemma ManifestThere(s: Sys)
    requires ManifestInv(s)
    ensures s.disk.current in s.disk.manifests
  {
  }

  lemma LogsThere(s: Sys)
    requires LogsInv(s)
    ensures s.memLog in s.disk.logs && (s.db.imm.Some? ==> s.immLog in s.disk.logs && s.immLog < s.memLog)
  {
  }

  lemma MemsAre(s: Sys)
    requires Inv(s.db) && ManifestInv(s) && ContentsInv(s)
    ensures s.memLog in s.disk.logs && (s.db.imm.Some? ==> s.immLog in s.disk.logs)
    ensures Settled(s).Mems() == ImmEntries(s) + MemEntries(s) && Settled(s).v == Current(s.disk).v
  {
    SettledParts(s);
    EntriesAre(s);
    hide Inv, ManifestInv, ContentsInv, Settled, MemEntries, ImmEntries, Inflight;
  }

  lemma SettledAges(s: Sys)
    requires Inv(s.db) && ManifestInv(s)
    ensures Older(Content(Settled(s).v), Settled(s).Mems())
  {
    SettledInv(s);
    hide Inv, ManifestInv, Settled;
    FromInv(Settled(s));
  }

  /** Manifest's tables, then the immutable memtable's log, then the memtable's log: three stretches of the write
    order. */
  lemma Stretches(s: Sys)
    requires SysInv(s)
    ensures s.memLog in s.disk.logs && (s.db.imm.Some? ==> s.immLog in s.disk.logs)
        && s.disk.current in s.disk.manifests
    ensures Settled(s).Total() == Content(Current(s.disk).v) + (ImmEntries(s) + MemEntries(s))
    ensures Older(Content(Current(s.disk).v), ImmEntries(s) + MemEntries(s)) && Older(ImmEntries(s), MemEntries(s))
  {
    InLogs(s);
    MemsAre(s);
    SettledAges(s);
    ImmOlder(s);
    hide Inv, ManifestInv, LastInv, TablesInv, LogsInv, ContentsInv, Settled, Content, MemEntries, ImmEntries, Older;
    var db := Settled(s);
    assert db.Total() == db.Mems() + Content(db.v);
  }

  lemma EntriesAre(s: Sys)
    requires ContentsInv(s)
    ensures s.memLog in s.disk.logs && MemEntries(s) == s.db.mem + Elements(Inflight(s))
    ensures (s.db.imm.Some? ==> s.immLog in s.disk.logs) && ImmEntries(s) == if Flushing(s) then {} else s.db.Imm()
  {
    hide RecordsOk, Inflight, Flushing;
  }

  lemma ImmOlder(s: Sys)
    requires Inv(s.db) && ContentsInv(s)
    ensures s.memLog in s.disk.logs && (s.db.imm.Some? ==> s.immLog in s.disk.logs)
        && Older(ImmEntries(s), MemEntries(s))
  {
    EntriesAre(s);
    MemWithin(s.db);
    hide ContentsInv, MemEntries, ImmEntries, Flushing, Recency, NumbersBelow, JobOk;
    forall a, b | a in ImmEntries(s) && b in MemEntries(s) ensures a.sn < b.sn {
      assert a in s.db.Imm();
      assert AgesOk(s.db);
    }
  }

  /** A log replayed holds a first part of one of the two memtables' logs. */
  lemma ReplayedPart(s: Sys, d: Disk, logs: seq<Log>, x: Entry) returns (l: Log)
    requires SysInv(s) && Truncated(s.disk, d) && LogsFrom(d, Current(s.disk).logNumber, logs)
    requires x in Elements(FlatLogs(RecordsOf(logs)))
    ensures l in logs && Classified(s, l) && x in Flat(l.records)
  {
    RecordsAt(logs, x);
    var i :| 0 <= i < |logs| && x in Flat(logs[i].records);
    hide Inv, ManifestInv, LastInv, TablesInv, LogsInv, ContentsInv, LogsFrom, Truncated, Classified, Flat;
    Classify(s, d, logs, i);
    l := logs[i];
  }

  lemma PartHasOlder(all: seq<Record>, part: seq<Record>, e: Entry, x: Entry)
    requires part <= all && Growing(Flat(all)) && e in Flat(all) && x in Flat(part) && e.sn < x.sn
    ensures e in Flat(part)
  {
    FlatPrefix(all, |part|);
    assert all[..|part|] == part;
    hide Flat;
    var a, p := Flat(all), Flat(part);
    var i :| 0 <= i < |a| && a[i] == e;
    var j :| 0 <= j < |p| && p[j] == x;
    assert a[j] == x;
    assert i < |p| && p[i] == e;
  }

  // ----- kept entries

  /** The log of the memtable is cut at its end only. */
  lemma OlderInMemLog(s: Sys, logs: seq<Log>, l: Log, e: Entry, x: Entry)
    requires ContentsInv(s) && l in logs && l.number == s.memLog && s.memLog in s.disk.logs
        && l.records <= s.disk.logs[s.memLog].records
    requires e in MemEntries(s) && x in Flat(l.records) && e.sn < x.sn
    ensures e in Elements(FlatLogs(RecordsOf(logs)))
  {
    hide Flat, FlatLogs, RecordsOf;
    PartHasOlder(s.disk.logs[s.memLog].records, l.records, e, x);
    RecordsAt(logs, e);
    var i :| 0 <= i < |logs| && logs[i] == l;
  }

  lemma OlderInImmLog(s: Sys, logs: seq<Log>, l: Log, e: Entry, x: Entry)
    requires ContentsInv(s) && l in logs && s.db.imm.Some? && s.immLog in s.disk.logs
        && l.records <= s.disk.logs[s.immLog].records
    requires e in ImmEntries(s) && x in Flat(l.records) && e.sn < x.sn
    ensures e in Elements(FlatLogs(RecordsOf(logs)))
  {
    hide Flat, FlatLogs, RecordsOf;
    PartHasOlder(s.disk.logs[s.immLog].records, l.records, e, x);
    RecordsAt(logs, e);
    var i :| 0 <= i < |logs| && logs[i] == l;
  }

  /** An entry older than a kept one is kept, unless it is the immutable memtable's and the kept one the memtable's. */
  lemma OlderKept(s: Sys, d: Disk, logs: seq<Log>, e: Entry, x: Entry)
    requires SysInv(s) && Truncated(s.disk, d) && LogsFrom(d, Current(s.disk).logNumber, logs)
    requires s.memLog in s.disk.logs && (s.db.imm.Some? ==> s.immLog in s.disk.logs)
    requires x in Elements(FlatLogs(RecordsOf(logs))) && e.sn < x.sn
    requires e in MemEntries(s) || (e in ImmEntries(s) && x !in MemEntries(s))
    ensures e in Elements(FlatLogs(RecordsOf(logs)))
  {
    var l := ReplayedPart(s, d, logs, x);
    ImmOlder(s);
    hide Inv, ManifestInv, LastInv, TablesInv, LogsInv, LogsFrom, Truncated, FlatLogs, RecordsOf, Flushing;
    if l.number == s.memLog && l.records <= s.disk.logs[s.memLog].records {
      PartIn(s.disk.logs[s.memLog].records, l.records, x);
      OlderInMemLog(s, logs, l, e, x);
    } else {
      assert l.records != [] by { assert Flat([]) == []; }
      PartIn(s.disk.logs[s.immLog].records, l.records, x);
      OlderInImmLog(s, logs, l, e, x);
    }
  }

  lemma PartIn(all: seq<Record>, part: seq<Record>, x: Entry)
    requires part <= all && x in Flat(part)
    ensures x in Flat(all)
  {
    FlatPrefix(all, |part|);
    assert all[..|part|] == part;
    var j :| 0 <= j < |Flat(part)| && Flat(part)[j] == x;
    assert Flat(all)[j] == x;
  }

  lemma ImmKept(s: Sys, d: Disk, logs: seq<Log>, e: Entry)
    requires SysInv(s) && Truncated(s.disk, d) && LogsFrom(d, Current(s.disk).logNumber, logs)
    requires s.db.imm.Some? && s.immLog in s.disk.logs && e in ImmEntries(s) && ImmSynced(s)
    ensures e in Elements(FlatLogs(RecordsOf(logs)))
  {
    ImmLogReplayed(s);
    hide Inv, ManifestInv, LastInv, TablesInv, LogsInv, ContentsInv, LogsFrom, Truncated, FlatLogs, RecordsOf,
        Flushing, Flat;
    SyncedReplayed(s.disk, d, Current(s.disk).logNumber, logs, s.immLog);
    assert e in SyncedPart(s.disk.logs[s.immLog]);
  }

  lemma KeptBelow(s: Sys, d: Disk, logs: seq<Log>, v: Version, newLog: nat, next: nat, e: Entry, x: Entry)
    requires SysInv(s) && CutAndReplayed(s, d, logs, v, newLog, next)
    requires s.memLog in s.disk.logs && (s.db.imm.Some? ==> s.immLog in s.disk.logs)
    requires ImmSynced(s) || x !in MemEntries(s)
    requires e in Settled(s).Total() && x in Content(v) && e.sn < x.sn
    ensures e in Content(v)
  {
    Stretches(s);
    LogsWithinMems(s, d, logs);
    MemsAre(s);
    hide SysInv, LogsFrom, Truncated, FlatLogs, RecordsOf, ImmSynced, MemEntries, ImmEntries, Content, Settled,
        Recency, NumbersBelow, NewTables;
    if e !in Content(Current(s.disk).v) {
      assert x !in Content(Current(s.disk).v);
      if e in ImmEntries(s) && x in MemEntries(s) {
        ImmSome(s, e);
        ImmKept(s, d, logs, e);
      } else {
        OlderKept(s, d, logs, e, x);
      }
    }
  }

  lemma ImmSome(s: Sys, e: Entry)
    requires (s.db.imm.Some? ==> s.immLog in s.disk.logs) && e in ImmEntries(s)
    ensures s.db.imm.Some? && !Flushing(s)
  {
  }

  // ----- a hole

  /** The immutable memtable's log loses what was not synced, everything else stays. */
  ghost function CutImm(s: Sys): Disk
    requires s.immLog in s.disk.logs
  {
    var l := s.disk.logs[s.immLog];
    s.disk.(logs := s.disk.logs[s.immLog := LogFile(l.records[..SyncedCount(l)], l.synced)])
  }

  lemma CutAllowed(s: Sys)
    requires s.immLog in s.disk.logs
    ensures Truncated(s.disk, CutImm(s))
  {
  }

  /** The first entry past the synced part. */
  lemma FirstUnsynced(l: LogFile) returns (e: Entry)
    requires Growing(Flat(l.records)) && Flat(l.records[..SyncedCount(l)]) != Flat(l.records)
    ensures e in Flat(l.records) && e !in Flat(l.records[..SyncedCount(l)])
  {
    FlatPrefix(l.records, SyncedCount(l));
    hide Flat;
    var a, p := Flat(l.records), Flat(l.records[..SyncedCount(l)]);
    e := a[|p|];
    forall i | 0 <= i < |p| ensures p[i] != e {
      assert a[i] == p[i] && a[i].sn < a[|p|].sn;
    }
  }

  lemma ReadFromCut(s: Sys, logs: seq<Log>, y: Entry)
    requires SysInv(s) && s.db.imm.Some? && s.immLog in s.disk.logs && s.memLog in s.disk.logs && s.immLog < s.memLog
    requires LogsFrom(CutImm(s), Current(s.disk).logNumber, logs) && y in Elements(FlatLogs(RecordsOf(logs)))
    ensures var l := s.disk.logs[s.immLog]; y in MemEntries(s) || y in Flat(l.records[..SyncedCount(l)])
  {
    CutAllowed(s);
    var l := ReplayedPart(s, CutImm(s), logs, y);
    hide Inv, ManifestInv, LastInv, TablesInv, LogsInv, ContentsInv, Truncated, FlatLogs, RecordsOf, Flushing;
    if l.number == s.memLog && l.records <= s.disk.logs[s.memLog].records {
      PartIn(s.disk.logs[s.memLog].records, l.records, y);
    } else {
      assert l.records != [] by { assert Flat([]) == []; }
    }
  }

  /** Recovery goes through after this cut. */
  lemma CutReplays(s: Sys) returns (logs: seq<Log>, v: Version, newLog: nat, next: nat)
    requires SysInv(s) && s.immLog in s.disk.logs && s.disk.current in s.disk.manifests
    ensures CutAndReplayed(s, CutImm(s), logs, v, newLog, next)
  {
    var m := Current(s.disk);
    CutAllowed(s);
    LogsListed(CutImm(s), m.logNumber);
    logs :| LogsFrom(CutImm(s), m.logNumber, logs);
    ReplayReady(s, CutImm(s), logs);
    hide SysInv, LogsFrom, Truncated, FlatLogs, RecordsOf, Growing, Older, Recency, NumbersBelow, Replay;
    v, newLog, next := CanReplay(m, logs);
  }

  lemma LostEntry(s: Sys, logs: seq<Log>) returns (e: Entry)
    requires SysInv(s) && s.memLog in s.disk.logs && (s.db.imm.Some? ==> s.immLog in s.disk.logs)
        && s.disk.current in s.disk.manifests
    requires !ImmSynced(s) && LogsFrom(CutImm(s), Current(s.disk).logNumber, logs)
        && Older(ImmEntries(s), MemEntries(s))
    ensures e in ImmEntries(s) && e !in Elements(FlatLogs(RecordsOf(logs)))
  {
    ImmGrows(s);
    LogsThere(s);
    e := FirstUnsynced(s.disk.logs[s.immLog]);
    hide Inv, ManifestInv, LastInv, TablesInv, LogsInv, ContentsInv, LogsFrom, Flushing, MemEntries, FlatLogs,
        RecordsOf, Flat;
    assert e in ImmEntries(s);
    if e in Elements(FlatLogs(RecordsOf(logs))) { ReadFromCut(s, logs, e); }
  }

  lemma Hole(s: Sys, logs: seq<Log>, v: Version, newLog: nat, next: nat, x: Entry)
    requires SysInv(s) && s.memLog in s.disk.logs && (s.db.imm.Some? ==> s.immLog in s.disk.logs)
        && s.disk.current in s.disk.manifests
    requires !ImmSynced(s) && x in MemEntries(s) && CutAndReplayed(s, CutImm(s), logs, v, newLog, next)
    ensures x in Content(v) && !NoHole(s, v, {x})
  {
    Stretches(s);
    var e := LostEntry(s, logs);
    LogsThere(s);
    MemLogReplayed(s);
    MemLogRead(s, logs, x);
    hide SysInv, ImmSynced, LogsFrom, Truncated, FlatLogs, RecordsOf, Recency, NumbersBelow, NewTables, Settled,
        Content, MemEntries, ImmEntries;
    assert e !in Content(v);
  }

  /** Where the immutable memtable's log has an entry past its synced part, a machine crash may lose it and keep
    any given entry of the memtable. */
  lemma HoleAt(s: Sys, x: Entry)
    requires SysInv(s) && s.memLog in s.disk.logs && (s.db.imm.Some? ==> s.immLog in s.disk.logs)
        && s.disk.current in s.disk.manifests
    requires !ImmSynced(s) && x in MemEntries(s)
    ensures exists d, logs, v, newLog, next :: CutAndReplayed(s, d, logs, v, newLog,
        next) && x in Content(v) && !NoHole(s, v, {x})
  {
    var logs, v, newLog, next := CutReplays(s);
    Hole(s, logs, v, newLog, next, x);
  }

  lemma ImmGrows(s: Sys)
    requires ContentsInv(s) && (s.db.imm.Some? ==> s.immLog in s.disk.logs) && !ImmSynced(s)
    ensures Growing(Flat(s.disk.logs[s.immLog].records))
  {
    hide Flat, Growing;
  }

  lemma MemLogRead(s: Sys, logs: seq<Log>, x: Entry)
    requires s.immLog in s.disk.logs && s.memLog in s.disk.logs && s.immLog < s.memLog
        && s.disk.current in s.disk.manifests
    requires Current(s.disk).logNumber <= s.memLog && LogsFrom(CutImm(s), Current(s.disk).logNumber, logs)
        && x in MemEntries(s)
    ensures x in Elements(FlatLogs(RecordsOf(logs)))
  {
    hide Flat, FlatLogs, RecordsOf;
    var i := LogListed(CutImm(s), Current(s.disk).logNumber, logs, s.memLog);
    RecordsAt(logs, x);
  }

  // ----- exactly when

  lemma NoHolesFor(s: Sys, X: set<Entry>)
    requires SysInv(s) && s.memLog in s.disk.logs && (s.db.imm.Some? ==> s.immLog in s.disk.logs)
        && s.disk.current in s.disk.manifests
    ensures NoHoles(s, X) <==> ImmSynced(s) || X !! MemEntries(s)
  {
    hide SysInv, CutAndReplayed, Content, Settled, ImmSynced, MemEntries;
    if ImmSynced(s) || X !! MemEntries(s) {
      forall d, logs, v, newLog, next | CutAndReplayed(s, d, logs, v, newLog, next) ensures NoHole(s, v, X) {
        forall e, x | e in Settled(s).Total() && x in X && x in Content(v) && e.sn < x.sn ensures e in Content(v) {
          KeptBelow(s, d, logs, v, newLog, next, e, x);
        }
      }
    } else {
      var x :| x in X && x in MemEntries(s);
      HoleAt(s, x);
      var d, logs, v, newLog, next :| CutAndReplayed(s, d, logs, v, newLog, next) && x in Content(v)
          && !NoHole(s, v, {x});
      assert !NoHole(s, v, X);
    }
  }

  /** What a machine crash leaves is free of holes, however the logs are cut, exactly when the immutable memtable's log
    has nothing past its synced part (or is no longer needed), or the memtable's log is still without entries. */
  lemma NoHolesIff(s: Sys)
    requires SysInv(s)
    ensures s.memLog in s.disk.logs && (s.db.imm.Some? ==> s.immLog in s.disk.logs)
        && s.disk.current in s.disk.manifests
    ensures NoHoles(s, Settled(s).Total()) <==> ImmSynced(s) || Flat(s.disk.logs[s.memLog].records) == []
  {
    Stretches(s);
    NoHolesFor(s, Settled(s).Total());
    hide SysInv, NoHoles, Settled, ImmSynced, ImmEntries, Content, Flat;
    assert MemEntries(s) <= Settled(s).Total();
    var es := Flat(s.disk.logs[s.memLog].records);
    if es != [] { assert es[0] in MemEntries(s) && es[0] in Settled(s).Total(); }
  }

  /** A write acknowledged as synced brings every earlier write through a machine crash, however the logs are cut,
    exactly when the immutable memtable's log is synced to its end (or no longer needed),
        or nothing in the memtable was synced. */
  lemma SyncedBringsEarlierIff(s: Sys)
    requires SysInv(s)
    ensures s.memLog in s.disk.logs && (s.db.imm.Some? ==> s.immLog in s.disk.logs)
        && s.disk.current in s.disk.manifests
    ensures NoHoles(s, SyncedPart(s.disk.logs[s.memLog])) <==> ImmSynced(s) || SyncedPart(s.disk.logs[s.memLog]) == {}
  {
    Stretches(s);
    var X := SyncedPart(s.disk.logs[s.memLog]);
    NoHolesFor(s, X);
    SyncedWithin(s.disk.logs[s.memLog]);
    hide SysInv, NoHoles, Settled, ImmSynced, ImmEntries, Content, Flat, SyncedPart;
    assert X <= MemEntries(s);
  }
}
