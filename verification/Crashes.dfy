/** Crashes at any point of a run: what recovery finds on the disk is what was there in memory. */
module Crashes {
  import opened DbFormat
  import opened Options
  import opened Versions
  import opened Database
  import opened ReadsOverRuns
  import opened Choosing
  import opened Recovery
  import opened Durability
  import opened Stored

  // ----- lists of logs

  lemma {:induction false} FlatHas(rs: seq<Record>, e: Entry)
    ensures e in Flat(rs) <==> exists i :: 0 <= i < |rs| && e in rs[i].entries
    decreases |rs|
  {
    if rs != [] {
      var n := |rs| - 1;
      FlatHas(rs[..n], e);
      if e in Flat(rs[..n]) {
        var i :| 0 <= i < n && e in rs[..n][i].entries;
        assert e in rs[i].entries;
      }
      if i :| 0 <= i < n && e in rs[i].entries {
        assert e in rs[..n][i].entries;
      }
    }
  }

  lemma {:induction false} FlatLogsHas(ls: seq<seq<Record>>, e: Entry)
    ensures e in FlatLogs(ls) <==> exists i :: 0 <= i < |ls| && e in Flat(ls[i])
    decreases |ls|
  {
    hide Flat;
    if ls != [] {
      var n := |ls| - 1;
      FlatLogsHas(ls[..n], e);
      if e in FlatLogs(ls[..n]) {
        var i :| 0 <= i < n && e in Flat(ls[..n][i]);
        assert e in Flat(ls[i]);
      }
      if i :| 0 <= i < n && e in Flat(ls[i]) {
        assert e in Flat(ls[..n][i]);
      }
    }
  }

  ghost predicate LogsGrow(ls: seq<seq<Record>>) {
    && (forall i :: 0 <= i < |ls| ==> Growing(Flat(ls[i])))
    && (forall i, j :: 0 <= i < j < |ls| ==> Older(Elements(Flat(ls[i])), Elements(Flat(ls[j]))))
  }

  lemma {:induction false} FlatLogsGrow(ls: seq<seq<Record>>)
    requires LogsGrow(ls)
    ensures Growing(FlatLogs(ls))
    decreases |ls|
  {
    if ls != [] {
      var n := |ls| - 1;
      FlatLogsGrow(ls[..n]);
      forall a, b | a in Elements(FlatLogs(ls[..n])) && b in Elements(Flat(ls[n])) ensures a.sn < b.sn {
        FlatLogsHas(ls[..n], a);
        var i :| 0 <= i < n && a in Flat(ls[..n][i]);
        assert a in Elements(Flat(ls[i])) && Older(Elements(Flat(ls[i])), Elements(Flat(ls[n])));
      }
      GrowJoin(FlatLogs(ls[..n]), Flat(ls[n]));
    }
  }

  lemma {:induction false} MaxOverBounds(m: nat, logs: seq<Log>)
    ensures m <= MaxOver(m, logs)
    ensures forall i, j :: 0 <= i < |logs| && 0 <= j < |logs[i].records| ==>
        logs[i].records[j].Last() <= MaxOver(m, logs)
    ensures MaxOver(m, logs) == m ||
        exists i, j :: 0 <= i < |logs| && 0 <= j < |logs[i].records| && logs[i].records[j].Last() == MaxOver(m, logs)
    decreases |logs|
  {
    if logs != [] {
      var n := |logs| - 1;
      MaxOverBounds(m, logs[..n]);
      var k := MaxOver(m, logs[..n]);
      var r := MaxLast(k, logs[n].records);
      forall i, j | 0 <= i < |logs| && 0 <= j < |logs[i].records| ensures logs[i].records[j].Last() <= r {
        if i < n { assert logs[..n][i] == logs[i]; }
      }
      if r == k && r != m {
        var i, j :| 0 <= i < n && 0 <= j < |logs[..n][i].records| && logs[..n][i].records[j].Last() == k;
        assert logs[i].records[j].Last() == r;
      }
    }
  }

  // ----- a disk whose logs may have lost their tails

  /** The logs replayed are prefixes of the memtables' logs, or empty. */
  ghost predicate Classified(s: Sys, l: Log) {
    || l.records == []
    || (l.number == s.memLog && s.memLog in s.disk.logs && l.records <= s.disk.logs[s.memLog].records)
    || (s.db.imm.Some? && !Flushing(s) && l.number == s.immLog && s.immLog in s.disk.logs
       && l.records <= s.disk.logs[s.immLog].records)
  }

  lemma Classify(s: Sys, d: Disk, logs: seq<Log>, i: nat)
    requires ManifestInv(s) && LogsInv(s) && Truncated(s.disk, d) && LogsFrom(d, Current(s.disk).logNumber, logs)
        && i < |logs|
    ensures Classified(s, logs[i])
  {
    hide Installable, After, NumbersBelow;
    var n := logs[i].number;
    assert logs[i].number >= Current(s.disk).logNumber;
    if logs[i].records != [] {
      assert n in d.logs && d.logs[n].records == logs[i].records;
      assert n in s.disk.logs;
    }
  }

  /** What a log holds of the memtables, oldest of both first. */
  lemma ClassifiedContent(s: Sys, l: Log)
    requires ContentsInv(s) && Classified(s, l)
    ensures Growing(Flat(l.records))
    ensures forall e :: e in Elements(Flat(l.records)) ==>
              (l.number == s.memLog && e in s.db.mem + Elements(Inflight(s)))
                  || (s.db.imm.Some? && !Flushing(s) && l.number == s.immLog && e in s.db.imm.value)
    ensures forall j :: 0 <= j < |l.records| ==> l.records[j].Last() <= s.db.Last() + |Inflight(s)|
  {
    if l.records != [] {
      var rs := if l.number == s.memLog && s.memLog in s.disk.logs && l.records <= s.disk.logs[s.memLog].records
                then s.disk.logs[s.memLog].records else s.disk.logs[s.immLog].records;
      FlatPrefix(rs, |l.records|);
      assert rs[..|l.records|] == l.records;
      PrefixGrows(Flat(rs), Flat(l.records));
      forall j | 0 <= j < |l.records| ensures l.records[j].Last() <= s.db.Last() + |Inflight(s)| {
        assert rs[j] == l.records[j];
      }
    } else {
      assert Flat(l.records) == [];
    }
  }

  lemma PrefixGrows(all: seq<Entry>, part: seq<Entry>)
    requires part <= all && Growing(all)
    ensures Growing(part) && Elements(part) <= Elements(all)
  {
    assert forall i :: 0 <= i < |part| ==> part[i] == all[i];
    forall e | e in Elements(part) ensures e in Elements(all) {
      var i :| 0 <= i < |part| && part[i] == e;
      assert all[i] == e;
    }
  }

  // ----- the engine state that the disk stands for

  lemma SettledInv(s: Sys)
    requires Inv(s.db) && ManifestInv(s)
    ensures Inv(After'(s)) && Inv(Settled(s))
    ensures s.commit.Some? ==> Next(s.db, After'(s), s.commit.value)
    ensures s.inflight.Some? ==> Write(After'(s), Settled(s), s.inflight.value)
    ensures Settled(s).last == s.db.last + |Inflight(s)|
    ensures s.inflight.None? ==> Settled(s) == After'(s)
  {
    hide Inv, Next, After, ManifestInv, Write;
    if s.commit.Some? {
      CommitIsNext(s);
      NextKeepsInv(s.db, After'(s), s.commit.value);
      AfterHistory(s.db, s.commit.value);
    }
    var db := After'(s);
    if s.inflight.Some? {
      assert Elements(Inflight(s)) == set e | e in Inflight(s);
      SettledIsWrite(s);
      WriteKeepsInv(db, Settled(s), s.inflight.value);
    } else {
      assert Elements([]) == {} && db.history + [] == db.history && db.mem + {} == db.mem;
      assert Settled(s) == db;
    }
  }

  lemma SettledIsWrite(s: Sys)
    requires s.inflight.Some?
    ensures Write(After'(s), Settled(s), s.inflight.value)
  {
    if s.commit.Some? { AfterHistory(s.db, s.commit.value); }
    hide After, Stamped;
    assert Elements(Inflight(s)) == set e | e in Inflight(s);
  }

  lemma CommitIsNext(s: Sys)
    requires ManifestInv(s) && s.commit.Some?
    ensures Next(s.db, After'(s), s.commit.value)
  {
    hide Next, After, NumbersBelow;
  }

  lemma AfterHistory(db: DB, step: Step)
    ensures After(db, step).history == db.history && After(db, step).mem == db.mem && After(db, step).snaps == db.snaps
        && After(db, step).last == db.last
  {
  }

  lemma SettledParts(s: Sys)
    requires ManifestInv(s)
    ensures Settled(s).history == Survived(s) && Settled(s).v == Current(s.disk).v
    ensures Settled(s).Mems() == s.db.mem + Elements(Inflight(s)) + if Flushing(s) then {} else s.db.Imm()
  {
    if s.commit.Some? {
      AfterHistory(s.db, s.commit.value);
      AfterImm(s.db, s.commit.value);
    }
    hide After, Installable, NumbersBelow;
  }

  lemma AfterImm(db: DB, step: Step)
    requires Installable(db, step)
    ensures After(db, step).imm == if step.DoFlush? then None else db.imm
  {
    hide Chosen, PlaceOk, OutputsOf;
  }

  // ----- the logs that recovery reads

  lemma RecordsAt(logs: seq<Log>, e: Entry)
    ensures e in Elements(FlatLogs(RecordsOf(logs))) <==> exists i :: 0 <= i < |logs| && e in Flat(logs[i].records)
  {
    hide Flat, FlatLogs;
    var ls := RecordsOf(logs);
    FlatLogsHas(ls, e);
    if i :| 0 <= i < |ls| && e in Flat(ls[i]) {
      assert e in Flat(logs[i].records);
    }
    if i :| 0 <= i < |logs| && e in Flat(logs[i].records) {
      assert e in Flat(ls[i]);
    }
  }

  lemma LogsWithinMems(s: Sys, d: Disk, logs: seq<Log>)
    requires ManifestInv(s) && LogsInv(s) && ContentsInv(s) && Truncated(s.disk, d)
        && LogsFrom(d, Current(s.disk).logNumber, logs)
    ensures Elements(FlatLogs(RecordsOf(logs))) <= Settled(s).Mems()
  {
    SettledParts(s);
    hide ManifestInv, LogsInv, ContentsInv, Truncated, LogsFrom, Flat, FlatLogs, Settled, RecordsOf;
    forall e | e in Elements(FlatLogs(RecordsOf(logs))) ensures e in Settled(s).Mems() {
      RecordsAt(logs, e);
      var i :| 0 <= i < |logs| && e in Flat(logs[i].records);
      Classify(s, d, logs, i);
      ClassifiedContent(s, logs[i]);
      assert e in Elements(Flat(logs[i].records));
    }
  }

  lemma OlderLog(s: Sys, a: Log, b: Log)
    requires Inv(s.db) && LogsInv(s) && ContentsInv(s) && Classified(s, a) && Classified(s, b) && a.number < b.number
    ensures Older(Elements(Flat(a.records)), Elements(Flat(b.records)))
  {
    ClassifiedContent(s, a);
    ClassifiedContent(s, b);
    MemWithin(s.db);
    hide ContentsInv, Flat, Classified, Recency, NumbersBelow, JobOk;
    forall x, y | x in Elements(Flat(a.records)) && y in Elements(Flat(b.records)) ensures x.sn < y.sn {
      assert s.db.imm.Some? && x in s.db.imm.value && y in s.db.mem + Elements(Inflight(s));
      assert AgesOk(s.db);
    }
  }

  /** Recovery can run: all tables of the manifest are there, and the logged entries are in age order and
    newer than the tables. */
  lemma ReplayReady(s: Sys, d: Disk, logs: seq<Log>)
    requires SysInv(s) && Truncated(s.disk, d) && LogsFrom(d, Current(s.disk).logNumber, logs)
    ensures var m := Current(s.disk); Recency(m.v) && NumbersBelow(m.v, m.nextFile) && Have(s.disk.tables, FilesOf(m.v))
    ensures var all := FlatLogs(RecordsOf(logs)); Growing(all) && Older(Content(Current(s.disk).v), Elements(all))
  {
    SettledInv(s);
    SettledParts(s);
    LogsWithinMems(s, d, logs);
    var ls := RecordsOf(logs);
    hide ManifestInv, ContentsInv, LogsInv, TablesInv, Inv, Truncated, LogsFrom, Settled, Flat, FlatLogs, Classified;
    forall i | 0 <= i < |ls| ensures Growing(Flat(ls[i])) {
      Classify(s, d, logs, i);
      ClassifiedContent(s, logs[i]);
    }
    forall i, j | 0 <= i < j < |ls| ensures Older(Elements(Flat(ls[i])), Elements(Flat(ls[j]))) {
      Classify(s, d, logs, i);
      Classify(s, d, logs, j);
      Ascends(d, Current(s.disk).logNumber, logs, i, j);
      OlderLog(s, logs[i], logs[j]);
    }
    FlatLogsGrow(ls);
    FromInv(Settled(s));
    TablesThere(s);
  }

  lemma Ascends(d: Disk, from: nat, logs: seq<Log>, i: nat, j: nat)
    requires LogsFrom(d, from, logs) && i < j < |logs|
    ensures logs[i].number < logs[j].number
  {
  }

  lemma FromInv(db: DB)
    requires Inv(db)
    ensures Recency(db.v) && NumbersBelow(db.v, db.nextFile) && Older(Content(db.v), db.Mems())
  {
    hide Recency, NumbersBelow, JobOk;
  }

  lemma TablesThere(s: Sys)
    requires TablesInv(s) && ManifestInv(s)
    ensures var m := Current(s.disk); Have(s.disk.tables, FilesOf(m.v)) && NumbersBelow(m.v, m.nextFile)
  {
    hide Installable, After;
  }

  // ----- a process crash: nothing is lost

  lemma LogListed(d: Disk, from: nat, logs: seq<Log>, n: nat) returns (i: nat)
    requires LogsFrom(d, from, logs) && n in d.logs && n >= from
    ensures i < |logs| && logs[i].number == n && logs[i].records == d.logs[n].records
  {
    i :| 0 <= i < |logs| && logs[i] == Log(n, d.logs[n].records);
  }

  lemma LogsHoldMems(s: Sys, logs: seq<Log>)
    requires ManifestInv(s) && LogsInv(s) && ContentsInv(s) && LogsFrom(s.disk, Current(s.disk).logNumber, logs)
    ensures Settled(s).Mems() <= Elements(FlatLogs(RecordsOf(logs)))
  {
    SettledParts(s);
    hide Settled, LogsFrom, Flat, FlatLogs, RecordsOf, RecordsOk, Installable, After, NumbersBelow;
    forall e | e in Settled(s).Mems() ensures e in Elements(FlatLogs(RecordsOf(logs))) {
      RecordsAt(logs, e);
      if e in s.db.mem + Elements(Inflight(s)) {
        var i := LogListed(s.disk, Current(s.disk).logNumber, logs, s.memLog);
        assert e in Elements(Flat(logs[i].records));
      } else {
        var i := LogListed(s.disk, Current(s.disk).logNumber, logs, s.immLog);
        assert e in Elements(Flat(logs[i].records));
      }
    }
  }

  lemma SameLogs(s: Sys, logs: seq<Log>)
    requires SysInv(s) && LogsFrom(s.disk, Current(s.disk).logNumber, logs)
    ensures Truncated(s.disk, s.disk) && Elements(FlatLogs(RecordsOf(logs))) == Settled(s).Mems()
  {
    hide Inv, ManifestInv, LogsInv, ContentsInv, LastInv, TablesInv, LogsFrom, FlatLogs, RecordsOf, Settled;
    LogsHoldMems(s, logs);
    LogsWithinMems(s, s.disk, logs);
  }

  /** Recovery finds the last sequence number that was given out. */
  lemma LastRecovered(s: Sys, logs: seq<Log>)
    requires SysInv(s) && LogsFrom(s.disk, Current(s.disk).logNumber, logs)
    ensures MaxOver(Current(s.disk).last, logs) == Settled(s).last
  {
    MaxOverBounds(Current(s.disk).last, logs);
    SettledLast(s);
    SameDisk(s.disk);
    LastWithin(s, s.disk, logs);
    LastIsLogged(s, logs);
    hide SysInv, Settled, LogsFrom, Truncated, MaxOver, Inflight;
  }

  lemma SettledLast(s: Sys)
    requires SysInv(s)
    ensures Settled(s).last == s.db.last + |Inflight(s)|
  {
    SettledInv(s);
  }

  lemma SameDisk(d: Disk)
    ensures Truncated(d, d)
  {
  }

  /** No log, however it is cut, has a sequence number that was not given out. */
  lemma LastWithin(s: Sys, d: Disk, logs: seq<Log>)
    requires SysInv(s) && Truncated(s.disk, d) && LogsFrom(d, Current(s.disk).logNumber, logs)
    ensures Current(s.disk).last <= s.db.last + |Inflight(s)|
    ensures forall i, j :: 0 <= i < |logs| && 0 <= j < |logs[i].records| ==>
        logs[i].records[j].Last() <= s.db.last + |Inflight(s)|
  {
    hide Inv, LastInv, TablesInv, LogsFrom, Installable, After, NumbersBelow, LogsInv, ContentsInv, Truncated;
    forall i, j | 0 <= i < |logs| && 0 <= j < |logs[i].records|
      ensures logs[i].records[j].Last() <= s.db.last + |Inflight(s)| {
      Classify(s, d, logs, i);
      ClassifiedContent(s, logs[i]);
    }
  }

  lemma LastIsLogged(s: Sys, logs: seq<Log>)
    requires SysInv(s) && LogsFrom(s.disk, Current(s.disk).logNumber, logs)
    ensures var last := s.db.last + |Inflight(s)|;
            last <= Current(s.disk).last || exists i, j ::
                0 <= i < |logs| && 0 <= j < |logs[i].records| && last <= logs[i].records[j].Last()
  {
    SameLogs(s, logs);
    SettledParts(s);
    hide ManifestInv, TablesInv, LogsFrom, Settled, Inv, Flat, FlatLogs, RecordsOf;
    if s.inflight.Some? {
      MemLogReplayed(s);
      var i := LogListed(s.disk, Current(s.disk).logNumber, logs, s.memLog);
      var j :| 0 <= j < |s.disk.logs[s.memLog].records|
          && s.disk.logs[s.memLog].records[j].Last() == s.db.Last() + |Inflight(s)|;
      assert logs[i].records[j].Last() == s.db.last + |Inflight(s)|;
    } else if s.db.last > Current(s.disk).last {
      var e :| e in s.db.history && e.sn == s.db.last;
      RecordsAt(logs, e);
      var i :| 0 <= i < |logs| && e in Flat(logs[i].records);
      Classify(s, s.disk, logs, i);
      EntryRecorded(s, logs[i], e);
    }
  }

  lemma MemLogReplayed(s: Sys)
    requires ManifestInv(s) && LogsInv(s)
    ensures Current(s.disk).logNumber <= s.memLog && s.memLog in s.disk.logs
  {
    hide Installable, After, NumbersBelow;
  }

  lemma EntryRecorded(s: Sys, l: Log, e: Entry)
    requires ContentsInv(s) && Classified(s, l) && e in Flat(l.records)
    ensures exists j :: 0 <= j < |l.records| && e.sn <= l.records[j].Last()
  {
    FlatHas(l.records, e);
    var j :| 0 <= j < |l.records| && e in l.records[j].entries;
    var k :| 0 <= k < |l.records[j].entries| && l.records[j].entries[k] == e;
    assert l.records != [];
    hide Flat, Growing;
    assert l.records[j].entries[k].sn == l.records[j].first + k;
  }

  // ----- reopening

  /** What cut-short opens leave behind adds no records. */
  lemma LeftLogs(d: Disk, left: Disk, from: nat, logs: seq<Log>)
    requires d.current in d.manifests && LeftBy(d, left) && LogsFrom(left, from, logs)
    ensures LogsFrom(d, from, logs)
  {
  }

  lemma {:induction false} WithoutHas(es: seq<Entry>, lost: set<Entry>)
    ensures forall e :: e in Without(es, lost) <==> e in es && e !in lost
    decreases |es|
  {
    if es != [] {
      WithoutHas(es[..|es| - 1], lost);
      assert es == es[..|es| - 1] + [es[|es| - 1]];
    }
  }

  lemma {:induction false} WithoutGrows(es: seq<Entry>, lost: set<Entry>)
    requires Growing(es)
    ensures Growing(Without(es, lost))
    decreases |es|
  {
    if es != [] {
      var n := |es| - 1;
      WithoutGrows(es[..n], lost);
      WithoutHas(es[..n], lost);
      var r := Without(es[..n], lost);
      forall i | 0 <= i < |r| ensures r[i].sn < es[n].sn {
        assert r[i] in r && r[i] in es[..n];
      }
    }
  }

  lemma {:induction false} WithoutNothing(es: seq<Entry>)
    ensures Without(es, {}) == es
    decreases |es|
  {
    if es != [] {
      WithoutNothing(es[..|es| - 1]);
    }
  }

  /** What is read back: the tables of the manifest and what is left of the memtables' entries. */
  ghost function ReadBack(logs: seq<Log>): set<Entry> { Elements(FlatLogs(RecordsOf(logs))) }

  lemma ReopenedContent(s: Sys, s': Sys, d: Disk, left: Disk, logs: seq<Log>)
    requires SysInv(s) && ReopenTo(s, s', d, left, logs)
    ensures LogsFrom(d, Current(s.disk).logNumber, logs) && ReadBack(logs) <= Settled(s).Mems()
    ensures s'.db.Total() == Content(s'.db.v) == Content(Settled(s).v) + ReadBack(logs) && s'.db.Mems() == {}
    ensures Lost(s, s'.db.v) == Settled(s).Mems() - ReadBack(logs)
    ensures Current(s'.disk).last == s'.db.last
  {
    LeftLogs(d, left, Current(s.disk).logNumber, logs);
    LogsWithinMems(s, d, logs);
    SettledParts(s);
    SettledApart(s);
    hide SysInv, LogsFrom, LeftBy, Truncated, Settled, FlatLogs, RecordsOf, Survived, Content, Without;
    assert s'.db.Mems() == {};
    var db := Settled(s);
    assert db.Total() == db.Mems() + Content(db.v);
  }

  /** Memtables and tables share no entry. */
  lemma SettledApart(s: Sys)
    requires SysInv(s)
    ensures Settled(s).Mems() !! Content(Settled(s).v)
  {
    SettledInv(s);
    hide ManifestInv, LastInv, TablesInv, LogsInv, ContentsInv, Settled, Inv;
    FromInv(Settled(s));
  }

  lemma ReopenedInv(db: DB, settled: DB, lost: set<Entry>)
    requires Inv(settled) && db == DB(Without(settled.history, lost), db.last, {}, None, db.v, [], db.nextFile, None)
    requires Recency(db.v) && NumbersBelow(db.v, db.nextFile) && Content(db.v) <= settled.Total() - lost
    requires forall e :: e in settled.history && e !in lost ==> e.sn <= db.last
    ensures Inv(db)
  {
    WithoutHas(settled.history, lost);
    ReopenedHistory(db, settled, lost);
    hide Recency, Content, Without, HistoryOk, NumbersBelow, JobOk;
    assert db.Mems() == {};
    assert db.Total() <= db.Written();
  }

  lemma ReopenedHistory(db: DB, settled: DB, lost: set<Entry>)
    requires HistoryOk(settled) && db.history == Without(settled.history, lost)
    requires forall e :: e in settled.history && e !in lost ==> e.sn <= db.last
    ensures HistoryOk(db)
  {
    WithoutHas(settled.history, lost);
    WithoutGrows(settled.history, lost);
    hide Without;
    forall i | 0 <= i < |db.history| ensures 1 <= db.history[i].sn <= db.last {
      assert db.history[i] in db.history;
    }
  }

  /** Every entry kept is within the last sequence number that recovery finds. */
  lemma KeptWithin(s: Sys, d: Disk, logs: seq<Log>, e: Entry)
    requires SysInv(s) && Truncated(s.disk, d) && LogsFrom(d, Current(s.disk).logNumber, logs)
    requires e in Settled(s).history && (e !in Settled(s).Mems() || e in ReadBack(logs))
    ensures e.sn <= MaxOver(Current(s.disk).last, logs)
  {
    MaxOverBounds(Current(s.disk).last, logs);
    SettledParts(s);
    if e in ReadBack(logs) {
      RecordsAt(logs, e);
      var i :| 0 <= i < |logs| && e in Flat(logs[i].records);
      hide Inv, ManifestInv, LastInv, TablesInv, LogsInv, LogsFrom, Truncated, Flat, FlatLogs, RecordsOf, MaxOver,
          Settled, ContentsInv;
      Classify(s, d, logs, i);
      EntryRecorded(s, logs[i], e);
    } else {
      OldWithin(s, e);
    }
  }

  lemma OldWithin(s: Sys, e: Entry)
    requires SysInv(s) && e in Survived(s) && e !in s.db.mem + Elements(Inflight(s)) +
        if Flushing(s) then {} else s.db.Imm()
    ensures e.sn <= Current(s.disk).last
  {
    hide Inv, ManifestInv, TablesInv, LogsInv, ContentsInv, Flushing, Stamped;
    assert Survived(s) == s.db.history + Inflight(s);
    assert e in s.db.history || e in Elements(Inflight(s));
  }

  /** Recovery writes no table over one that the manifest names. */
  lemma ReopenedTables(m: Manifest, v: Version, t0: map<nat, File>, t: map<nat, File>, t': map<nat, File>)
    requires NumbersBelow(m.v, m.nextFile) && Have(t0, FilesOf(m.v)) && NewTables(m, v)
    requires forall n :: n in t0 && n < m.nextFile ==> n in t && t[n] == t0[n]
    requires TablesAdded(t, t', FilesOf(v) - FilesOf(m.v))
    ensures Have(t', FilesOf(v))
  {
    var added := FilesOf(v) - FilesOf(m.v);
    forall f | f in added ensures f.number > m.nextFile {
      var i :| 0 <= i < NUM_LEVELS && f in v[i];
      assert f !in m.v[i];
    }
    forall f | f in FilesOf(m.v) ensures f.number in t' && t'[f.number] == f {
      assert f.number < m.nextFile;
    }
  }

  /** The new log gets the highest number. */
  lemma ReopenedLogs(s: Sys, s': Sys, d: Disk, left: Disk, logs: seq<Log>)
    requires ManifestInv(s) && LogsInv(s) && ReopenTo(s, s', d, left, logs)
    ensures forall n :: n in left.logs ==> n < s'.memLog
  {
    MemLogReplayed(s);
    hide ManifestInv, LogsInv, Reopened, Survived, NewTables, Recency, NumbersBelow, Without, Lost, Settled;
    assert s.memLog in d.logs;
    forall n | n in left.logs ensures n < s'.memLog {
      if n >= Current(s.disk).logNumber {
        var i :| 0 <= i < |logs| && logs[i] == Log(n, left.logs[n].records);
      } else {
        var i :| 0 <= i < |logs| && logs[i] == Log(s.memLog, left.logs[s.memLog].records);
      }
    }
  }

  /** A state with everything in tables and one empty log. */
  ghost predicate JustOpened(s: Sys) {
    && s.commit == None && s.logNumber == s.memLog && s.pinned == {} && s.inflight == None
    && s.db == DB(s.db.history, s.db.last, {}, None, s.db.v, [], s.memLog + 1, None)
    && s.disk.current in s.disk.manifests && s.disk.current < s.memLog
    && Current(s.disk) == Manifest(s.db.v, s.memLog, s.db.nextFile, s.db.last)
    && s.memLog in s.disk.logs && s.disk.logs[s.memLog] == LogFile([], 0) && forall n :: n in s.disk.logs ==>
       n <= s.memLog
  }

  lemma OpenedManifest(s: Sys)
    requires JustOpened(s) && Inv(s.db)
    ensures ManifestInv(s) && LastInv(s)
  {
    WrittenDistinct(s.db);
    assert forall e :: e in Content(s.db.v) ==> e in s.db.Total();
    hide Recency;
  }

  lemma OpenedLogs(s: Sys)
    requires JustOpened(s) && Have(s.disk.tables, FilesOf(s.db.v))
    ensures TablesInv(s) && LogsInv(s) && ContentsInv(s)
  {
    assert Inflight(s) == [] && Flat([]) == [] && Elements([]) == {};
    hide FilesOf;
  }

  lemma IsJustOpened(s: Sys, s': Sys, d: Disk, left: Disk, logs: seq<Log>)
    requires ReopenTo(s, s', d, left, logs) && forall n :: n in left.logs ==> n < s'.memLog
    ensures JustOpened(s')
  {
    hide LogsFrom, Survived, TablesAdded, Recency, NumbersBelow, NewTables, Content, MaxOver, Without, Lost;
  }

  lemma TablesReopened(s: Sys, s': Sys, d: Disk, left: Disk, logs: seq<Log>)
    requires ManifestInv(s) && TablesInv(s) && ReopenTo(s, s', d, left, logs)
    ensures Have(s'.disk.tables, FilesOf(s'.db.v))
  {
    TablesThere(s);
    hide ManifestInv, TablesInv, LogsFrom, Survived, TablesAdded, Recency, NumbersBelow, NewTables, Content, MaxOver,
        FilesOf, Without, Lost;
    ReopenedTables(Current(s.disk), s'.db.v, s.disk.tables, left.tables, s'.disk.tables);
  }

  lemma VersionReopened(s: Sys, s': Sys, d: Disk, left: Disk, logs: seq<Log>)
    requires SysInv(s) && ReopenTo(s, s', d, left, logs)
    ensures Inv(s'.db)
  {
    SettledInv(s);
    SettledParts(s);
    ReopenedContent(s, s', d, left, logs);
    hide SysInv, Inv, ManifestInv, Settled, Survived, LogsFrom, Recency, NumbersBelow, NewTables, Content, Reopened,
        MaxOver, Lost, ReadBack, Without, LeftBy, Truncated;
    var db, lost := Settled(s), Lost(s, s'.db.v);
    forall e | e in db.history && e !in lost ensures e.sn <= s'.db.last { KeptWithin(s, d, logs, e); }
    MoreNumbersBelow(s'.db.v, s'.memLog, s'.db.nextFile);
    assert db.Total() == db.Mems() + Content(db.v);
    SettledApart(s);
    ReopenedInv(s'.db, db, lost);
  }

  lemma MoreNumbersBelow(v: Version, n: nat, k: nat)
    requires NumbersBelow(v, n) && n <= k
    ensures NumbersBelow(v, k)
  {
  }

  /** A crash at any point, of the process or of the machine, then recovery: the invariant holds again. */
  lemma ReopenKeepsInv(s: Sys, s': Sys, d: Disk, left: Disk, logs: seq<Log>)
    requires SysInv(s) && ReopenTo(s, s', d, left, logs)
    ensures SysInv(s') && s'.db.snaps == [] && s'.db.Mems() == {}
        && Content(s'.db.v) == Content(Settled(s).v) + ReadBack(logs)
  {
    ReopenedContent(s, s', d, left, logs);
    ReopenedLogs(s, s', d, left, logs);
    VersionReopened(s, s', d, left, logs);
    TablesReopened(s, s', d, left, logs);
    IsJustOpened(s, s', d, left, logs);
    hide Inv, Settled, ManifestInv, LastInv, TablesInv, LogsInv, ContentsInv, ReopenTo, Have, FilesOf, Content,
        ReadBack, LogsFrom, Lost;
    OpenedManifest(s');
    OpenedLogs(s');
  }

  /** The engine state after recovery. */
  lemma ReopenedDb(s: Sys, s': Sys, d: Disk, left: Disk, logs: seq<Log>)
    requires ReopenTo(s, s', d, left, logs)
    ensures s'.db.history == Without(Survived(s), Lost(s, s'.db.v)) && s'.db.last == MaxOver(Current(s.disk).last, logs)
    ensures s'.db.Mems() == {} && s'.db.snaps == [] && s'.db.Horizon() == s'.db.last
  {
    hide LogsFrom, Replay, Reopened, MaxOver, Without, Lost, LeftBy, Truncated, Survived;
    assert s'.db.Mems() == {};
  }

  lemma ProcessReadsAll(s: Sys, s': Sys, left: Disk, logs: seq<Log>)
    requires SysInv(s) && ReopenTo(s, s', s.disk, left, logs)
    ensures Lost(s, s'.db.v) == {} && Content(s'.db.v) == Settled(s).Total()
    ensures LogsFrom(s.disk, Current(s.disk).logNumber, logs)
  {
    hide *;
    ManifestNow(s);
    ReopenedContent(s, s', s.disk, left, logs);
    ReadBackAll(s, logs);
    TotalIs(Settled(s));
  }

  lemma ManifestNow(s: Sys)
    requires SysInv(s)
    ensures s.disk.current in s.disk.manifests
  {
  }

  lemma ReadBackAll(s: Sys, logs: seq<Log>)
    requires SysInv(s) && LogsFrom(s.disk, Current(s.disk).logNumber, logs)
    ensures ReadBack(logs) == Settled(s).Mems()
  {
    SameLogs(s, logs);
    hide SysInv, Settled, LogsFrom, FlatLogs, RecordsOf;
  }

  lemma TotalIs(db: DB)
    ensures db.Total() == db.Mems() + Content(db.v)
  {
  }

  /** After a crash of the process alone nothing is lost: contents, history and last sequence number are as if the
    commit and the write under way had gone through. */
  lemma ProcessCrash(s: Sys, s': Sys, left: Disk, logs: seq<Log>)
    requires SysInv(s) && ReopenTo(s, s', s.disk, left, logs)
    ensures s'.db.Total() == Settled(s).Total() && s'.db.history == Settled(s).history && s'.db.last == Settled(s).last
  {
    hide *;
    ManifestNow(s);
    ProcessReadsAll(s, s', left, logs);
    ReopenedDb(s, s', s.disk, left, logs);
    LastRecovered(s, logs);
    SettledHistory(s);
    WithoutNothing(Survived(s));
    TotalIs(s'.db);
  }

  lemma SettledHistory(s: Sys)
    requires SysInv(s)
    ensures Settled(s).history == Survived(s) && Settled(s).v == Current(s.disk).v
  {
    SettledParts(s);
  }

  /** Reads come back as they were: what a read at the latest sequence number would have given had the commit and the
    write under way gone through. */
  lemma ReopenKeepsReads(s: Sys, s': Sys, left: Disk, logs: seq<Log>)
    requires SysInv(s) && ReadsOk(s.db) && ReopenTo(s, s', s.disk, left, logs)
    requires s.commit.Some? ==> StepSafe(s.db, s.commit.value)
    ensures ReadsOk(s'.db)
  {
    ReopenKeepsInv(s, s', s.disk, left, logs);
    ProcessCrash(s, s', left, logs);
    SettledInv(s);
    hide SysInv, Inv, ReopenTo, ReadsOk, Settled, ManifestInv, StepSafe, Survived, ReadBack, Content;
    var db := After'(s);
    if s.commit.Some? {
      NextKeepsReads(s.db, db, s.commit.value);
    }
    assert ReadsOk(db);
    if s.inflight.Some? { WriteKeepsReads(db, Settled(s), s.inflight.value); }
    assert ReadsOk(Settled(s));
    HorizonBelow(Settled(s));
    HigherHorizon(Settled(s), s'.db);
  }

  lemma HorizonBelow(db: DB)
    requires Inv(db)
    ensures db.Horizon() <= db.Last()
  {
    hide Recency, NumbersBelow, AgesOk, JobOk;
  }

  // ----- whole runs, with crashes

  lemma EventKeepsInv(s: Sys, s': Sys, ev: Event)
    requires SysInv(s) && SysNext(s, s', ev)
    ensures SysInv(s')
  {
    hide SysInv, AppendTo, ApplyTo, RotateTo, EngineTo, BuildTo, CommitTo, InstallTo, CollectTo, ReopenTo;
    match ev
    case Append(batch, sync) => AppendKeepsInv(s, s', batch, sync);
    case Apply => ApplyKeepsInv(s, s');
    case Rotate => RotateKeepsInv(s, s');
    case Engine(step) => EngineKeepsInv(s, s', step);
    case BuildOutput(f) => BuildKeepsInv(s, s', f);
    case Commit(step) => CommitKeepsInv(s, s', step);
    case Install => InstallKeepsInv(s, s');
    case Pin => PinKeepsInv(s, s');
    case Unpin(keep) => UnpinKeepsInv(s, s', keep);
    case Collect => CollectKeepsInv(s, s');
    case Reopen(d, left, logs) => ReopenKeepsInv(s, s', d, left, logs);
  }

  /** Not a crash, or one of the process alone. */
  ghost predicate MachineUp(s: Sys, ev: Event) { ev.Reopen? ==> ev.d == s.disk }

  lemma EventKeepsHistory(s: Sys, s': Sys, ev: Event)
    requires SysInv(s) && SysNext(s, s', ev) && MachineUp(s, ev)
    ensures s.db.history <= s'.db.history
  {
    hide SysInv, EngineTo, CommitTo, ReopenTo, CollectTo;
    match ev
    case Append(batch, sync) =>
    case Apply =>
    case Rotate =>
    case Engine(step) => EngineSameHistory(s, s', step);
    case BuildOutput(f) =>
    case Commit(step) => CommitSameDb(s, s', step);
    case Install => AfterHistory(s.db, s.commit.value);
    case Pin =>
    case Unpin(keep) =>
    case Collect => CollectSameDb(s, s');
    case Reopen(d, left, logs) =>
      ProcessCrash(s, s', left, logs);
      SettledGrows(s);
  }

  lemma EngineSameHistory(s: Sys, s': Sys, step: Step)
    requires EngineTo(s, s', step)
    ensures s'.db.history == s.db.history
  {
    hide Chosen;
  }

  lemma CollectSameDb(s: Sys, s': Sys)
    requires CollectTo(s, s')
    ensures s'.db == s.db
  {
    hide Spared;
  }

  lemma SettledGrows(s: Sys)
    requires SysInv(s)
    ensures s.db.history <= Settled(s).history
  {
    SettledParts(s);
    hide SysInv, Settled, Inflight;
  }

  /** No compaction that resurrects a value is installed or recovered. */
  ghost predicate EventSafe(s: Sys, ev: Event) {
    (ev.Install? || ev.Reopen?) && s.commit.Some? ==> StepSafe(s.db, s.commit.value)
  }

  lemma InstallKeepsReads(s: Sys, s': Sys)
    requires SysInv(s) && ReadsOk(s.db) && InstallTo(s, s') && StepSafe(s.db, s.commit.value)
    ensures ReadsOk(s'.db)
  {
    hide Inv, ReadsOk, LastInv, TablesInv, LogsInv, ContentsInv, NumbersBelow, StepSafe, After;
    NextKeepsReads(s.db, s'.db, s.commit.value);
  }

  lemma EngineStepSafe(s: Sys, s': Sys, step: Step)
    requires EngineTo(s, s', step)
    ensures StepSafe(s.db, step) && Next(s.db, s'.db, step)
  {
    hide Chosen;
  }

  lemma EventKeepsReads(s: Sys, s': Sys, ev: Event)
    requires SysInv(s) && ReadsOk(s.db) && SysNext(s, s', ev) && EventSafe(s, ev) && MachineUp(s, ev)
    ensures ReadsOk(s'.db)
  {
    assert Inv(s.db);
    hide SysInv, Inv, ReadsOk, StepSafe, Write, Switch, EngineTo, CommitTo, ReopenTo, Next, Spared;
    match ev
    case Append(batch, sync) =>
    case Apply => WriteKeepsReads(s.db, s'.db, s.inflight.value);
    case Rotate => RotateKeepsReads(s, s');
    case Engine(step) =>
      EngineStepSafe(s, s', step);
      NextKeepsReads(s.db, s'.db, step);
    case BuildOutput(f) =>
    case Commit(step) => CommitSameDb(s, s', step);
    case Install => InstallKeepsReads(s, s');
    case Pin =>
    case Unpin(keep) =>
    case Collect =>
    case Reopen(d, left, logs) => ReopenKeepsReads(s, s', left, logs);
  }

  lemma CommitSameDb(s: Sys, s': Sys, step: Step)
    requires CommitTo(s, s', step)
    ensures s'.db == s.db
  {
    hide Installable, After;
  }

  lemma RotateKeepsReads(s: Sys, s': Sys)
    requires Inv(s.db) && ReadsOk(s.db) && RotateTo(s, s')
    ensures ReadsOk(s'.db)
  {
    hide Inv, ReadsOk;
    NextKeepsReads(s.db, s'.db, DoSwitch);
  }

  datatype SysRun = SysRun(states: seq<Sys>, events: seq<Event>)

  ghost predicate IsSysRun(r: SysRun) {
    && |r.states| == |r.events| + 1 && SysInit(r.states[0])
    && forall i :: 0 <= i < |r.events| ==> SysNext(r.states[i], r.states[i + 1], r.events[i])
  }

  /** No crash of the machine. */
  ghost predicate ProcessRun(r: SysRun) {
    IsSysRun(r) && forall i :: 0 <= i < |r.events| ==> MachineUp(r.states[i], r.events[i])
  }

  ghost predicate SafeSysRun(r: SysRun) {
    ProcessRun(r) && forall i :: 0 <= i < |r.events| ==> EventSafe(r.states[i], r.events[i])
  }

  lemma SysInitInv(s: Sys)
    requires SysInit(s)
    ensures SysInv(s) && ReadsOk(s.db)
  {
    InitInv(s.db);
    assert Content(s.db.v) == {} && FilesOf(s.db.v) == {};
    assert Inflight(s) == [] && Flat([]) == [] && Elements([]) == {};
    assert s.db.Total() == s.db.Written();
  }

  /** In every state of a run with crashes of the process and of the machine anywhere: tables of live versions, outputs
    under way and logs still needed are on the disk, and the disk alone determines the contents. */
  lemma {:induction false} SysInvOverRuns(r: SysRun, i: nat)
    requires IsSysRun(r) && i < |r.states|
    ensures SysInv(r.states[i])
  {
    hide SysInv, SysInit, SysNext;
    if i == 0 {
      SysInitInv(r.states[0]);
    } else {
      SysInvOverRuns(r, i - 1);
      EventKeepsInv(r.states[i - 1], r.states[i], r.events[i - 1]);
    }
  }

  lemma {:induction false} ReadsOverCrashes(r: SysRun, i: nat)
    requires SafeSysRun(r) && i < |r.states|
    ensures ReadsOk(r.states[i].db)
  {
    hide SysInv, SysInit, SysNext, ReadsOk, EventSafe;
    if i == 0 {
      SysInitInv(r.states[0]);
    } else {
      ReadsOverCrashes(r, i - 1);
      SysInvOverRuns(r, i - 1);
      EventKeepsReads(r.states[i - 1], r.states[i], r.events[i - 1]);
    }
  }

  /** A crash leaves everything that was stored, but for what it cut off the logs. */
  lemma ReopenStores(s: Sys, s': Sys, d: Disk, left: Disk, logs: seq<Log>)
    requires SysInv(s) && AllAccounted(s.db) && ReopenTo(s, s', d, left, logs)
    ensures AllAccounted(s'.db)
  {
    SettledStores(s);
    StillThere(s, s', d, left, logs);
    VersionReopened(s, s', d, left, logs);
    ReopenedDb(s, s', d, left, logs);
    SettledHistory(s);
    WithoutHas(Survived(s), Lost(s, s'.db.v));
    hide SysInv, AllAccounted, Settled, ReopenTo, LogsFrom, Content, Lost, Survived, Without, MaxOver, Inv;
    HistoryOf(s'.db);
    KeptAccounted(Settled(s), s'.db, Lost(s, s'.db.v));
  }

  lemma HistoryOf(db: DB)
    requires Inv(db)
    ensures HistoryOk(db)
  {
  }

  lemma StillThere(s: Sys, s': Sys, d: Disk, left: Disk, logs: seq<Log>)
    requires SysInv(s) && ReopenTo(s, s', d, left, logs)
    ensures Lost(s, s'.db.v) <= Settled(s).Mems() && s'.db.Total() == Settled(s).Total() - Lost(s, s'.db.v)
  {
    hide *;
    ReopenedContent(s, s', d, left, logs);
    SettledApart(s);
    TotalIs(Settled(s));
  }

  lemma KeptAccounted(db: DB, db': DB, lost: set<Entry>)
    requires AllAccounted(db) && HistoryOk(db') && db'.Mems() == {} && db'.snaps == []
    requires lost <= db.Mems() && db'.Total() == db.Total() - lost
        && forall e :: e in db'.history <==> e in db.history && e !in lost
    ensures AllAccounted(db')
  {
    forall e | e in db'.Written() ensures Accounted(db', e) {
      assert Accounted(db, e) && e.sn <= db'.last;
      if x :| x in db.Written() - db.Mems() && x.user == e.user && e.sn < x.sn <= db.Horizon() {
        assert x in db'.Written() - db'.Mems() && x.sn <= db'.last;
      }
    }
  }

  lemma SettledStores(s: Sys)
    requires SysInv(s) && AllAccounted(s.db)
    ensures AllAccounted(Settled(s))
  {
    SettledInv(s);
    hide SysInv, Inv, AllAccounted, Settled, ManifestInv, Survived, Next;
    var db := After'(s);
    if s.commit.Some? { NextStores(s.db, db, s.commit.value); }
    if s.inflight.Some? {
      WriteIsNext(db, Settled(s), s.inflight.value);
      NextStores(db, Settled(s), DoWrite(s.inflight.value));
    }
  }

  lemma WriteIsNext(db: DB, db': DB, batch: Batch)
    requires Write(db, db', batch)
    ensures Next(db, db', DoWrite(batch))
  {
  }

  lemma InstallStores(s: Sys, s': Sys)
    requires SysInv(s) && AllAccounted(s.db) && InstallTo(s, s')
    ensures AllAccounted(s'.db)
  {
    hide Inv, AllAccounted, LastInv, TablesInv, LogsInv, ContentsInv, NumbersBelow, After;
    NextStores(s.db, s'.db, s.commit.value);
  }

  lemma EventStores(s: Sys, s': Sys, ev: Event)
    requires SysInv(s) && AllAccounted(s.db) && SysNext(s, s', ev)
    ensures AllAccounted(s'.db)
  {
    assert Inv(s.db);
    hide SysInv, Inv, AllAccounted, Write, Switch, EngineTo, CommitTo, ReopenTo, Next, Spared;
    match ev
    case Append(batch, sync) =>
    case Apply =>
      WriteIsNext(s.db, s'.db, s.inflight.value);
      NextStores(s.db, s'.db, DoWrite(s.inflight.value));
    case Rotate => RotateStores(s, s');
    case Engine(step) =>
      EngineStepSafe(s, s', step);
      NextStores(s.db, s'.db, step);
    case BuildOutput(f) =>
    case Commit(step) => CommitSameDb(s, s', step);
    case Install => InstallStores(s, s');
    case Pin =>
    case Unpin(keep) =>
    case Collect =>
    case Reopen(d, left, logs) => ReopenStores(s, s', d, left, logs);
  }

  lemma RotateStores(s: Sys, s': Sys)
    requires Inv(s.db) && AllAccounted(s.db) && RotateTo(s, s')
    ensures AllAccounted(s'.db)
  {
    hide Inv, AllAccounted;
    NextStores(s.db, s'.db, DoSwitch);
  }

  lemma {:induction false} StoredOverRuns(r: SysRun, k: nat)
    requires IsSysRun(r) && k < |r.states|
    ensures AllAccounted(r.states[k].db)
  {
    hide SysInv, SysInit, SysNext, AllAccounted;
    if k == 0 {
      SysInitStored(r.states[0]);
    } else {
      StoredOverRuns(r, k - 1);
      SysInvOverRuns(r, k - 1);
      EventStores(r.states[k - 1], r.states[k], r.events[k - 1]);
    }
  }

  lemma SysInitStored(s: Sys)
    requires SysInit(s)
    ensures AllAccounted(s.db)
  {
  }

  lemma {:induction false} HistoryKept(r: SysRun, i: nat, k: nat)
    requires ProcessRun(r) && i <= k < |r.states|
    ensures r.states[i].db.history <= r.states[k].db.history
  {
    hide SysInit, SysNext, SysInv, MachineUp;
    if i < k {
      HistoryKept(r, i, k - 1);
      SysInvOverRuns(r, k - 1);
      EventKeepsHistory(r.states[k - 1], r.states[k], r.events[k - 1]);
    }
  }

  /** What was written by step i is still held by the memtables and tables at every later step k, process crashes and
    unsafe compactions included, unless a newer entry of its key hides it from every read that may come, or it is a
    deletion that all those reads see. */
  lemma NothingLost(r: SysRun, i: nat, k: nat)
    requires ProcessRun(r) && i <= k < |r.states|
    ensures r.states[i].db.history <= r.states[k].db.history
    ensures forall e :: e in r.states[i].db.history ==> Accounted(r.states[k].db, e)
  {
    HistoryKept(r, i, k);
    StoredOverRuns(r, k);
    hide ProcessRun, IsSysRun, Accounted;
    var a, b := r.states[i].db, r.states[k].db;
    forall e | e in a.history ensures Accounted(b, e) {
      var n :| 0 <= n < |a.history| && a.history[n] == e;
      assert b.history[n] == e && e in b.Written();
    }
  }

  /** A value written by step i is what every later read gives that sees it and nothing newer of its key, on a run
    that resurrects nothing. */
  lemma ReadsBack(r: SysRun, i: nat, k: nat, e: Entry, s: nat)
    requires SafeSysRun(r) && i <= k < |r.states| && e in r.states[i].db.history && e.op.Put?
    requires r.states[k].db.Horizon() <= s && e.sn <= s
    requires forall x :: x in r.states[k].db.history && x.user == e.user && e.sn < x.sn ==> x.sn > s
    ensures Read(r.states[k].db.Total(), e.user, s) == Some(e.op.value)
  {
    HistoryKept(r, i, k);
    SysInvOverRuns(r, k);
    ReadsOverCrashes(r, k);
    assert Inv(r.states[k].db);
    hide SafeSysRun, ProcessRun, IsSysRun, SysInv, Inv, ReadsOk;
    var a, b := r.states[i].db, r.states[k].db;
    var n :| 0 <= n < |a.history| && a.history[n] == e;
    assert b.history[n] == e && e in b.Written();
    WrittenIsRead(b, e, s);
  }

  // ----- recovery always comes to an end in a state like these

  ghost predicate OwnNumbers(files: set<File>) {
    forall f, g :: f in files && g in files && f.number == g.number ==> f == g
  }

  ghost function TableMap(files: set<File>): (t: map<nat, File>)
    requires OwnNumbers(files)
    ensures Have(t, files) && t.Keys == set f | f in files :: f.number
  {
    map f | f in files :: f.number := f
  }

  lemma SameNumberSameFile(v: Version)
    requires Recency(v)
    ensures OwnNumbers(FilesOf(v))
  {
    assert NumbersUnique(v);
    hide LevelsApart, LevelsRecent, Level0Recent;
  }

  lemma CanAddTables(t: map<nat, File>, files: set<File>)
    requires OwnNumbers(files)
    ensures TablesAdded(t, t + TableMap(files), files)
  {
  }

  /** What recovery computes from a disk is a state the engine can be reopened in. */
  lemma CanReopen(s: Sys, d: Disk, left: Disk, logs: seq<Log>, v: Version, newLog: nat, next: nat) returns (s': Sys)
    requires s.disk.current in s.disk.manifests && Truncated(s.disk, d) && LeftBy(d, left)
        && LogsFrom(left, Current(s.disk).logNumber, logs)
    requires Replay(Current(s.disk), logs, v, newLog, next)
    ensures ReopenTo(s, s', d, left, logs) && s'.db.v == v
  {
    var m := Current(s.disk);
    var added := FilesOf(v) - FilesOf(m.v);
    SameNumberSameFile(v);
    CanAddTables(left.tables, added);
    hide LogsFrom, Replay, TablesAdded, Survived, FilesOf, Without, Lost, MaxOver;
    var tables := left.tables + TableMap(added);
    var m' := Manifest(v, newLog, next, MaxOver(m.last, logs));
    var disk := Disk(tables, left.logs[newLog := LogFile([], 0)], left.manifests[m.nextFile := m'], m.nextFile);
    var db := DB(Without(Survived(s), Lost(s, v)), m'.last, {}, None, v, [], next, None);
    s' := Sys(db, disk, newLog, 0, None, newLog, {}, None);
  }

  lemma {:induction false} Greatest(ns: set<nat>) returns (n: nat)
    requires ns != {}
    ensures n in ns && forall k :: k in ns ==> k <= n
    decreases ns
  {
    var w :| w in ns;
    n := w;
    if k :| k in ns && k > w {
      assert k in ns - {w};
      n := Greatest(ns - {w});
      assert forall x :: x in ns ==> x == w || x in ns - {w};
    }
  }

  /** The logs of these numbers, oldest first. */
  lemma {:induction false} LogList(d: Disk, ns: set<nat>) returns (logs: seq<Log>)
    requires ns <= d.logs.Keys
    ensures forall i, j :: 0 <= i < j < |logs| ==> logs[i].number < logs[j].number
    ensures forall n :: n in ns ==> exists i :: 0 <= i < |logs| && logs[i] == Log(n, d.logs[n].records)
    ensures forall i :: 0 <= i < |logs| ==> logs[i].number in ns && d.logs[logs[i].number].records == logs[i].records
    decreases ns
  {
    if ns == {} {
      logs := [];
    } else {
      var n := Greatest(ns);
      var rest := LogList(d, ns - {n});
      logs := rest + [Log(n, d.logs[n].records)];
      forall k | k in ns ensures exists i :: 0 <= i < |logs| && logs[i] == Log(k, d.logs[k].records) {
        if k == n {
          assert logs[|rest|] == Log(n, d.logs[n].records);
        } else {
          var i :| 0 <= i < |rest| && rest[i] == Log(k, d.logs[k].records);
          assert logs[i] == rest[i];
        }
      }
    }
  }

  lemma LogsListed(d: Disk, from: nat)
    ensures exists logs :: LogsFrom(d, from, logs)
  {
    var ns := set n | n in d.logs && n >= from;
    var logs := LogList(d, ns);
    forall n | n in d.logs && n >= from ensures exists i :: 0 <= i < |logs| && logs[i] == Log(n, d.logs[n].records) {
      assert n in ns;
    }
    assert LogsFrom(d, from, logs);
  }

  /** From every state, after a crash of the process or of the machine and however often recovery is cut short before,
    opening the database again can be completed. */
  lemma RecoverySucceeds(s: Sys, d: Disk, left: Disk)
    requires SysInv(s) && Truncated(s.disk, d) && LeftBy(d, left)
    ensures exists s', logs :: ReopenTo(s, s', d, left, logs) && SysInv(s')
  {
    var m := Current(s.disk);
    LogsListed(left, m.logNumber);
    var logs :| LogsFrom(left, m.logNumber, logs);
    LeftLogs(d, left, m.logNumber, logs);
    ReplayReady(s, d, logs);
    hide SysInv, LeftBy, LogsFrom, Truncated, FlatLogs, RecordsOf, Growing, Older, Recency, NumbersBelow, Replay,
        ReopenTo;
    var v, newLog, next := CanReplay(m, logs);
    var s' := CanReopen(s, d, left, logs, v, newLog, next);
    ReopenKeepsInv(s, s', d, left, logs);
  }

  // ----- a machine crash

  ghost function SyncedPart(l: LogFile): set<Entry> { Elements(Flat(l.records[..SyncedCount(l)])) }

  lemma SyncedReplayed(d0: Disk, d: Disk, from: nat, logs: seq<Log>, n: nat)
    requires Truncated(d0, d) && LogsFrom(d, from, logs) && n in d0.logs && n >= from
    ensures SyncedPart(d0.logs[n]) <= Elements(FlatLogs(RecordsOf(logs)))
  {
    var l := d0.logs[n];
    var i := LogListed(d, from, logs, n);
    var k := SyncedCount(l);
    assert logs[i].records[..k] == l.records[..k];
    FlatPrefix(logs[i].records, k);
    hide LogsFrom, Truncated, Flat, FlatLogs, RecordsOf;
    forall e | e in SyncedPart(l) ensures e in Elements(FlatLogs(RecordsOf(logs))) {
      var a, b := Flat(logs[i].records[..k]), Flat(logs[i].records);
      var j :| 0 <= j < |a| && a[j] == e;
      assert b[j] == e;
      RecordsAt(logs, e);
    }
  }

  lemma FlushedInManifest(s: Sys)
    requires Inv(s.db) && ManifestInv(s) && Flushing(s)
    ensures s.db.Imm() <= Content(Current(s.disk).v)
  {
    var step := s.commit.value;
    hide Inv, NumbersBelow, PlaceOk, GapFree;
    if s.db.imm != Some({}) {
      AddContent(s.db.v, step.p, step.f);
    }
  }

  /** A machine crash may cut the logs, but what recovery reads then holds all tables and every synced write,
    and nothing that was not written. */
  lemma SyncedSurvives(s: Sys, d: Disk, logs: seq<Log>, v: Version, newLog: nat, next: nat)
    requires SysInv(s) && Truncated(s.disk, d) && LogsFrom(d, Current(s.disk).logNumber, logs)
    requires Replay(Current(s.disk), logs, v, newLog, next)
    ensures Content(Current(s.disk).v) <= Content(v) <= Settled(s).Total()
    ensures SyncedPart(s.disk.logs[s.memLog]) <= Content(v)
    ensures s.db.imm.Some? ==> SyncedPart(s.disk.logs[s.immLog]) <= Content(v)
  {
    SettledParts(s);
    LogsWithinMems(s, d, logs);
    MemLogReplayed(s);
    SyncedReplayed(s.disk, d, Current(s.disk).logNumber, logs, s.memLog);
    if s.db.imm.Some? {
      if Flushing(s) {
        FlushedInManifest(s);
        SyncedWithin(s.disk.logs[s.immLog]);
      } else {
        ImmLogReplayed(s);
        SyncedReplayed(s.disk, d, Current(s.disk).logNumber, logs, s.immLog);
      }
    }
    hide ManifestInv, Inv, LogsFrom, Truncated, Settled, Content, FlatLogs, RecordsOf, SyncedPart;
  }

  lemma SyncedWithin(l: LogFile)
    ensures SyncedPart(l) <= Elements(Flat(l.records))
  {
    FlatPrefix(l.records, SyncedCount(l));
    var a, b := Flat(l.records[..SyncedCount(l)]), Flat(l.records);
    forall e | e in SyncedPart(l) ensures e in Elements(b) {
      var j :| 0 <= j < |a| && a[j] == e;
      assert b[j] == e;
    }
  }

  lemma ImmLogReplayed(s: Sys)
    requires ManifestInv(s) && LogsInv(s) && s.db.imm.Some? && !Flushing(s)
    ensures Current(s.disk).logNumber <= s.immLog && s.immLog in s.disk.logs
  {
    hide Installable, After, NumbersBelow;
  }
}
