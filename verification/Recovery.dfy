/** Reopening a database: log files are replayed into memtables, memtables become level-0 tables. */
module Recovery {
  import opened DbFormat
  import opened Options
  import opened Versions
  import opened Database

  /** One group write in a log: its first sequence number and its entries. */
  datatype Record = Record(first: nat, entries: seq<Entry>) {
    function Last(): int { first + |entries| - 1 }
  }

  function Flat(rs: seq<Record>): seq<Entry> {
    if rs == [] then [] else Flat(rs[..|rs| - 1]) + rs[|rs| - 1].entries
  }

  function FlatLogs(logs: seq<seq<Record>>): seq<Entry> {
    if logs == [] then [] else FlatLogs(logs[..|logs| - 1]) + Flat(logs[|logs| - 1])
  }

  ghost function Elements(es: seq<Entry>): set<Entry> { set e | e in es }

  /** Sequence numbers grow along the list. */
  ghost predicate Growing(es: seq<Entry>) {
    forall i, j :: 0 <= i < j < |es| ==> es[i].sn < es[j].sn
  }

  ghost predicate Older(A: set<Entry>, B: set<Entry>) {
    forall a, b :: a in A && b in B ==> a.sn < b.sn
  }

  lemma GrowJoin(a: seq<Entry>, b: seq<Entry>)
    requires Growing(a) && Growing(b) && Older(Elements(a), Elements(b))
    ensures Growing(a + b)
  {
    forall i, j | 0 <= i < j < |a + b| ensures (a + b)[i].sn < (a + b)[j].sn {
      if i < |a| <= j {
        assert a[i] in Elements(a) && b[j - |a|] in Elements(b);
      }
    }
  }

  lemma ElementsJoin(a: seq<Entry>, b: seq<Entry>)
    ensures Elements(a + b) == Elements(a) + Elements(b)
  {
  }

  // ----- the memtable as a sorted list

  function Insert(es: seq<Entry>, e: Entry): (r: seq<Entry>)
    ensures forall x :: x in r <==> x in es || x == e
  {
    if es == [] || Before(e, es[0]) then [e] + es else
      var rest := Insert(es[1..], e);
      assert forall x :: x in es <==> x == es[0] || x in es[1..];
      [es[0]] + rest
  }

  lemma {:induction false} InsertSorted(es: seq<Entry>, e: Entry)
    requires Sorted(es) && forall x :: x in es ==> x.sn < e.sn
    ensures Sorted(Insert(es, e))
  {
    var r := Insert(es, e);
    if es == [] {
    } else if Before(e, es[0]) {
      forall i, j | 0 <= i < j < |r| ensures Before(r[i], r[j]) {
        if i == 0 && j > 1 { assert Before(es[0], es[j - 1]); }
      }
    } else {
      var rest := Insert(es[1..], e);
      assert forall x :: x in es[1..] ==> x in es;
      InsertSorted(es[1..], e);
      forall i, j | 0 <= i < j < |r| ensures Before(r[i], r[j]) {
        if i == 0 {
          assert r[j] == rest[j - 1] && rest[j - 1] in rest;
          if r[j] != e {
            var k :| 0 <= k < |es[1..]| && es[1..][k] == r[j];
            assert Before(es[0], es[k + 1]);
          }
        } else {
          assert r[i] == rest[i - 1] && r[j] == rest[j - 1];
        }
      }
    }
  }

  /** What a manifest says once all its edits are applied. */
  datatype Manifest = Manifest(v: Version, logNumber: nat, nextFile: nat, last: nat)

  // ----- one table

  lemma NewestTable(v: Version, f: File, n: nat)
    requires Recency(v) && NumbersBelow(v, n) && f.number == n && Older(Content(v), Elements(f.entries))
    ensures Recency(AddAt(v, 0, f)) && NumbersBelow(AddAt(v, 0, f), n + 1)
    ensures Content(AddAt(v, 0, f)) == Content(v) + Elements(f.entries)
  {
    forall i, g | 0 <= i < NUM_LEVELS && g in v[i] ensures Newer(f, g) {
      assert forall e :: e in g.entries ==> e in Content(v);
      assert forall d :: d in f.entries ==> d in Elements(f.entries);
    }
    FlushKeepsRecency(v, f, 0);
    FlushKeepsNumbers(v, f, 0, n);
    AddContent(v, 0, f);
    assert FilesContent({f}) == Elements(f.entries);
  }

  /** Only level 0 has grown, by tables under numbers that the manifest had not given out. */
  ghost predicate NewTables(m: Manifest, v: Version) {
    && (forall i :: 1 <= i < NUM_LEVELS ==> v[i] == m.v[i]) && m.v[0] <= v[0]
    && forall f :: f in v[0] && f !in m.v[0] ==> f.number > m.nextFile
  }

  /** What a replay has done so far: tables made of the entries taken, in age order, the rest still in the memtable. */
  ghost predicate Replayed(m: Manifest, v: Version, mem: seq<Entry>, taken: seq<Entry>, n: nat) {
    && Recency(v) && NumbersBelow(v, n) && m.nextFile < n && Sorted(mem)
    && Content(v) + Elements(mem) == Content(m.v) + Elements(taken)
    && Older(Content(v), Elements(mem)) && NewTables(m, v)
  }

  lemma TableWritten(m: Manifest, v: Version, mem: seq<Entry>, taken: seq<Entry>, n: nat, f: File)
    requires Replayed(m, v, mem, taken, n) && f.entries == mem && f.number == n
    ensures Replayed(m, AddAt(v, 0, f), [], taken, n + 1)
  {
    assert Elements([]) == {};
    hide Recency, NumbersBelow, Content, Sorted, NewTables;
    NewestTable(v, f, n);
    OneMoreTable(m, v, f);
  }

  lemma OneMoreTable(m: Manifest, v: Version, f: File)
    requires NewTables(m, v) && f.number > m.nextFile
    ensures NewTables(m, AddAt(v, 0, f))
  {
  }

  /** Level-0 table from the memtable; an empty memtable uses up a number and makes no table. */
  method WriteLevel0Table(ghost m: Manifest, v: Version, mem: seq<Entry>, ghost taken: seq<Entry>, n: nat, size: nat)
      returns (v': Version, next: nat)
    requires Replayed(m, v, mem, taken, n)
    ensures next == n + 1 && Replayed(m, v', [], taken, next)
  {
    next := n + 1;
    if mem == [] {
      MoreNumbers(m, v, taken, n, next);
      v' := v;
    } else {
      assert Sorted(mem);
      hide *;
      var f: Table := Table(n, size, mem);
      assert f.Valid();
      TableWritten(m, v, mem, taken, n, f);
      v' := AddAt(v, 0, f);
    }
  }

  lemma TakeOne(m: Manifest, v: Version, mem: seq<Entry>, taken: seq<Entry>, n: nat, e: Entry)
    requires Replayed(m, v, mem, taken, n)
    requires forall x :: x in Content(m.v) + Elements(taken) ==> x.sn < e.sn
    ensures Replayed(m, v, Insert(mem, e), taken + [e], n)
  {
    assert forall x :: x in mem ==> x in Elements(mem);
    InsertSorted(mem, e);
    assert Elements(Insert(mem, e)) == Elements(mem) + {e};
    assert Elements(taken + [e]) == Elements(taken) + {e};
  }

  /** Adds the operations of a record to the memtable. */
  method InsertInto(ghost m: Manifest, ghost v: Version, mem: seq<Entry>, ghost taken: seq<Entry>, ghost n: nat,
      es: seq<Entry>) returns (r: seq<Entry>)
    requires Replayed(m, v, mem, taken, n) && Growing(taken + es)
    requires Older(Content(m.v), Elements(taken + es))
    ensures Replayed(m, v, r, taken + es, n)
  {
    r := mem;
    assert taken + es[..0] == taken;
    for i := 0 to |es|
      invariant Replayed(m, v, r, taken + es[..i], n)
    {
      AllOlder(m.v, taken, es, i);
      TakeOne(m, v, r, taken + es[..i], n, es[i]);
      assert taken + es[..i] + [es[i]] == taken + es[..i + 1];
      r := Insert(r, es[i]);
    }
    assert es[..|es|] == es;
  }

  lemma AllOlder(start: Version, taken: seq<Entry>, es: seq<Entry>, i: nat)
    requires i < |es| && Growing(taken + es) && Older(Content(start), Elements(taken + es))
    ensures forall x :: x in Content(start) + Elements(taken + es[..i]) ==> x.sn < es[i].sn
  {
    var all := taken + es;
    assert es[i] == all[|taken| + i] && es[i] in Elements(all);
    forall x | x in Elements(taken + es[..i]) ensures x.sn < es[i].sn {
      var k :| 0 <= k < |taken + es[..i]| && (taken + es[..i])[k] == x;
      assert all[k] == x;
    }
  }

  // ----- one log, then all logs in order of their numbers

  function MaxLast(m: nat, rs: seq<Record>): (r: nat)
    ensures m <= r && forall i :: 0 <= i < |rs| ==> rs[i].Last() <= r
    ensures r == m || exists i :: 0 <= i < |rs| && rs[i].Last() == r
  {
    if rs == [] then m else
      var r := MaxLast(m, rs[..|rs| - 1]);
      if rs[|rs| - 1].Last() > r then rs[|rs| - 1].Last() else r
  }

  method RecoverLogFile(ghost m: Manifest, v: Version, ghost taken: seq<Entry>, rs: seq<Record>, n: nat, maxSeq: nat,
                        full: seq<Entry> -> bool, size: seq<Entry> -> nat)
    returns (v': Version, next: nat, max: nat)
    requires Replayed(m, v, [], taken, n)
    requires Growing(taken + Flat(rs)) && Older(Content(m.v), Elements(taken + Flat(rs)))
    ensures n <= next && Replayed(m, v', [], taken + Flat(rs), next)
    ensures max == MaxLast(maxSeq, rs)
  {
    v', next, max := v, n, maxSeq;
    var mem: Option<seq<Entry>> := None;
    assert taken + Flat(rs[..0]) == taken;
    for j := 0 to |rs|
      invariant n <= next && max == MaxLast(maxSeq, rs[..j])
      invariant Replayed(m, v', if mem.Some? then mem.value else [], taken + Flat(rs[..j]), next)
    {
      assert rs[..j + 1][..j] == rs[..j];
      var es := if mem.Some? then mem.value else [];
      Prefixes(m.v, taken, rs, j);
      es := InsertInto(m, v', es, taken + Flat(rs[..j]), next, rs[j].entries);
      if rs[j].Last() > max { max := rs[j].Last(); }
      mem := Some(es);
      if full(es) {
        v', next := WriteLevel0Table(m, v', es, taken + Flat(rs[..j + 1]), next, size(es));
        mem := None;
      }
    }
    assert rs[..|rs|] == rs;
    if mem.Some? {
      v', next := WriteLevel0Table(m, v', mem.value, taken + Flat(rs), next, size(mem.value));
    }
  }

  lemma {:induction false} FlatPrefix(rs: seq<Record>, j: nat)
    requires j <= |rs|
    ensures Flat(rs[..j]) <= Flat(rs)
    decreases |rs|
  {
    if j < |rs| {
      FlatPrefix(rs[..|rs| - 1], j);
      assert rs[..|rs| - 1][..j] == rs[..j];
    } else {
      assert rs[..j] == rs;
    }
  }

  lemma SomeFirst(all: seq<Entry>, part: seq<Entry>, start: Version)
    requires part <= all && Growing(all) && Older(Content(start), Elements(all))
    ensures Growing(part) && Older(Content(start), Elements(part))
  {
    assert forall i :: 0 <= i < |part| ==> part[i] == all[i];
    forall b | b in Elements(part) ensures b in Elements(all) {
      var i :| 0 <= i < |part| && part[i] == b;
      assert all[i] == b;
    }
  }

  lemma FlatNext(rs: seq<Record>, j: nat)
    requires j < |rs|
    ensures Flat(rs[..j + 1]) == Flat(rs[..j]) + rs[j].entries
  {
    assert rs[..j + 1][..j] == rs[..j];
  }

  lemma Glue(a: seq<Entry>, b: seq<Entry>, c: seq<Entry>)
    ensures a + b + c == a + (b + c)
  {
  }

  lemma Prefixes(start: Version, taken: seq<Entry>, rs: seq<Record>, j: nat)
    requires j < |rs| && Growing(taken + Flat(rs)) && Older(Content(start), Elements(taken + Flat(rs)))
    ensures taken + Flat(rs[..j]) + rs[j].entries == taken + Flat(rs[..j + 1])
    ensures Growing(taken + Flat(rs[..j]) + rs[j].entries)
    ensures Older(Content(start), Elements(taken + Flat(rs[..j]) + rs[j].entries))
  {
    hide Growing, Older;
    FlatPrefix(rs, j + 1);
    FlatNext(rs, j);
    hide Flat;
    Glue(taken, Flat(rs[..j]), rs[j].entries);
    assert taken + Flat(rs[..j + 1]) <= taken + Flat(rs);
    SomeFirst(taken + Flat(rs), taken + Flat(rs[..j + 1]), start);
  }

  datatype Log = Log(number: nat, records: seq<Record>)

  function RecordsOf(logs: seq<Log>): seq<seq<Record>> { seq(|logs|, i requires 0 <= i < |logs| => logs[i].records) }

  function MaxOver(m: nat, logs: seq<Log>): (r: nat) {
    if logs == [] then m else MaxLast(MaxOver(m, logs[..|logs| - 1]), logs[|logs| - 1].records)
  }

  /** The version after a replay: every logged entry is in a level-0 table; a new log gets a number above all others. */
  ghost predicate Replay(m: Manifest, logs: seq<Log>, v: Version, newLog: nat, next: nat) {
    && Recency(v) && NumbersBelow(v, newLog) && m.nextFile < newLog && next == newLog + 1
    && Content(v) == Content(m.v) + Elements(FlatLogs(RecordsOf(logs)))
    && NewTables(m, v)
    && forall i :: 0 <= i < |logs| ==> logs[i].number < newLog
  }

  /** Replays the logs named by the manifest and newer ones, oldest first; every entry of theirs ends up in a
    level-0 table younger than everything before it. */
  method Recover(m: Manifest, logs: seq<Log>, full: seq<Entry> -> bool, size: seq<Entry> -> nat)
    returns (v: Version, newLog: nat, next: nat, last: nat)
    requires Recency(m.v) && NumbersBelow(m.v, m.nextFile)
    requires var all := FlatLogs(RecordsOf(logs)); Growing(all) && Older(Content(m.v), Elements(all))
    ensures Replay(m, logs, v, newLog, next)
    ensures last == MaxOver(m.last, logs)
  {
    hide *;
    v, next := m.v, m.nextFile + 1;
    var maxSequence := 0;
    StartReplay(m);
    assert RecordsOf(logs[..0]) == RecordsOf([]) && MaxOver(0, logs[..0]) == MaxOver(0, []);
    for i := 0 to |logs|
      invariant Replayed(m, v, [], FlatLogs(RecordsOf(logs[..i])), next)
      invariant forall k :: 0 <= k < i ==> logs[k].number < next
      invariant maxSequence == MaxOver(0, logs[..i])
    {
      v, next, maxSequence := RecoverNext(m, v, logs, i, next, maxSequence, full, size);
    }
    assert logs[..|logs|] == logs;
    EndReplay(m, logs, v, next);
    newLog, next := next, next + 1;
    MaxOverBase(m.last, logs);
    last := if m.last < maxSequence then maxSequence else m.last;
  }

  /** One log; its number counts as used from then on. */
  method RecoverNext(ghost m: Manifest, v: Version, logs: seq<Log>, i: nat, n: nat, maxSeq: nat,
      full: seq<Entry> -> bool, size: seq<Entry> -> nat)
    returns (v': Version, next: nat, max: nat)
    requires i < |logs| && Replayed(m, v, [], FlatLogs(RecordsOf(logs[..i])), n) && maxSeq == MaxOver(0, logs[..i])
    requires var all := FlatLogs(RecordsOf(logs)); Growing(all) && Older(Content(m.v), Elements(all))
    ensures n <= next && logs[i].number < next && Replayed(m, v', [], FlatLogs(RecordsOf(logs[..i + 1])), next)
    ensures max == MaxOver(0, logs[..i + 1])
  {
    hide Replayed, MaxOver, Growing, Older, FlatLogs, RecordsOf;
    NextLog(m.v, logs, i);
    v', next, max := RecoverLogFile(m, v, FlatLogs(RecordsOf(logs[..i])), logs[i].records, n, maxSeq, full, size);
    if next <= logs[i].number {
      MoreNumbers(m, v', FlatLogs(RecordsOf(logs[..i + 1])), next, logs[i].number + 1);
      next := logs[i].number + 1;
    }
  }

  lemma StartReplay(m: Manifest)
    requires Recency(m.v) && NumbersBelow(m.v, m.nextFile)
    ensures Replayed(m, m.v, [], FlatLogs(RecordsOf([])), m.nextFile + 1) && MaxOver(0, []) == 0
  {
    assert RecordsOf([]) == [] && Elements([]) == {};
  }

  lemma MoreNumbers(m: Manifest, v: Version, taken: seq<Entry>, n: nat, next: nat)
    requires Replayed(m, v, [], taken, n) && n <= next
    ensures Replayed(m, v, [], taken, next)
  {
  }

  lemma EndReplay(m: Manifest, logs: seq<Log>, v: Version, n: nat)
    requires Replayed(m, v, [], FlatLogs(RecordsOf(logs)), n)
    requires forall i :: 0 <= i < |logs| ==> logs[i].number < n
    ensures Replay(m, logs, v, n, n + 1)
  {
    assert Elements([]) == {};
  }

  lemma {:induction false} MaxOverBase(m: nat, logs: seq<Log>)
    ensures MaxOver(m, logs) == if m < MaxOver(0, logs) then MaxOver(0, logs) else m
    decreases |logs|
  {
    if logs != [] {
      MaxOverBase(m, logs[..|logs| - 1]);
      MaxLastBase(m, MaxOver(0, logs[..|logs| - 1]), logs[|logs| - 1].records);
    }
  }

  lemma {:induction false} MaxLastBase(m: nat, k: nat, rs: seq<Record>)
    ensures MaxLast(if m < k then k else m, rs) == if m < MaxLast(k, rs) then MaxLast(k, rs) else m
    decreases |rs|
  {
    if rs != [] {
      MaxLastBase(m, k, rs[..|rs| - 1]);
    }
  }

  lemma {:induction false} FlatLogsPrefix(ls: seq<seq<Record>>, j: nat)
    requires j <= |ls|
    ensures FlatLogs(ls[..j]) <= FlatLogs(ls)
    decreases |ls|
  {
    if j < |ls| {
      FlatLogsPrefix(ls[..|ls| - 1], j);
      assert ls[..|ls| - 1][..j] == ls[..j];
    } else {
      assert ls[..j] == ls;
    }
  }

  lemma NextLog(start: Version, logs: seq<Log>, i: nat)
    requires i < |logs|
    requires var all := FlatLogs(RecordsOf(logs)); Growing(all) && Older(Content(start), Elements(all))
    ensures var taken := FlatLogs(RecordsOf(logs[..i]));
        taken + Flat(logs[i].records) == FlatLogs(RecordsOf(logs[..i + 1]))
    ensures var es := FlatLogs(RecordsOf(logs[..i])) + Flat(logs[i].records);
        Growing(es) && Older(Content(start), Elements(es))
    ensures MaxOver(0, logs[..i + 1]) == MaxLast(MaxOver(0, logs[..i]), logs[i].records)
  {
    assert logs[..i + 1][..i] == logs[..i];
    var ls := RecordsOf(logs);
    assert RecordsOf(logs[..i + 1]) == ls[..i + 1] && RecordsOf(logs[..i]) == ls[..i] && ls[..i + 1][..i] == ls[..i];
    FlatLogsPrefix(ls, i + 1);
    SomeFirst(FlatLogs(ls), FlatLogs(ls[..i + 1]), start);
  }

  // ----- a replay is always possible

  function InsertAll(es: seq<Entry>): seq<Entry> {
    if es == [] then [] else Insert(InsertAll(es[..|es| - 1]), es[|es| - 1])
  }

  lemma NextTaken(v: Version, es: seq<Entry>, k: nat)
    requires k + 1 == |es| && Growing(es) && Older(Content(v), Elements(es))
    ensures Growing(es[..k]) && Older(Content(v), Elements(es[..k]))
    ensures forall x :: x in Content(v) + Elements(es[..k]) ==> x.sn < es[k].sn
    ensures es[..k] + [es[k]] == es
  {
    assert [] + es == es && [] + es[..k] == es[..k];
    AllOlder(v, [], es, k);
    SomeFirst(es, es[..k], v);
  }

  lemma {:induction false} AllTaken(m: Manifest, es: seq<Entry>)
    requires Recency(m.v) && NumbersBelow(m.v, m.nextFile) && Growing(es) && Older(Content(m.v), Elements(es))
    ensures Replayed(m, m.v, InsertAll(es), es, m.nextFile + 1)
    decreases |es|
  {
    hide Replayed, Older, Growing, Recency, NumbersBelow, Content;
    if es == [] {
      StartReplay(m);
      assert RecordsOf([]) == [];
    } else {
      var k := |es| - 1;
      NextTaken(m.v, es, k);
      AllTaken(m, es[..k]);
      TakeOne(m, m.v, InsertAll(es[..k]), es[..k], m.nextFile + 1, es[k]);
    }
  }

  function AboveLogs(logs: seq<Log>, n: nat): (r: nat)
    ensures n <= r && forall i :: 0 <= i < |logs| ==> logs[i].number < r
  {
    if logs == [] then n else
      var r := AboveLogs(logs[..|logs| - 1], n);
      if logs[|logs| - 1].number < r then r else logs[|logs| - 1].number + 1
  }

  lemma CanReplay(m: Manifest, logs: seq<Log>) returns (v: Version, newLog: nat, next: nat)
    requires Recency(m.v) && NumbersBelow(m.v, m.nextFile)
    requires var all := FlatLogs(RecordsOf(logs)); Growing(all) && Older(Content(m.v), Elements(all))
    ensures Replay(m, logs, v, newLog, next)
  {
    var all := FlatLogs(RecordsOf(logs));
    AllTaken(m, all);
    var mem := InsertAll(all);
    var n := m.nextFile + 1;
    hide Growing, Older, FlatLogs, RecordsOf, Recency;
    if mem == [] {
      v := m.v;
    } else {
      assert Sorted(mem);
      var f: Table := Table(n, 0, mem);
      assert f.Valid();
      TableWritten(m, m.v, mem, all, n, f);
      v, n := AddAt(m.v, 0, f), n + 1;
    }
    newLog := AboveLogs(logs, n);
    next := newLog + 1;
    MoreNumbers(m, v, all, n, newLog);
    EndReplay(m, logs, v, newLog);
  }
}
