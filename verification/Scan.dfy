/** The iterators put together: scanning a database walks the keys that its write history gives a value. */
module Scan {
  import opened DbFormat
  import opened Options
  import opened Versions
  import opened Database
  import opened ReadsOverRuns
  import opened Lookup
  import opened Merger
  import opened Tables
  import opened TwoLevel
  import opened DbIter
  import Recovery
  import opened Gaps

  // ----- the children of the merging iterator

  function LevelZero(files: seq<File>): seq<seq<Entry>> { FileBlocks(files) }

  /** One concatenating iterator for every level from 1 to n - 1 that has files. */
  function Deeper(lists: seq<seq<File>>, n: nat): seq<seq<Entry>>
    requires n <= |lists|
  {
    if n <= 1 then [] else Deeper(lists, n - 1) + if lists[n - 1] == [] then [] else [Flat(FileBlocks(lists[n - 1]))]
  }

  /** NewInternalIterator: memtable, immutable memtable, every file of level 0, every deeper level. */
  function Children(mem: seq<Entry>, imm: Option<seq<Entry>>, lists: seq<seq<File>>): seq<seq<Entry>>
    requires |lists| == NUM_LEVELS
  {
    [mem] + (if imm.Some? then [imm.value] else []) + LevelZero(lists[0]) + Deeper(lists, NUM_LEVELS)
  }

  /** The lists are sorted, share nothing and hold S between them. */
  ghost predicate Covers(cs: seq<seq<Entry>>, S: set<Entry>) {
    && (forall i :: 0 <= i < |cs| ==> Sorted(cs[i]))
    && (forall i, k :: 0 <= i < |cs| && 0 <= k < |cs| && i != k ==> Disjoint(cs[i], cs[k]))
    && forall e :: e in S <==> InSome(cs, e)
  }

  lemma AddChild(cs: seq<seq<Entry>>, S: set<Entry>, c: seq<Entry>)
    requires Covers(cs, S) && Sorted(c) && forall e :: e in c ==> e !in S
    ensures Covers(cs + [c], S + Recovery.Elements(c))
  {
    var r := cs + [c];
    hide Sorted;
    forall e ensures e in S + Recovery.Elements(c) <==> InSome(r, e) {
      if e in S {
        var i :| 0 <= i < |cs| && e in cs[i];
        assert e in r[i];
      }
      if e in c { assert e in r[|cs|]; }
      if InSome(r, e) {
        var i :| 0 <= i < |r| && e in r[i];
        if i < |cs| { assert InSome(cs, e); }
      }
    }
    forall k, e | 0 <= k < |cs| && e in cs[k] ensures e in S { assert InSome(cs, e); }
  }

  // ----- what is above a level, and what is in it

  ghost function Above(db: DB, n: nat): set<Entry> {
    db.Mems() + set i, f, e | 0 <= i < n && i < NUM_LEVELS && f in db.v[i] && e in f.entries :: e
  }

  lemma NotTwice(f: File, g: File, e: Entry)
    requires Newer(f, g)
    ensures !(e in f.entries && e in g.entries)
  {
  }

  lemma FilesApart(v: Version, i: nat, k: nat, f: File, g: File, e: Entry)
    requires Recency(v) && i < NUM_LEVELS && k < NUM_LEVELS && f in v[i] && g in v[k] && f != g && e in f.entries
    ensures e !in g.entries
  {
    if i < k {
      NotTwice(f, g, e);
    } else if k < i {
      NotTwice(g, f, e);
    } else if i == 0 {
      if f.number > g.number { NotTwice(f, g, e); } else { NotTwice(g, f, e); }
    } else {
      assert Apart(f, g);
      InRange(f, e);
      if e in g.entries { InRange(g, e); }
    }
  }

  lemma {:induction false} FlatHolds(files: seq<File>, e: Entry)
    ensures e in Flat(FileBlocks(files)) <==> exists f :: f in files && e in f.entries
    decreases |files|
  {
    if files != [] {
      var n := |files| - 1;
      FlatHolds(files[..n], e);
      assert FileBlocks(files)[..n] == FileBlocks(files[..n]) && files == files[..n] + [files[n]];
      if f :| f in files && e in f.entries { assert f in files[..n] || f == files[n]; }
    }
  }

  /** Nothing in a level is above it. */
  lemma LevelNew(db: DB, n: nat, f: File, e: Entry)
    requires Inv(db) && n < NUM_LEVELS && f in db.v[n] && e in f.entries
    ensures e !in Above(db, n)
  {
    assert e in Content(db.v);
    hide Inv, Content;
    MemsNewer(db, e);
    forall i, g | 0 <= i < n && g in db.v[i] ensures e !in g.entries {
      LevelsDiffer(db, i, n, g, f, e);
    }
  }

  lemma MemsNewer(db: DB, e: Entry)
    requires Inv(db) && e in Content(db.v)
    ensures e !in db.Mems()
  {
    hide Recency, NumbersBelow, JobOk, Content;
  }

  lemma LevelsDiffer(db: DB, i: nat, n: nat, g: File, f: File, e: Entry)
    requires Inv(db) && i < n < NUM_LEVELS && g in db.v[i] && f in db.v[n] && e in f.entries
    ensures e !in g.entries
  {
    assert LevelsRecent(db.v);
    assert Newer(g, f);
  }

  // ----- covering level by level

  lemma MemsCovered(db: DB, mem: seq<Entry>, imm: Option<seq<Entry>>)
    requires Inv(db) && Sorted(mem) && Recovery.Elements(mem) == db.mem
    requires imm.Some? <==> db.imm.Some?
    requires imm.Some? ==> Sorted(imm.value) && Recovery.Elements(imm.value) == db.imm.value
    ensures Covers([mem] + (if imm.Some? then [imm.value] else []), Above(db, 0))
  {
    assert AgesOk(db);
    hide Inv, AgesOk, Sorted;
    assert Covers([], {});
    hide Covers;
    assert forall e :: e in mem ==> e in Recovery.Elements(mem);
    AddChild([], {}, mem);
    assert [] + [mem] == [mem] && {} + db.mem == db.mem;
    if imm.Some? {
      forall e | e in imm.value ensures e !in db.mem {
        assert e in Recovery.Elements(imm.value);
        ImmDiffers(db, e);
      }
      AddChild([mem], db.mem, imm.value);
    } else {
      assert [mem] + [] == [mem] && db.mem + {} == db.mem;
    }
    assert Above(db, 0) == db.Mems();
  }

  lemma ImmDiffers(db: DB, e: Entry)
    requires AgesOk(db) && db.imm.Some? && e in db.imm.value
    ensures e !in db.mem
  {
  }

  ghost function Entries(files: seq<File>): set<Entry> { set f, e | f in files && e in f.entries :: e }

  lemma EntriesNext(files: seq<File>, f: File)
    ensures Entries(files + [f]) == Entries(files) + Recovery.Elements(f.entries)
  {
    assert forall g :: g in files + [f] <==> g in files || g == f;
  }

  lemma {:induction false} ZeroCovered(db: DB, cs: seq<seq<Entry>>, files: seq<File>)
    requires Inv(db) && Covers(cs, Above(db, 0))
    requires (forall f :: f in files ==> f in db.v[0]) && forall i, k :: 0 <= i < k < |files| ==> files[i] != files[k]
    ensures Covers(cs + LevelZero(files), Above(db, 0) + Entries(files))
    decreases |files|
  {
    hide Inv, Covers, Above;
    if files == [] {
      assert cs + LevelZero(files) == cs;
      assert Above(db, 0) + Entries(files) == Above(db, 0);
    } else {
      var n := |files| - 1;
      var front, last := files[..n], files[n];
      ZeroCovered(db, cs, front);
      LastNew(db, files);
      AddChild(cs + LevelZero(front), Above(db, 0) + Entries(front), last.entries);
      assert cs + LevelZero(front) + [last.entries] == cs + LevelZero(files);
      assert files == front + [last];
      EntriesNext(front, last);
      hide Entries;
      assert Above(db, 0) + Entries(front) + Recovery.Elements(last.entries) == Above(db, 0) + Entries(files);
    }
  }

  lemma LastNew(db: DB, files: seq<File>)
    requires Inv(db) && files != []
    requires (forall f :: f in files ==> f in db.v[0]) && forall i, k :: 0 <= i < k < |files| ==> files[i] != files[k]
    ensures var n := |files| - 1; forall e :: e in files[n].entries ==> e !in Above(db, 0) + Entries(files[..n])
  {
    hide Inv, Above;
    var n := |files| - 1;
    assert files[n] in files;
    forall e | e in files[n].entries ensures e !in Above(db, 0) + Entries(files[..n]) {
      LevelNew(db, 0, files[n], e);
      forall f | f in files[..n] ensures e !in f.entries {
        var i :| 0 <= i < n && files[i] == f;
        assert f in files;
        OtherFile(db, f, files[n], e);
      }
    }
  }

  lemma OtherFile(db: DB, f: File, g: File, e: Entry)
    requires Inv(db) && f in db.v[0] && g in db.v[0] && f != g && e in g.entries
    ensures e !in f.entries
  {
    FilesApart(db.v, 0, 0, g, f, e);
  }

  lemma {:induction false} DeeperCovered(db: DB, cs: seq<seq<Entry>>, lists: seq<seq<File>>, n: nat)
    requires Inv(db) && ListsOf(lists, db.v) && 1 <= n <= NUM_LEVELS && Covers(cs, Above(db, 1))
    ensures Covers(cs + Deeper(lists, n), Above(db, n))
    decreases n
  {
    hide Inv, Covers;
    if n == 1 {
      assert Deeper(lists, 1) == [] && cs + Deeper(lists, 1) == cs;
    } else {
      var files := lists[n - 1];
      DeeperCovered(db, cs, lists, n - 1);
      NextLevel(db, files, n - 1);
      if files == [] {
        assert Flat(FileBlocks(files)) == [] && Above(db, n) == Above(db, n - 1);
        assert cs + Deeper(lists, n) == cs + Deeper(lists, n - 1);
      } else {
        var c := Flat(FileBlocks(files));
        AscendingFlat(files);
        AddChild(cs + Deeper(lists, n - 1), Above(db, n - 1), c);
        assert cs + Deeper(lists, n - 1) + [c] == cs + Deeper(lists, n);
      }
    }
  }

  lemma NextLevel(db: DB, files: seq<File>, l: nat)
    requires Inv(db) && l < NUM_LEVELS && (set f | f in files) == db.v[l]
    ensures Above(db, l + 1) == Above(db, l) + Recovery.Elements(Flat(FileBlocks(files)))
    ensures forall e :: e in Flat(FileBlocks(files)) ==> e !in Above(db, l)
  {
    hide Inv;
    forall e ensures e in Flat(FileBlocks(files)) <==> exists f :: f in db.v[l] && e in f.entries {
      FlatHolds(files, e);
      if f :| f in db.v[l] && e in f.entries { assert f in files; }
      if f :| f in files && e in f.entries { assert f in db.v[l]; }
    }
    hide Flat;
    forall e | e in Flat(FileBlocks(files)) ensures e !in Above(db, l) {
      var f :| f in db.v[l] && e in f.entries;
      LevelNew(db, l, f, e);
    }
    forall e ensures e in Above(db, l + 1) <==> e in Above(db, l) + Recovery.Elements(Flat(FileBlocks(files))) {
    }
  }

  // ----- the whole stack

  /** The iterators of the memtables and of every file and level share no entry and hold everything there is. */
  lemma ChildrenCover(db: DB, mem: seq<Entry>, imm: Option<seq<Entry>>, lists: seq<seq<File>>)
    requires Inv(db) && ListsOf(lists, db.v) && Sorted(mem) && Recovery.Elements(mem) == db.mem
    requires (imm.Some? <==> db.imm.Some?) && (imm.Some? ==>
        Sorted(imm.value) && Recovery.Elements(imm.value) == db.imm.value)
    requires forall i, k :: 0 <= i < k < |lists[0]| ==> lists[0][i] != lists[0][k]
    ensures Covers(Children(mem, imm, lists), db.Total())
  {
    hide Inv, Covers, Sorted;
    MemsCovered(db, mem, imm);
    var mems := [mem] + if imm.Some? then [imm.value] else [];
    assert forall f :: f in lists[0] <==> f in db.v[0];
    ZeroCovered(db, mems, lists[0]);
    assert Above(db, 0) + Entries(lists[0]) == Above(db, 1);
    DeeperCovered(db, mems + LevelZero(lists[0]), lists, NUM_LEVELS);
    assert Above(db, NUM_LEVELS) == db.Total();
  }

  /** What is needed of a merging iterator's list: the sorted union of those lists, which exists. */
  lemma UnionIsTotal(db: DB, cs: seq<seq<Entry>>, merged: seq<Entry>)
    requires Covers(cs, db.Total())
    ensures IsUnion(cs, merged) <==> Sorted(merged) && Recovery.Elements(merged) == db.Total()
  {
    hide Sorted;
    if IsUnion(cs, merged) {
      forall e ensures e in Recovery.Elements(merged) <==> e in db.Total() {
        if e in db.Total() {
          var i :| 0 <= i < |cs| && e in cs[i];
          assert AllIn(cs[i], merged);
        }
      }
    }
    if Sorted(merged) && Recovery.Elements(merged) == db.Total() {
      forall i | 0 <= i < |cs| ensures AllIn(cs[i], merged) {
        forall e | e in cs[i] ensures e in merged { assert InSome(cs, e) && e in Recovery.Elements(merged); }
      }
      forall e | e in merged ensures InSome(cs, e) { assert e in Recovery.Elements(merged); }
    }
  }

  /** In every state of a safe run, at any live snapshot, at the last sequence number or above: the merging iterator
    over the memtables and tables has a list to walk, and the user iterator over it shows, in ascending order, exactly
    the keys that the write history gives a value, with that value. */
  lemma ScanIsHistory(r: Run, n: nat, mem: seq<Entry>, imm: Option<seq<Entry>>, lists: seq<seq<File>>, s: nat)
    requires SafeRun(r) && n < |r.states| && r.states[n].Horizon() <= s
    requires var db := r.states[n];
      && ListsOf(lists, db.v) && (forall i, k :: 0 <= i < k < |lists[0]| ==> lists[0][i] != lists[0][k])
      && Sorted(mem) && Recovery.Elements(mem) == db.mem && (imm.Some? <==> db.imm.Some?)
      && (imm.Some? ==> Sorted(imm.value) && Recovery.Elements(imm.value) == db.imm.value)
    ensures exists merged :: IsUnion(Children(mem, imm, lists), merged)
    ensures forall merged :: IsUnion(Children(mem, imm, lists), merged) ==>
        ShowsHistory(merged, r.states[n].Written(), s)
  {
    var db, cs := r.states[n], Children(mem, imm, lists);
    RecencyOverRuns(r, n);
    ReadsOverRuns.ReadsOverRuns(r, n);
    ChildrenCover(db, mem, imm, lists);
    TotalDistinct(db);
    hide SafeRun, Inv, Covers, Children, IsUnion, Sorted, ShowsHistory;
    var all := AsList(db.Total());
    UnionIsTotal(db, cs, all);
    forall merged | IsUnion(cs, merged) ensures ShowsHistory(merged, db.Written(), s) {
      UnionIsTotal(db, cs, merged);
      Shows(db, merged, s);
    }
  }

  lemma TotalDistinct(db: DB)
    requires Inv(db)
    ensures Distinct(db.Total())
  {
    WrittenDistinct(db);
    hide Recency, NumbersBelow, JobOk;
    assert db.Total() <= db.Written();
  }

  /** The keys that the user iterator lists are those with a value, and the entry a Seek lands on holds it. */
  ghost predicate ShowsHistory(merged: seq<Entry>, written: set<Entry>, s: nat) {
    && Sorted(merged)
    && (forall keys, u :: IsLiveList(merged, s, keys) ==> (u in keys <==> Read(written, u, s).Some?))
    && forall u :: Live(merged, u, s) ==> Read(written, u, s) == Some(merged[SeekIndex(merged, u, s)].op.value)
  }

  lemma Shows(db: DB, merged: seq<Entry>, s: nat)
    requires ReadsOk(db) && db.Horizon() <= s && Distinct(db.Total()) && Sorted(merged)
        && Recovery.Elements(merged) == db.Total()
    ensures ShowsHistory(merged, db.Written(), s)
  {
    hide Sorted, SeekIndex;
    forall u ensures Live(merged, u, s) <==> Read(db.Written(), u, s).Some?
      ensures Live(merged, u, s) ==> Read(db.Written(), u, s) == Some(merged[SeekIndex(merged, u, s)].op.value)
    {
      LiveIsRead(merged, db.Total(), u, s);
    }
  }
}
