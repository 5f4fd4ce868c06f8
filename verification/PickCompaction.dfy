/** Automatic and manual compactions give inputs the state machine accepts. */
module PickCompaction {
  import opened DbFormat
  import opened Options
  import opened Versions
  import opened Choosing
  import opened Database
  import opened ReadsOverRuns
  import opened Lookup
  import opened Inputs
  import opened PickInputs

  datatype Trigger =
    | BySize(pointer: Option<Entry>)   // compact_pointer_ of the level, if any
    | BySeek(file: File)               // file_to_compact_

  predicate Past(pointer: Option<Entry>, g: File) { pointer.None? || Before(pointer.value, Largest(g)) }

  /** The first file past the compaction pointer, or the first of all if none is past it. */
  ghost predicate IsFirst(cur: seq<File>, pointer: Option<Entry>, f: File) {
    exists i :: 0 <= i < |cur| && cur[i] == f && (forall k :: 0 <= k < i ==> !Past(pointer, cur[k]))
      && (Past(pointer, f) || (i == 0 && forall g :: g in cur ==> !Past(pointer, g)))
  }

  /** The file a compaction starts from. */
  method FirstFile(cur: seq<File>, trigger: Trigger) returns (f: File)
    requires cur != [] && (trigger.BySeek? ==> trigger.file in cur)
    ensures f in cur
    ensures trigger.BySeek? ==> f == trigger.file
    ensures trigger.BySize? ==> IsFirst(cur, trigger.pointer, f)
  {
    if trigger.BySeek? { return trigger.file; }
    for i := 0 to |cur|
      invariant forall k :: 0 <= k < i ==> !Past(trigger.pointer, cur[k])
    {
      if Past(trigger.pointer, cur[i]) { return cur[i]; }
    }
    f := cur[0];
  }

  lemma SingleStart(level: nat, cur: seq<File>, f: File)
    requires level > 0 && Ascending(cur) && f in cur
    ensures GoodStart(level, cur, [f]) && GapFree(FileSet([f]))
  {
    LastBound(f);
    forall g | g in cur ensures !(Before(Largest(f), Smallest(g)) && Before(Largest(g), Smallest(f))) {
      LastBound(g);
    }
  }

  lemma ClosureStart(cur: seq<File>, f: File, b: Bound, e: Bound)
    requires f in cur && LeastClosed(cur, Some(Lo(f)), Some(Hi(f)), b, e) && b.Some? && e.Some?
    requires RangeCovered(cur, {}, Some(Lo(f)), Some(Hi(f))) ==> RangeCovered(cur, {}, b, e)
    ensures GoodStart(0, cur, Select(cur, b, e)) && f in Select(cur, b, e)
    ensures GapFree(FileSet(Select(cur, b, e)))
  {
    var sel := Select(cur, b, e);
    LastBound(f);
    assert f in sel;
    forall k | Lo(f) <= k <= Hi(f) ensures Covered(FileSet(cur) + {}, k) { assert f in FileSet(cur); }
    forall k | b.value <= k <= e.value ensures Covered(FileSet(sel), k) {
      assert Covered(FileSet(cur) + {}, k);
      var g :| g in FileSet(cur) + {} && Lo(g) <= k <= Hi(g);
      assert g in FileSet(sel);
    }
    CoverGapFree(FileSet(sel), b.value, e.value);
  }

  /** Where an automatic compaction starts: the picked file, at level 0 with all that overlap it directly or not. */
  ghost predicate StartsFrom(level: nat, cur: seq<File>, trigger: Trigger, start: seq<File>) {
    exists f :: f in start && (if trigger.BySeek? then f == trigger.file else IsFirst(cur, trigger.pointer, f))
      && if level == 0 then IsClosure(cur, Some(Lo(f)), Some(Hi(f)), start) else start == [f]
  }

  /** An automatic compaction: its inputs follow from the picked file, may be started, and leave no gap,
    so a memtable may be flushed while it runs. */
  method Pick(lists: seq<seq<File>>, ghost db: DB, level: nat, trigger: Trigger, maxFileSize: nat)
    returns (in0: seq<File>, in1: seq<File>, ghost lo: UserKey, ghost hi: UserKey)
    requires Inv(db) && db.job == None && ListsOf(lists, db.v) && level + 1 < NUM_LEVELS && lists[level] != []
    requires trigger.BySeek? ==> trigger.file in lists[level]
    ensures Start(db, db.(job := Some(Job(level, FileSet(in0), FileSet(in1), db.v, db.Horizon(), {}))), level,
        FileSet(in0), FileSet(in1), lo, hi)
    ensures InputsAre(lists[level], lists[level + 1], in0, in1, lo, hi)
    ensures GapFree(FileSet(in0) + FileSet(in1))
    ensures trigger.BySeek? ==> trigger.file in in0
    ensures trigger.BySize? ==> exists f :: f in in0 && IsFirst(lists[level], trigger.pointer, f)
    ensures exists start :: StartsFrom(level, lists[level], trigger, start)
              && InputsFrom(level, lists[level], lists[level + 1], start, maxFileSize, in0, in1)
  {
    hide InputsFrom, Closed, Select, LeastClosed, RangeCovered, Chosen;
    var cur := lists[level];
    var f := FirstFile(cur, trigger);
    var start := [f];
    if level == 0 {
      var lo0, hi0 := GetRange([f]);
      assert f in [f];
      ghost var b, e;
      start, b, e := GetOverlappingInputs(0, cur, Some(lo0), Some(hi0), {});
      ClosureStart(cur, f, b, e);
    } else {
      SingleStart(level, cur, f);
    }
    assert StartsFrom(level, cur, trigger, start);
    in0, in1, lo, hi := SetupOtherInputs(level, lists, db.v, start, maxFileSize);
    assert f in FileSet(start);
  }

  lemma PrefixStart(level: nat, cur: seq<File>, b: Bound, e: Bound, n: nat)
    requires level > 0 && Ascending(cur) && 0 < n <= |Select(cur, b, e)|
    ensures GoodStart(level, cur, Select(cur, b, e)[..n])
  {
    hide Select;
    var sel := Select(cur, b, e);
    SelectAscending(cur, b, e);
    SelectContiguous(cur, b, e);
    assert FileSet(sel[..n]) <= FileSet(cur) by { assert forall f :: f in sel ==> f in cur; }
    forall d, g, h | d in sel[..n] && h in sel[..n] && g in cur && Before(Largest(d), Smallest(g))
        && Before(Largest(g), Smallest(h))
      ensures g in sel[..n]
    {
      assert d in sel && h in sel && g in sel;
      EarlierInPrefix(sel, n, g, h);
    }
  }

  lemma EarlierInPrefix(sel: seq<File>, n: nat, g: File, h: File)
    requires Ascending(sel) && n <= |sel| && g in sel && h in sel[..n] && Before(Largest(g), Smallest(h))
    ensures g in sel[..n]
  {
    var i :| 0 <= i < |sel| && sel[i] == g;
    var k :| 0 <= k < n && sel[k] == h;
    LastBound(g);
    LastBound(h);
    assert i < k;
    assert sel[..n][i] == g;
  }

  lemma {:induction false} SelectAscending(files: seq<File>, b: Bound, e: Bound)
    requires Ascending(files)
    ensures Ascending(Select(files, b, e))
  {
    if files != [] {
      var n := |files| - 1;
      SelectAscending(files[..n], b, e);
      assert forall f :: f in files[..n] ==> Before(Largest(f), Smallest(files[n]));
    }
  }

  /** The shortest prefix whose size reaches the limit, or all files. */
  ghost predicate IsCut(sel: seq<File>, limit: nat, n: nat) {
    0 < n <= |sel| && (n < |sel| ==> TotalFileSize(sel[..n]) >= limit) && forall m: nat :: 0 < m < n ==>
        TotalFileSize(sel[..m]) < limit
  }

  /** The files a manual compaction is asked for. */
  ghost predicate Requested(level: nat, cur: seq<File>, begin: Bound, end: Bound, limit: nat, start: seq<File>) {
    if level == 0 then IsClosure(cur, begin, end, start)
    else exists n: nat :: IsCut(Select(cur, begin, end), limit, n) && start == Select(cur, begin, end)[..n]
  }

  lemma {:induction false} TotalGrows(files: seq<File>, i: nat)
    requires i < |files|
    ensures TotalFileSize(files[..i + 1]) == TotalFileSize(files[..i]) + files[i].size
  {
    if i > 0 {
      TotalGrows(files[1..], i - 1);
      assert files[..i + 1][1..] == files[1..][..i] && files[..i][1..] == files[1..][..i - 1];
    }
  }

  lemma RequestStart(cur: seq<File>, begin: Bound, end: Bound, b: Bound, e: Bound)
    requires LeastClosed(cur, begin, end, b, e) && Select(cur, b, e) != []
    ensures GoodStart(0, cur, Select(cur, b, e))
  {
  }

  method LimitSize(inputs: seq<File>, limit: nat) returns (n: nat)
    requires inputs != []
    ensures IsCut(inputs, limit, n) && 0 < n <= |inputs|
  {
    var total := 0;
    n := |inputs|;
    for i := 0 to |inputs|
      invariant n == |inputs| && total == TotalFileSize(inputs[..i])
      invariant forall m: nat :: 0 < m <= i ==> TotalFileSize(inputs[..m]) < limit
    {
      TotalGrows(inputs, i);
      total := total + inputs[i].size;
      if total >= limit {
        n := i + 1;
        return;
      }
    }
  }

  /** A manual compaction of [begin, end]: below level 0 only as many files as fit the size limit. */
  method CompactRange(lists: seq<seq<File>>, ghost v: Version, level: nat, begin: Bound, end: Bound, maxFileSize: nat)
    returns (none: bool, in0: seq<File>, in1: seq<File>, ghost lo: UserKey, ghost hi: UserKey)
    requires ListsOf(lists, v) && level + 1 < NUM_LEVELS
    ensures none <==> forall f :: f in v[level] ==> !Meets(f, begin, end)
    ensures !none ==> Chosen(v, level, FileSet(in0), FileSet(in1), lo, hi)
    ensures !none ==> InputsAre(lists[level], lists[level + 1], in0, in1, lo, hi)
    ensures !none ==> exists start ::
              Requested(level, lists[level], begin, end, maxFileSize, start) && FileSet(start) <= FileSet(in0)
                && InputsFrom(level, lists[level], lists[level + 1], start, maxFileSize, in0, in1)
  {
    hide Select, IsClosure, LeastClosed, IsCut, Chosen, GoodStart, InputsAre, InputsFrom, Requested, FileSet, GapFree,
        RangeCovered;
    var cur := lists[level];
    var inputs, b, e := GetOverlappingInputs(level, cur, begin, end, {});
    NoneAsked(level, cur, v, begin, end, b, e);
    none := inputs == [];
    if none {
      in0, in1, lo, hi := [], [], 0, 0;
      return;
    }
    if level > 0 {
      var n := LimitSize(inputs, maxFileSize);
      PrefixStart(level, cur, b, e, n);
      inputs := inputs[..n];
      CutRequested(level, cur, begin, end, maxFileSize, n);
    } else {
      RequestStart(cur, begin, end, b, e);
      ClosureRequested(cur, begin, end, maxFileSize, inputs);
    }
    in0, in1, lo, hi := SetupOtherInputs(level, lists, v, inputs, maxFileSize);
  }

  lemma CutRequested(level: nat, cur: seq<File>, begin: Bound, end: Bound, limit: nat, n: nat)
    requires level > 0 && n <= |Select(cur, begin, end)| && IsCut(Select(cur, begin, end), limit, n)
    ensures Requested(level, cur, begin, end, limit, Select(cur, begin, end)[..n])
  {
  }

  lemma ClosureRequested(cur: seq<File>, begin: Bound, end: Bound, limit: nat, start: seq<File>)
    requires IsClosure(cur, begin, end, start)
    ensures Requested(0, cur, begin, end, limit, start)
  {
  }

  /** Nothing is chosen exactly when no file of the level meets the request. */
  lemma NoneAsked(level: nat, cur: seq<File>, v: Version, begin: Bound, end: Bound, b: Bound, e: Bound)
    requires level < NUM_LEVELS && v[level] == set f | f in cur
    requires if level > 0 then b == begin && e == end else LeastClosed(cur, begin, end, b, e)
    ensures Select(cur, b, e) == [] <==> forall f :: f in v[level] ==> !Meets(f, begin, end)
  {
    if forall f :: f in v[level] ==> !Meets(f, begin, end) {
      if level == 0 {
        assert Closed(cur, begin, end) && Wider(begin, end, begin, end);
        assert Wider(begin, end, b, e);
      }
      if Select(cur, b, e) != [] {
        var f := OneOf(Select(cur, b, e));
        assert false;
      }
    } else {
      var f :| f in v[level] && Meets(f, begin, end);
      assert f in cur && Meets(f, b, e);
      assert f in Select(cur, b, e);
    }
  }

  lemma OneOf(files: seq<File>) returns (f: File)
    requires files != []
    ensures f in files
  {
    f := files[0];
  }

  /** One input file, nothing to merge with, and little overlap two levels down. */
  predicate IsTrivialMove(in0: seq<File>, in1: seq<File>, grandparents: seq<File>, maxFileSize: nat) {
    |in0| == 1 && |in1| == 0 && TotalFileSize(grandparents) <= 10 * maxFileSize
  }

  /** A trivial move takes the file down one level; the version holds the same entries and stays in order. */
  lemma TrivialMoveStep(db: DB, level: nat, in0: seq<File>, in1: seq<File>, grandparents: seq<File>, maxFileSize: nat,
                        lo: UserKey, hi: UserKey)
    requires Inv(db) && db.job == None && Chosen(db.v, level, FileSet(in0), FileSet(in1), lo, hi)
    requires IsTrivialMove(in0, in1, grandparents, maxFileSize)
    ensures var v := Replace(db.v, level, {in0[0]}, {}, {in0[0]});
      && Next(db, db.(v := v), DoMove(level, in0[0], lo, hi)) && Recency(v) && Content(v) == Content(db.v)
      && v[level] == db.v[level] - {in0[0]} && v[level + 1] == db.v[level + 1] + {in0[0]}
  {
    assert FileSet(in0) == {in0[0]} && FileSet(in1) == {};
    MoveContent(db.v, level, in0[0]);
    NextKeepsInv(db, db.(v := Replace(db.v, level, {in0[0]}, {}, {in0[0]})), DoMove(level, in0[0], lo, hi));
  }

  // ----- placing a flushed memtable

  /** A table may sink below level l: nothing at the next level overlaps, and not too much two levels down. */
  ghost predicate Sinks(lists: seq<seq<File>>, f: File, limit: nat, l: nat)
    requires |lists| == NUM_LEVELS && l < MAX_MEM_COMPACT_LEVEL
  {
    && (forall g :: g in lists[l + 1] ==> !Overlaps(g, Lo(f), Hi(f)))
    && TotalFileSize(Select(lists[l + 2], Some(Lo(f)), Some(Hi(f)))) <= limit
  }

  /** Level 0 if something overlaps there, else the level from which the table sinks no further. */
  ghost predicate IsPicked(lists: seq<seq<File>>, f: File, limit: nat, level: nat)
    requires |lists| == NUM_LEVELS
  {
    && level <= MAX_MEM_COMPACT_LEVEL
    && ((exists g :: g in lists[0] && Overlaps(g, Lo(f), Hi(f))) ==> level == 0)
    && (forall l: nat :: l < level ==> Sinks(lists, f, limit, l))
    && (level < MAX_MEM_COMPACT_LEVEL && (forall g :: g in lists[0] ==> !Overlaps(g, Lo(f), Hi(f))) ==>
       !Sinks(lists, f, limit, level))
  }

  /** There is only one such level. */
  lemma PickedOnce(lists: seq<seq<File>>, f: File, limit: nat, l: nat, m: nat)
    requires |lists| == NUM_LEVELS && IsPicked(lists, f, limit, l) && IsPicked(lists, f, limit, m)
    ensures l == m
  {
    hide Sinks;
  }

  /** Levels are only descended while nothing at the next level overlaps; overlap two levels down is bounded. */
  method PickLevelForMemTableOutput(lists: seq<seq<File>>, ghost v: Version, f: File, maxSn: nat, maxFileSize: nat)
      returns (level: nat)
    requires ListsOf(lists, v)
    requires forall i, g :: 0 <= i < NUM_LEVELS && g in v[i] ==> Largest(g).sn <= maxSn
    ensures PlaceOk(v, f, level) && IsPicked(lists, f, 10 * maxFileSize, level)
  {
    hide Select;
    level := 0;
    LastBound(f);
    assert forall g: File :: Overlaps(g, Lo(f), Hi(f)) <==> Meets(g, Some(Lo(f)), Some(Hi(f)));
    var overlap := SomeFileOverlapsUnsorted(lists[0], Some(Lo(f)), Some(Hi(f)));
    if overlap {
      var g :| g in lists[0] && Meets(g, Some(Lo(f)), Some(Hi(f)));
      assert Overlaps(g, Lo(f), Hi(f));
      return;
    }
    assert forall g :: g in v[0] ==> g in lists[0];
    while level < MAX_MEM_COMPACT_LEVEL
      invariant level <= MAX_MEM_COMPACT_LEVEL
      invariant forall i, g :: 0 <= i <= level && g in v[i] ==> !Overlaps(g, Lo(f), Hi(f))
      invariant forall l: nat :: l < level ==> Sinks(lists, f, 10 * maxFileSize, l)
    {
      assert v[level + 1] == FileSet(lists[level + 1]);
      overlap := SomeFileOverlapsSorted(lists[level + 1], Some(Lo(f)), Some(Hi(f)), maxSn);
      if overlap {
        var g :| g in lists[level + 1] && Meets(g, Some(Lo(f)), Some(Hi(f)));
        assert Overlaps(g, Lo(f), Hi(f));
        break;
      }
      if level + 2 < NUM_LEVELS {
        var overlaps, b, e := GetOverlappingInputs(level + 2, lists[level + 2], Some(Lo(f)), Some(Hi(f)), {});
        if TotalFileSize(overlaps) > 10 * maxFileSize { break; }
      }
      level := level + 1;
    }
  }
}
