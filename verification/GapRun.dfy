/** A reachable run in which a memtable flushed during a manual compaction lands inside its output. */
module GapRun {
  import opened DbFormat
  import opened Options
  import opened Versions
  import opened CompactionReads
  import opened Database
  import opened Recovery
  import opened Lookup
  import opened Inputs
  import opened PickInputs
  import opened PickCompaction
  import opened Reachability
  import opened Gaps

  const E1 := Entry(1, 1, Put("x"))
  const E2 := Entry(9, 2, Put("y"))
  const E3 := Entry(1, 3, Put("x"))
  const E4 := Entry(9, 4, Put("y"))
  const E5 := Entry(5, 5, Put("m"))

  const X1: File := Table(3, 121, [E1])
  const Y1: File := Table(5, 121, [E2])
  const X2: File := Table(7, 121, [E3])
  const Y2: File := Table(9, 121, [E4])
  const XY: File := Table(10, 121, [E3, E4])
  const M: File := Table(12, 121, [E5])

  function Empty(): Version { seq(NUM_LEVELS, i => {}) }

  function At(l1: set<File>, l2: set<File>): Version { Empty()[1 := l1][2 := l2] }

  function S0(): DB { DB([], 0, {}, None, Empty(), [], 2, None) }
  function S1(): DB { DB([E1], 1, {}, None, At({}, {X1}), [], 4, None) }
  function S2(): DB { DB([E1, E2], 2, {}, None, At({}, {X1, Y1}), [], 6, None) }
  function S3(): DB { DB([E1, E2, E3], 3, {}, None, At({X2}, {X1, Y1}), [], 8, None) }
  function S4(): DB { DB([E1, E2, E3, E4], 4, {}, None, At({X2, Y2}, {X1, Y1}), [], 10, None) }
  function J(reserved: set<nat>): Job { Job(1, {X2, Y2}, {X1, Y1}, At({X2, Y2}, {X1, Y1}), 4, reserved) }
  function S5(): DB { S4().(job := Some(J({}))) }
  function S6(): DB { S4().(job := Some(J({10})), nextFile := 11) }
  function S7(): DB { DB([E1, E2, E3, E4, E5], 5, {E5}, None, At({X2, Y2}, {X1, Y1}), [], 11, Some(J({10}))) }
  function S8(): DB { DB([E1, E2, E3, E4, E5], 5, {}, Some({E5}), At({X2, Y2}, {X1, Y1}), [], 12, Some(J({10}))) }

  // ----- four flushes, each to the level the code picks

  lemma One(e: Entry, f: File)
    requires f.entries == [e]
    ensures FilesContent({f}) == {e} == Elements([e])
  {
    assert f in {f} && e in f.entries;
  }

  lemma Levels()
    ensures LevelForced(S0().v, X1, 2) && LevelForced(S1().v, Y1, 2) && LevelForced(S2().v, X2, 1)
        && LevelForced(S3().v, Y2, 1)
    ensures PlaceOk(S0().v, X1, 2) && PlaceOk(S1().v, Y1, 2) && PlaceOk(S2().v, X2, 1) && PlaceOk(S3().v, Y2, 1)
    ensures LevelForced(S8().v, M, 2) && PlaceOk(S8().v, M, 2)
  {
    var a, b, c, d, e := S0().v, S1().v, S2().v, S3().v, S8().v;
    assert forall i :: 0 <= i < NUM_LEVELS ==>
      a[i] == {} && b[i] == (if i == 2 then {X1} else {}) && c[i] == (if i == 2 then {X1, Y1} else {})
      && d[i] == (if i == 1 then {X2} else if i == 2 then {X1, Y1} else {})
      && e[i] == (if i == 1 then {X2, Y2} else if i == 2 then {X1, Y1} else {});
    assert |b[2]| == 1 && |c[2]| == |d[2]| == |e[2]| == 2;
    assert X1 in c[2] && Overlaps(X1, 1, 1) && Y1 in d[2] && Overlaps(Y1, 9, 9);
    hide S0, S1, S2, S3, S8;
    LevelIs(a, X1, 2, 121);
    LevelIs(b, Y1, 2, 121);
    LevelIs(c, X2, 1, 121);
    LevelIs(d, Y2, 1, 121);
    LevelIs(e, M, 2, 121);
  }

  lemma FourFlushes()
    ensures Reachable(S4())
  {
    Levels();
    hide LevelForced, Reachable, PlaceOk;
    One(E1, X1);
    One(E2, Y1);
    One(E3, X2);
    One(E4, Y2);
    ReachInit(S0());
    FirstTwo();
    LastTwo();
    WriteAndFlush(S0(), [(1, Put("x"))], X1, 2);
    WriteAndFlush(S1(), [(9, Put("y"))], Y1, 2);
    WriteAndFlush(S2(), [(1, Put("x"))], X2, 1);
    WriteAndFlush(S3(), [(9, Put("y"))], Y2, 1);
  }

  lemma FirstTwo()
    ensures Stamped(1, [(1, Put("x"))]) == [E1] && Flushed(S0(), [(1, Put("x"))], X1, 2) == S1()
    ensures Stamped(2, [(9, Put("y"))]) == [E2] && Flushed(S1(), [(9, Put("y"))], Y1, 2) == S2()
  {
    assert Stamped(1, [(1, Put("x"))]) == [E1] && Stamped(2, [(9, Put("y"))]) == [E2];
    assert {} + {X1} == {X1} && {X1} + {Y1} == {X1, Y1};
    assert AddAt(Empty(), 2, X1) == At({}, {X1}) && AddAt(At({}, {X1}), 2, Y1) == At({}, {X1, Y1});
  }

  lemma LastTwo()
    ensures Stamped(3, [(1, Put("x"))]) == [E3] && Flushed(S2(), [(1, Put("x"))], X2, 1) == S3()
    ensures Stamped(4, [(9, Put("y"))]) == [E4] && Flushed(S3(), [(9, Put("y"))], Y2, 1) == S4()
  {
    assert Stamped(3, [(1, Put("x"))]) == [E3] && Stamped(4, [(9, Put("y"))]) == [E4];
    assert {} + {X2} == {X2} && {X2} + {Y2} == {X2, Y2};
    assert AddAt(At({}, {X1, Y1}), 1, X2) == At({X2}, {X1, Y1})
        && AddAt(At({X2}, {X1, Y1}), 1, Y2) == At({X2, Y2}, {X1, Y1});
  }

  // ----- a manual compaction of all of level 1

  /** A manual compaction of a whole level can only have these inputs. */
  ghost predicate ManualForced(v: Version, c: nat, ins0: set<File>, ins1: set<File>)
    requires c + 1 < NUM_LEVELS
  {
    forall cur, next, start, limit, in0, in1, lo, hi :: Asked(v, c, cur, next, start, limit, in0, in1, lo, hi) ==>
        FileSet(in0) == ins0 && FileSet(in1) == ins1
  }

  /** What CompactRange guarantees of the inputs it returns. */
  ghost predicate Asked(v: Version, c: nat, cur: seq<File>, next: seq<File>, start: seq<File>, limit: nat,
                        in0: seq<File>, in1: seq<File>, lo: UserKey, hi: UserKey)
    requires c + 1 < NUM_LEVELS
  {
    && FileSet(cur) == v[c] && FileSet(next) == v[c + 1] && Ascending(cur) && limit >= MIN_FILE_SIZE
    && Requested(c, cur, None, None, limit, start)
    && FileSet(start) <= FileSet(in0) && InputsAre(cur, next, in0, in1, lo, hi)
  }

  lemma {:induction false} SelectAll(files: seq<File>)
    ensures Select(files, None, None) == files
  {
    if files != [] {
      SelectAll(files[..|files| - 1]);
      assert files[..|files| - 1] + [files[|files| - 1]] == files;
    }
  }

  lemma WholeLevel(c: nat, cur: seq<File>, limit: nat, start: seq<File>)
    requires c > 0 && Requested(c, cur, None, None, limit, start) && Ascending(cur)
    requires |FileSet(cur)| <= 2 && limit >= MIN_FILE_SIZE && forall f :: f in cur ==> f.size <= 121
    ensures FileSet(start) == FileSet(cur)
  {
    SelectAll(cur);
    ListLength(cur);
    var n: nat :| IsCut(cur, limit, n) && start == cur[..n];
    AllOf(cur, limit, n);
  }

  lemma AllOf(cur: seq<File>, limit: nat, n: nat)
    requires IsCut(cur, limit, n) && |cur| <= 2 && limit >= MIN_FILE_SIZE && forall f :: f in cur ==> f.size <= 121
    ensures cur[..n] == cur
  {
    SelectAll(cur[..n]);
    SelectFew(cur[..n], None, None, 121);
  }

  lemma Manual()
    ensures ManualForced(S4().v, 1, {X2, Y2}, {X1, Y1}) && Start(S4(), S5(), 1, {X2, Y2}, {X1, Y1}, 1, 9)
  {
    var v := S4().v;
    assert v[1] == {X2, Y2} && v[2] == {X1, Y1};
    forall cur, next, start, limit, in0, in1, lo, hi | Asked(v, 1, cur, next, start, limit, in0, in1, lo, hi)
      ensures FileSet(in0) == {X2, Y2} && FileSet(in1) == {X1, Y1}
    {
      forall f: File | f in cur ensures f.size <= 121 { assert f in FileSet(cur); }
      WholeLevel(1, cur, limit, start);
      BothMet(next, in0, in1, lo, hi);
    }
  }

  lemma BothMet(next: seq<File>, in0: seq<File>, in1: seq<File>, lo: UserKey, hi: UserKey)
    requires FileSet(in0) == {X2, Y2} && FileSet(next) == {X1, Y1} && IsHull(in0, lo, hi)
        && in1 == Select(next, Some(lo), Some(hi))
    ensures FileSet(in1) == {X1, Y1}
  {
    assert X2 in FileSet(in0) && Y2 in FileSet(in0) && X1 in FileSet(next) && Y1 in FileSet(next);
    forall g ensures g in FileSet(in1) <==> g in {X1, Y1} {
      assert g in next <==> g in FileSet(next);
    }
  }

  lemma RestOfRun()
    ensures Reserve(S5(), S6()) && Write(S6(), S7(), [(5, Put("m"))]) && Switch(S7(), S8())
  {
    assert Stamped(5, [(5, Put("m"))]) == [E5] && {} + {10} == {10};
    assert {} + {E5} == {E5} && (set e | e in [E5]) == {E5};
  }

  lemma Outputs()
    ensures OutputsOf(J({10}), {XY})
  {
    var ins := FilesContent({X2, Y2} + {X1, Y1});
    assert ins == {E1, E2, E3, E4} by {
      var all := {X2, Y2} + {X1, Y1};
      assert X1 in all && Y1 in all && X2 in all && Y2 in all;
      assert E1 in X1.entries && E2 in Y1.entries && E3 in X2.entries && E4 in Y2.entries;
    }
    assert FilesContent({XY}) == {E3, E4} by { assert E3 in XY.entries && E4 in XY.entries; }
    assert Hidden(ins, E1, 4) && Hidden(ins, E2, 4) by { assert E3 in ins && E4 in ins; }
    assert Kept(At({X2, Y2}, {X1, Y1}), 1, ins, 4) == {E3, E4};
  }

  /** In a reachable state, with the inputs and the flush level that the code picks, the table made of the immutable
    memtable and an output of the running compaction overlap at level 2. */
  lemma ManualGapOverlaps()
    ensures Reachable(S8()) && ManualForced(S4().v, 1, {X2, Y2}, {X1, Y1})
    ensures LevelForced(S8().v, M, 2) && Candidate(S8(), M, 2) && !LandsClear(S8(), M, 2)
    ensures OutputsOf(S8().job.value, {XY}) && !LevelsApart(Landed(S8(), M, 2, {XY}))
  {
    Run();
    Levels();
    Manual();
    Outputs();
    One(E5, M);
    hide Reachable, LevelForced, ManualForced, Requested, OutputsOf;
    Overlapping();
  }

  lemma Run()
    ensures Reachable(S8())
  {
    FourFlushes();
    Manual();
    RestOfRun();
    hide Reachable, Start, Reserve, Write, Switch, ManualForced;
    ReachNext(S4(), S5(), DoStart(1, {X2, Y2}, {X1, Y1}, 1, 9));
    ReachNext(S5(), S6(), DoReserve);
    ReachNext(S6(), S7(), DoWrite([(5, Put("m"))]));
    ReachNext(S7(), S8(), DoSwitch);
  }

  lemma Overlapping()
    requires OutputsOf(J({10}), {XY})
    ensures !LandsClear(S8(), M, 2) && !LevelsApart(Landed(S8(), M, 2, {XY}))
  {
    assert E3 in XY.entries && E4 in XY.entries && XY in {XY};
    assert E3 in FilesContent({XY}) && E4 in FilesContent({XY});
    assert E3 in ToKeep(J({10})) && E4 in ToKeep(J({10}));
    hide ToKeep, FilesContent;
    var w := Landed(S8(), M, 2, {XY});
    assert M in w[2] && XY in w[2] && M != XY && !Apart(M, XY);
  }
}
