/** A reachable run in which a deleted value comes back, because a user key is split one level down. */
module Resurrection {
  import opened DbFormat
  import opened Options
  import opened Versions
  import opened CompactionReads
  import opened Database
  import opened ReadsOverRuns
  import opened Recovery
  import opened Reachability

  // The options are block_size = max_file_size = 2 MB, without compression.  A block that holds the first value alone
  // is a few bytes short of 2 MB, so an output file is full when the tombstone behind it is added.
  const BIG: Value := Repeated('x', 2_097_120)

  function Repeated(c: char, n: nat): Value { seq(n, i => c) }

  const A1 := Entry(4, 1, Put(BIG))
  const B2 := Entry(5, 2, Put("a"))
  const D3 := Entry(5, 3, Delete)
  const A4 := Entry(4, 4, Put("y"))

  const F: File := Table(3, 2_097_260, [A1, B2])    // first flush, to level 2
  const D: File := Table(5, 120, [D3])        // second flush, to level 1
  const O1: File := Table(6, 2_097_259, [A1, D3])   // first compaction of level 1, split inside user key 5
  const O2: File := Table(7, 121, [B2])
  const G: File := Table(9, 121, [A4])        // third flush, to level 1
  const H: File := Table(10, 121, [A4])       // second compaction of level 1

  function Empty(): Version { seq(NUM_LEVELS, i => {}) }

  function At(l1: set<File>, l2: set<File>): Version { Empty()[1 := l1][2 := l2] }

  function S0(): DB { DB([], 0, {}, None, Empty(), [], 2, None) }
  function S1(): DB { DB([A1, B2], 2, {}, None, At({}, {F}), [], 4, None) }
  function S2(): DB { S1().(snaps := [2]) }
  function S3(): DB { DB([A1, B2, D3], 3, {}, None, At({D}, {F}), [2], 6, None) }
  function Job1(reserved: set<nat>): Job { Job(1, {D}, {F}, At({D}, {F}), 2, reserved) }
  function S4(): DB { S3().(job := Some(Job1({}))) }
  function S5(): DB { S3().(nextFile := 7, job := Some(Job1({6}))) }
  function S6(): DB { S3().(nextFile := 8, job := Some(Job1({6, 7}))) }
  function S7(): DB { DB([A1, B2, D3], 3, {}, None, At({}, {O1, O2}), [2], 8, None) }
  function S8(): DB { S7().(snaps := []) }
  function S9(): DB { DB([A1, B2, D3, A4], 4, {}, None, At({G}, {O1, O2}), [], 10, None) }
  function Job2(reserved: set<nat>): Job { Job(1, {G}, {O1}, At({G}, {O1, O2}), 4, reserved) }
  function S10(): DB { S9().(job := Some(Job2({}))) }
  function S11(): DB { S9().(nextFile := 11, job := Some(Job2({10}))) }
  function S12(): DB { DB([A1, B2, D3, A4], 4, {}, None, At({}, {O2, H}), [], 11, None) }

  // ----- the flushes, each to the level the code picks

  lemma Levels()
    ensures LevelForced(S0().v, F, 2) && LevelForced(S2().v, D, 1) && LevelForced(S8().v, G, 1)
    ensures PlaceOk(S0().v, F, 2) && PlaceOk(S2().v, D, 1) && PlaceOk(S8().v, G, 1)
  {
    var a, b, c := S0().v, S2().v, S8().v;
    assert forall i :: 0 <= i < NUM_LEVELS ==> a[i] == {} && (i != 2 ==> b[i] == {} && c[i] == {});
    assert b[2] == {F} && c[2] == {O1, O2};
    assert F in b[2] && Overlaps(F, 5, 5) && O1 in c[2] && Overlaps(O1, 4, 4);
    assert |c[2]| == 2 && |b[2]| == 1;
    LevelIs(a, F, 2, 2_097_260);
    LevelIs(b, D, 1, 2_097_260);
    LevelIs(c, G, 1, 2_097_260);
  }

  lemma FirstFlush()
    requires Reachable(S0())
    ensures Reachable(S1())
  {
    var batch := [(4, Put(BIG)), (5, Put("a"))];
    assert Stamped(1, batch) == [A1, B2];
    assert FilesContent({F}) == {A1, B2} == Elements([A1, B2]) by { assert A1 in F.entries && B2 in F.entries; }
    Levels();
    assert AddAt(Empty(), 2, F) == At({}, {F}) by { assert {} + {F} == {F}; }
    assert Flushed(S0(), batch, F, 2) == S1();
    WriteAndFlush(S0(), batch, F, 2);
  }

  lemma SecondFlush()
    requires Reachable(S2())
    ensures Reachable(S3())
  {
    var batch := [(5, Delete)];
    assert Stamped(3, batch) == [D3];
    assert FilesContent({D}) == {D3} == Elements([D3]) by { assert D3 in D.entries; }
    Levels();
    assert AddAt(At({}, {F}), 1, D) == At({D}, {F}) by { assert {} + {D} == {D}; }
    assert Flushed(S2(), batch, D, 1) == S3();
    WriteAndFlush(S2(), batch, D, 1);
  }

  lemma ThirdFlush()
    requires Reachable(S8())
    ensures Reachable(S9())
  {
    var batch := [(4, Put("y"))];
    assert Stamped(4, batch) == [A4];
    assert FilesContent({G}) == {A4} == Elements([A4]) by { assert A4 in G.entries; }
    Levels();
    assert AddAt(At({}, {O1, O2}), 1, G) == At({G}, {O1, O2}) by { assert {} + {G} == {G}; }
    assert Flushed(S8(), batch, G, 1) == S9();
    WriteAndFlush(S8(), batch, G, 1);
  }

  // ----- the compactions, each with the inputs the code picks

  lemma Choices()
    ensures InputsForced(S3().v, 1, {D}, {F}) && Start(S3(), S4(), 1, {D}, {F}, 5, 5)
    ensures InputsForced(S9().v, 1, {G}, {O1}) && Start(S9(), S10(), 1, {G}, {O1}, 4, 4)
  {
    OnlyInput(S3().v, 1, D, {F});
    OnlyInput(S9().v, 1, G, {O1});
  }

  lemma Reserves()
    ensures Reserve(S4(), S5()) && Reserve(S5(), S6()) && Reserve(S10(), S11())
  {
    assert {} + {6} == {6} && {6} + {7} == {6, 7} && {} + {10} == {10};
  }

  lemma FirstOutputs()
    ensures FilesContent({D} + {F}) == {A1, B2, D3} == FilesContent({O1, O2})
    ensures Kept(At({D}, {F}), 1, FilesContent({D} + {F}), 2) == {A1, B2, D3}
  {
    assert FilesContent({D} + {F}) == {A1, B2, D3} by {
      assert F in {D} + {F} && D in {D} + {F} && A1 in F.entries && B2 in F.entries && D3 in D.entries;
    }
    assert FilesContent({O1, O2}) == {A1, B2, D3} by {
      assert A1 in O1.entries && D3 in O1.entries && B2 in O2.entries;
    }
    hide FilesContent;
    assert Kept(At({D}, {F}), 1, {A1, B2, D3}, 2) == {A1, B2, D3};
  }

  lemma FirstFinish()
    ensures Finish(S6(), S7(), {O1, O2})
  {
    FirstOutputs();
    hide Kept, FilesContent;
    assert {D} - {D} == {} && {F} - {F} + {O1, O2} == {O1, O2};
    assert Replace(At({D}, {F}), 1, {D}, {F}, {O1, O2}) == At({}, {O1, O2});
  }

  lemma SecondFinish()
    ensures Finish(S11(), S12(), {H})
  {
    var base := At({G}, {O1, O2});
    var ins := FilesContent({G} + {O1});
    assert ins == {A4, A1, D3} by {
      assert G in {G} + {O1} && O1 in {G} + {O1} && A4 in G.entries && A1 in O1.entries && D3 in O1.entries;
    }
    assert FilesContent({H}) == {A4} by { assert A4 in H.entries; }
    assert Hidden(ins, A1, 4) by { assert A4 in ins; }
    assert Obsolete(base, 1, D3, 4);
    assert Kept(base, 1, ins, 4) == {A4};
    assert {G} - {G} == {} && {O1, O2} - {O1} + {H} == {O2, H};
    assert Replace(base, 1, {G}, {O1}, {H}) == At({}, {O2, H});
  }

  // ----- the run

  lemma FirstHalf()
    ensures Reachable(S7())
  {
    Choices();
    Reserves();
    FirstFinish();
    hide Write, Switch, Flush, Start, Reserve, Finish, Reachable;
    ReachInit(S0());
    FirstFlush();
    ReachNext(S1(), S2(), DoSnapshot);
    SecondFlush();
    ReachNext(S3(), S4(), DoStart(1, {D}, {F}, 5, 5));
    ReachNext(S4(), S5(), DoReserve);
    ReachNext(S5(), S6(), DoReserve);
    ReachNext(S6(), S7(), DoFinish({O1, O2}));
  }

  lemma SecondHalf()
    requires Reachable(S7())
    ensures Reachable(S12())
  {
    Choices();
    Reserves();
    SecondFinish();
    hide Write, Switch, Flush, Start, Reserve, Finish, Reachable;
    ReachNext(S7(), S8(), DoRelease(0));
    ThirdFlush();
    ReachNext(S9(), S10(), DoStart(1, {G}, {O1}, 4, 4));
    ReachNext(S10(), S11(), DoReserve);
    ReachNext(S11(), S12(), DoFinish({H}));
  }

  lemma LastWritten()
    ensures Read(S12().Written(), 5, 4) == None
  {
    var w := S12().Written();
    assert w == {A1, B2, D3, A4};
    VisibleIs(w, D3, 5, 4);
  }

  lemma LastRead()
    ensures Read(S12().Total(), 5, 4) == Some("a")
  {
    var t := S12().Total();
    assert t == {B2, A4} by {
      var v := S12().v;
      assert O2 in v[2] && B2 in O2.entries && H in v[2] && A4 in H.entries;
    }
    VisibleIs(t, B2, 5, 4);
  }

  /** In a reachable state a read at the last sequence number returns a value the history deleted.  Every flush of the
    run goes to the level the code picks, and both compactions have the inputs the code picks. */
  lemma DeletedValueReturns()
    ensures Reachable(S12()) && S12().Horizon() == 4
    ensures LevelForced(S0().v, F, 2) && LevelForced(S2().v, D, 1) && LevelForced(S8().v, G, 1)
    ensures InputsForced(S3().v, 1, {D}, {F}) && InputsForced(S9().v, 1, {G}, {O1})
    ensures Read(S12().Written(), 5, 4) == None && Read(S12().Total(), 5, 4) == Some("a")
    ensures !ReadsOk(S12())
  {
    FirstHalf();
    SecondHalf();
    Levels();
    Choices();
    LastWritten();
    LastRead();
  }
}
