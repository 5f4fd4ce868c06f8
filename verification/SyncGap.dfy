/** Switching logs does not sync the old one: a machine crash may keep a later write and lose an earlier one. */
module SyncGap {
  import opened DbFormat
  import opened Options
  import opened Versions
  import opened Database
  import opened Recovery
  import opened Durability
  import opened Crashes

  const E1 := Entry(1, 1, Put("a"))
  const E2 := Entry(2, 2, Put("b"))
  const R1 := Record(1, [E1])
  const R2 := Record(2, [E2])

  function Empty(): Version { seq(NUM_LEVELS, i => {}) }

  const M: Manifest := Manifest(Empty(), 3, 4, 0)

  function Files(logs: map<nat, LogFile>): Disk { Disk(map[], logs, map[2 := M], 2) }

  function S0(): Sys { Sys(DB([], 0, {}, None, Empty(), [], 4, None), Files(map[3 := LogFile([], 0)]), 3, 0, None, 3, {}, None) }
  function S1(): Sys { S0().(disk := Files(map[3 := LogFile([R1], 0)]), inflight := Some([(1, Put("a"))])) }
  function S2(): Sys { S1().(db := DB([E1], 1, {E1}, None, Empty(), [], 4, None), inflight := None) }
  function S3(): Sys { S2().(db := DB([E1], 1, {}, Some({E1}), Empty(), [], 5, None), memLog := 4, immLog := 3,
      disk := Files(map[3 := LogFile([R1], 0), 4 := LogFile([], 0)])) }
  function S4(): Sys { S3().(disk := Files(map[3 := LogFile([R1], 0), 4 := LogFile([R2], 1)]),
      inflight := Some([(2, Put("b"))])) }
  function S5(): Sys { S4().(db := DB([E1, E2], 2, {E2}, Some({E1}), Empty(), [], 5, None), inflight := None) }

  lemma FirstSteps()
    ensures SysInit(S0()) && SysNext(S0(), S1(), Append([(1, Put("a"))], false)) && SysNext(S1(), S2(), Apply)
  {
    assert Stamped(1, [(1, Put("a"))]) == [E1];
    assert [] + [R1] == [R1];
    assert map[3 := LogFile([], 0)][3 := LogFile([R1], 0)] == map[3 := LogFile([R1], 0)];
  }

  lemma LaterSteps()
    ensures SysNext(S2(), S3(), Rotate) && SysNext(S3(), S4(), Append([(2, Put("b"))], true))
        && SysNext(S4(), S5(), Apply)
  {
    assert Stamped(2, [(2, Put("b"))]) == [E2];
    assert [] + [R2] == [R2];
    assert map[3 := LogFile([R1], 0)][4 := LogFile([], 0)] == map[3 := LogFile([R1], 0), 4 := LogFile([], 0)];
    assert map[3 := LogFile([R1], 0), 4 := LogFile([], 0)][4 := LogFile([R2], 1)] ==
        map[3 := LogFile([R1], 0), 4 := LogFile([R2], 1)];
  }

  function Cut(): Disk { Files(map[3 := LogFile([], 0), 4 := LogFile([R2], 1)]) }

  const LOGS: seq<Log> := [Log(3, []), Log(4, [R2])]

  const T: File := Table(5, 0, [E2])

  function After(): Version { Empty()[0 := {T}] }

  lemma CutIsAllowed()
    ensures Truncated(S5().disk, Cut()) && LogsFrom(Cut(), 3, LOGS)
  {
    var d := Cut();
    assert LOGS[0] == Log(3, d.logs[3].records) && LOGS[1] == Log(4, d.logs[4].records);
  }

  lemma ReplayedEntries()
    ensures FlatLogs(RecordsOf(LOGS)) == [E2]
  {
    var rs := RecordsOf(LOGS);
    assert rs == [[], [R2]] && rs[..1] == [[]] && rs[..1][..0] == [];
    assert [R2][..0] == [];
    assert Flat([R2]) == [E2] && Flat([]) == [];
    assert FlatLogs([[]]) == [] && FlatLogs(rs) == [E2];
  }

  lemma Recovers()
    ensures Replay(M, LOGS, After(), 6, 7) && E1 !in Content(After()) && E2 in Content(After())
  {
    var v := After();
    ReplayedEntries();
    hide FlatLogs, RecordsOf;
    assert Content(v) == {E2} by {
      assert T in v[0] && E2 in T.entries;
    }
    assert Content(Empty()) == {};
    assert Elements([E2]) == {E2};
  }

  /** Both writes were acknowledged, the second with sync; after a machine crash only the second is read back. */
  lemma EarlierWriteLost()
    ensures exists r :: IsSysRun(r) && r.states[|r.events|] == S5()
    ensures S5().db.history == [E1, E2] && S5().inflight == None && E2 in SyncedPart(S5().disk.logs[4])
    ensures Truncated(S5().disk, Cut()) && LogsFrom(Cut(), Current(S5().disk).logNumber, LOGS)
    ensures Replay(Current(S5().disk), LOGS, After(), 6, 7) && E1 !in Content(After()) && E2 in Content(After())
  {
    FirstSteps();
    LaterSteps();
    CutIsAllowed();
    Recovers();
    hide SysInit, SysNext, Truncated, LogsFrom, Replay, Content;
    var r := SysRun([S0(), S1(), S2(), S3(), S4(), S5()],
                    [Append([(1, Put("a"))], false), Apply, Rotate, Append([(2, Put("b"))], true), Apply]);
    assert IsSysRun(r);
    assert [R2][..1] == [R2] && [R2][..0] == [] && Flat([R2]) == [E2];
  }
}
