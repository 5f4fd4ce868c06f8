/** Where a compaction cuts its output: at full files, and before an output overlaps too much two levels down. */
module OutputCuts {
  import opened DbFormat
  import opened Versions
  import opened Lookup
  import opened PickInputs

  type Test = nat -> bool

  /** Positions in the merged input: of closed files and of the one being written. */
  datatype Parts = Parts(closed: seq<seq<nat>>, open: seq<nat>) {
    function All(): seq<seq<nat>> { if open == [] then closed else closed + [open] }
  }

  function Shut(p: Parts): Parts { Parts(p.All(), []) }

  /** One turn of the loop. */
  function Turn(p: Parts, i: nat, stop: bool, keep: bool, full: bool): Parts {
    var q := if stop then Shut(p) else p;
    if !keep then q else
      var r := Parts(q.closed, q.open + [i]);
      if full then Shut(r) else r
  }

  function PartsOf(n: nat, stop: Test, keep: Test, full: Test): Parts {
    if n == 0 then Parts([], []) else Turn(PartsOf(n - 1, stop, keep, full), n - 1, stop(n - 1), keep(n - 1), full(n - 1))
  }

  // ----- what that means for the files

  function Last(ns: seq<nat>): nat
    requires ns != []
  {
    ns[|ns| - 1]
  }

  ghost predicate NoStop(stop: Test, i: nat, j: nat) { forall m: nat :: i < m <= j ==> !stop(m) }

  /** No reason to cut between two positions, the first of which was written. */
  ghost predicate Together(stop: Test, full: Test, i: nat, j: nat) { !full(i) && NoStop(stop, i, j) }

  function Joined(parts: seq<seq<nat>>): seq<nat> {
    if parts == [] then [] else Joined(parts[..|parts| - 1]) + parts[|parts| - 1]
  }

  function KeptTo(n: nat, keep: Test): seq<nat> {
    if n == 0 then [] else KeptTo(n - 1, keep) + if keep(n - 1) then [n - 1] else []
  }

  ghost predicate InFile(part: seq<nat>, stop: Test, full: Test) {
    part != [] && forall a :: 0 < a < |part| ==> part[a - 1] < part[a] && Together(stop, full, part[a - 1], part[a])
  }

  ghost predicate CutBetween(p: seq<nat>, q: seq<nat>, stop: Test, full: Test) {
    p != [] && q != [] && Last(p) < q[0] && !Together(stop, full, Last(p), q[0])
  }

  /** Within a file there is no reason to cut, and between two files there is one. */
  ghost predicate WellCut(parts: seq<seq<nat>>, stop: Test, full: Test) {
    && (forall k :: 0 <= k < |parts| ==> InFile(parts[k], stop, full))
    && forall k, l :: 0 <= k < |parts| && 0 <= l < |parts| && l == k + 1 ==> CutBetween(parts[k], parts[l], stop, full)
  }

  /** The state after n turns: the files are well cut, and the open one has no reason to be closed. */
  ghost predicate CutTo(p: Parts, n: nat, stop: Test, full: Test) {
    && WellCut(p.All(), stop, full)
    && (p.All() != [] ==>
         var last := Last(p.All()[|p.All()| - 1]);
         p.All()[|p.All()| - 1] != [] && last < n && (p.open != [] <==> Together(stop, full, last, n - 1)))
  }

  lemma CloseCuts(p: Parts, n: nat, stop: Test, full: Test)
    requires CutTo(p, n, stop, full) && stop(n)
    ensures CutTo(Shut(p), n + 1, stop, full)
  {
    if p.All() != [] {
      var last := Last(p.All()[|p.All()| - 1]);
      assert !NoStop(stop, last, n);
    }
  }

  lemma NoCut(p: Parts, n: nat, stop: Test, full: Test)
    requires CutTo(p, n, stop, full) && !stop(n)
    ensures CutTo(p, n + 1, stop, full)
  {
    if p.All() != [] {
      var last := Last(p.All()[|p.All()| - 1]);
      assert NoStop(stop, last, n) <==> NoStop(stop, last, n - 1);
    }
  }

  lemma OneLonger(part: seq<nat>, n: nat, stop: Test, full: Test)
    requires InFile(part, stop, full) && Last(part) < n && Together(stop, full, Last(part), n)
    ensures InFile(part + [n], stop, full)
  {
    var r := part + [n];
    forall a | 0 < a < |r| ensures r[a - 1] < r[a] && Together(stop, full, r[a - 1], r[a]) {
      if a < |part| { assert part[a - 1] < part[a] && Together(stop, full, part[a - 1], part[a]); }
    }
  }

  lemma LongerCut(p: seq<nat>, q: seq<nat>, n: nat, stop: Test, full: Test)
    requires CutBetween(p, q, stop, full)
    ensures CutBetween(p, q + [n], stop, full)
  {
  }

  /** The next entry goes into the open file, or into a new one if there is none. */
  lemma WriteCuts(p: Parts, n: nat, stop: Test, full: Test)
    requires CutTo(p, n + 1, stop, full) && (p.All() != [] ==> Last(p.All()[|p.All()| - 1]) < n)
    ensures WellCut(Parts(p.closed, p.open + [n]).All(), stop, full)
  {
    var was, parts, m := p.All(), Parts(p.closed, p.open + [n]).All(), |p.closed|;
    assert parts == p.closed + [p.open + [n]];
    hide InFile, CutBetween, Together;
    forall k | 0 <= k < |parts| ensures InFile(parts[k], stop, full) {
      if k < m {
        assert was[k] == parts[k];
      } else if p.open != [] {
        assert was[m] == p.open;
        OneLonger(p.open, n, stop, full);
      } else {
        OneAlone(n, stop, full);
      }
    }
    forall k, l | 0 <= k < |parts| && 0 <= l < |parts| && l == k + 1 ensures CutBetween(parts[k], parts[l], stop, full) {
      assert was[k] == parts[k];
      if l < m {
        assert was[l] == parts[l];
      } else if p.open != [] {
        assert was[m] == p.open;
        LongerCut(was[k], p.open, n, stop, full);
      } else {
        IsCut(parts[k], n, stop, full);
      }
    }
  }

  lemma OneAlone(n: nat, stop: Test, full: Test)
    ensures InFile([n], stop, full) && [] + [n] == [n]
  {
  }

  lemma IsCut(p: seq<nat>, n: nat, stop: Test, full: Test)
    requires p != [] && Last(p) < n && !Together(stop, full, Last(p), n)
    ensures CutBetween(p, [] + [n], stop, full)
  {
  }

  lemma TurnCuts(p: Parts, n: nat, stop: Test, keep: Test, full: Test)
    requires CutTo(p, n, stop, full)
    ensures CutTo(Turn(p, n, stop(n), keep(n), full(n)), n + 1, stop, full)
  {
    var q := if stop(n) then Shut(p) else p;
    if stop(n) { CloseCuts(p, n, stop, full); } else { NoCut(p, n, stop, full); }
    LastEarlier(p, n, stop, full);
    if keep(n) {
      WriteCuts(q, n, stop, full);
      var r := Parts(q.closed, q.open + [n]);
      assert r.All()[|r.All()| - 1] == q.open + [n];
      Fresh(r, n, stop, full);
    }
  }

  lemma LastEarlier(p: Parts, n: nat, stop: Test, full: Test)
    requires CutTo(p, n, stop, full)
    ensures p.All() != [] ==> Last(p.All()[|p.All()| - 1]) < n
    ensures Shut(p).All() == p.All()
  {
  }

  /** After writing entry n the file is closed exactly when it is full. */
  lemma Fresh(r: Parts, n: nat, stop: Test, full: Test)
    requires r.open != [] && Last(r.open) == n && WellCut(r.All(), stop, full)
    ensures CutTo(if full(n) then Shut(r) else r, n + 1, stop, full)
  {
    hide WellCut;
    assert NoStop(stop, n, n);
  }

  lemma NothingCut(stop: Test, full: Test)
    ensures CutTo(Parts([], []), 0, stop, full)
  {
  }

  lemma PartsNext(n: nat, stop: Test, keep: Test, full: Test)
    ensures PartsOf(0, stop, keep, full) == Parts([], [])
    ensures PartsOf(n + 1, stop, keep, full) == Turn(PartsOf(n, stop, keep, full), n, stop(n), keep(n), full(n))
  {
  }

  lemma {:induction false} PartsCut(n: nat, stop: Test, keep: Test, full: Test)
    ensures CutTo(PartsOf(n, stop, keep, full), n, stop, full)
  {
    hide *;
    if n == 0 {
      PartsNext(0, stop, keep, full);
      NothingCut(stop, full);
    } else {
      PartsNext(n - 1, stop, keep, full);
      PartsCut(n - 1, stop, keep, full);
      TurnCuts(PartsOf(n - 1, stop, keep, full), n - 1, stop, keep, full);
    }
  }

  lemma TurnKeeps(p: Parts, i: nat, stop: bool, keep: bool, full: bool)
    ensures Joined(Turn(p, i, stop, keep, full).All()) == Joined(p.All()) + if keep then [i] else []
  {
    JoinedOpen(p.closed, p.open);
    JoinedOpen(p.closed, p.open + [i]);
    JoinedOpen(p.All(), [i]);
    hide Joined;
    assert [] + [i] == [i];
  }

  lemma {:induction false} PartsKeep(n: nat, stop: Test, keep: Test, full: Test)
    ensures Joined(PartsOf(n, stop, keep, full).All()) == KeptTo(n, keep)
  {
    hide Joined, Turn;
    if n == 0 {
      NothingJoined();
    } else {
      PartsKeep(n - 1, stop, keep, full);
      TurnKeeps(PartsOf(n - 1, stop, keep, full), n - 1, stop(n - 1), keep(n - 1), full(n - 1));
    }
  }

  lemma NothingJoined()
    ensures Joined(Parts([], []).All()) == []
  {
  }

  lemma JoinedOpen(closed: seq<seq<nat>>, open: seq<nat>)
    ensures Joined(Parts(closed, open).All()) == Joined(closed) + open
  {
    if open != [] { assert (closed + [open])[..|closed|] == closed; }
  }

  /** The files of a compaction hold the entries that are kept, in order, and are cut exactly where one is full or an
    entry in between asks for a new one. */
  lemma CutExactly(n: nat, stop: Test, keep: Test, full: Test)
    ensures var parts := PartsOf(n, stop, keep, full).All();
            Joined(parts) == KeptTo(n, keep) && WellCut(parts, stop, full)
  {
    PartsKeep(n, stop, keep, full);
    PartsCut(n, stop, keep, full);
  }

  // ----- overlap with the files two levels down

  /** How many of the files lie wholly before the entry. */
  function PastFiles(files: seq<File>, e: Entry): (k: nat)
    ensures k <= |files| && (forall i :: 0 <= i < k ==> Before(Largest(files[i]), e))
    ensures k < |files| ==> !Before(Largest(files[k]), e)
    decreases files
  {
    if files == [] || !Before(Largest(files[0]), e) then 0 else 1 + PastFiles(files[1..], e)
  }

  function Between(files: seq<File>, a: nat, b: nat): nat {
    if a <= b <= |files| then TotalFileSize(files[a..b]) else 0
  }

  /** Where the bytes that entry i is asked about are counted from: the last entry that was told to start a new file, or
    the first of all. */
  function CountFrom(files: seq<File>, input: seq<Entry>, limit: nat, i: nat): nat
    requires 0 < i <= |input|
  {
    if i == 1 then PastFiles(files, input[0]) else
      var f, k := CountFrom(files, input, limit, i - 1), PastFiles(files, input[i - 1]);
      if Between(files, f, k) > limit then k else f
  }

  predicate StopAt(files: seq<File>, input: seq<Entry>, limit: nat, i: nat)
    requires i < |input|
  {
    i > 0 && Between(files, CountFrom(files, input, limit, i), PastFiles(files, input[i])) > limit
  }

  ghost function StopTest(files: seq<File>, input: seq<Entry>, limit: nat): Test {
    (i: nat) => i < |input| && StopAt(files, input, limit, i)
  }

  lemma PastGrows(files: seq<File>, d: Entry, e: Entry)
    requires Ascending(files) && Before(d, e)
    ensures PastFiles(files, d) <= PastFiles(files, e)
  {
    forall i | 0 <= i < PastFiles(files, d) ensures Before(Largest(files[i]), e) {
      assert Before(Largest(files[i]), d);
    }
  }

  lemma {:induction false} TotalSplit(files: seq<File>, k: nat)
    requires k <= |files|
    ensures TotalFileSize(files) == TotalFileSize(files[..k]) + TotalFileSize(files[k..])
  {
    if k > 0 {
      TotalSplit(files[1..], k - 1);
      assert files[1..][..k - 1] == files[..k][1..] && files[1..][k - 1..] == files[k..];
    }
  }

  lemma BetweenNone(files: seq<File>, a: nat)
    requires a <= |files|
    ensures Between(files, a, a) == 0
  {
    assert files[a..a] == [];
  }

  lemma BetweenNext(files: seq<File>, a: nat, b: nat)
    requires a <= b < |files|
    ensures Between(files, a, b + 1) == Between(files, a, b) + files[b].size
  {
    TotalSplit(files[a..b + 1], b - a);
    assert files[a..b + 1][..b - a] == files[a..b] && files[a..b + 1][b - a..] == [files[b]];
  }

  lemma BetweenLess(files: seq<File>, a: nat, b: nat, c: nat)
    requires a <= b <= c <= |files|
    ensures Between(files, b, c) <= Between(files, a, c)
  {
    TotalSplit(files[a..c], b - a);
    assert files[a..c][b - a..] == files[b..c];
  }

  lemma {:induction false} CountFromBelow(files: seq<File>, input: seq<Entry>, limit: nat, i: nat, j: nat)
    requires Ascending(files) && Sorted(input) && i < j < |input|
    requires NoStop(StopTest(files, input, limit), i, j - 1)
    ensures CountFrom(files, input, limit, j) <= PastFiles(files, input[i]) && PastFiles(files, input[i]) <=
        PastFiles(files, input[j])
    decreases j
  {
    PastGrows(files, input[i], input[j]);
    if j == i + 1 {
      CountFromBefore(files, input, limit, j);
    } else {
      CountFromBelow(files, input, limit, i, j - 1);
      assert !StopTest(files, input, limit)(j - 1);
    }
  }

  lemma {:induction false} CountFromBefore(files: seq<File>, input: seq<Entry>, limit: nat, j: nat)
    requires Ascending(files) && Sorted(input) && 0 < j <= |input|
    ensures CountFrom(files, input, limit, j) <= PastFiles(files, input[j - 1])
    decreases j
  {
    if j > 1 {
      CountFromBefore(files, input, limit, j - 1);
      PastGrows(files, input[j - 2], input[j - 1]);
    }
  }

  /** Between two entries with no call for a new file in between, not more than the limit is passed two levels down. */
  lemma FewPassed(files: seq<File>, input: seq<Entry>, limit: nat, i: nat, j: nat)
    requires Ascending(files) && Sorted(input) && i <= j < |input|
    requires NoStop(StopTest(files, input, limit), i, j)
    ensures Between(files, PastFiles(files, input[i]), PastFiles(files, input[j])) <= limit
  {
    if i == j {
      assert files[PastFiles(files, input[i])..PastFiles(files, input[i])] == [];
    } else {
      CountFromBelow(files, input, limit, i, j);
      assert !StopTest(files, input, limit)(j);
      BetweenLess(files, CountFrom(files, input, limit, j), PastFiles(files, input[i]), PastFiles(files, input[j]));
    }
  }

  // ----- the files that hold the entries at these positions

  ghost predicate Holds(es: seq<Entry>, input: seq<Entry>, ns: seq<nat>) {
    |es| == |ns| && forall a :: 0 <= a < |ns| ==> ns[a] < |input| && es[a] == input[ns[a]]
  }

  ghost predicate FileHolds(f: File, input: seq<Entry>, ns: seq<nat>, fileSize: seq<Entry> -> nat) {
    Holds(f.entries, input, ns) && f.size == fileSize(f.entries)
  }

  ghost predicate FilesHold(files: seq<File>, input: seq<Entry>, parts: seq<seq<nat>>, fileSize: seq<Entry> -> nat) {
    |files| == |parts| && forall k :: 0 <= k < |parts| ==> FileHolds(files[k], input, parts[k], fileSize)
  }

  lemma {:induction false} NoStopWithin(part: seq<nat>, stop: Test, full: Test, a: nat)
    requires InFile(part, stop, full) && a < |part|
    ensures part[0] <= part[a] && NoStop(stop, part[0], part[a])
    decreases a
  {
    if a > 0 {
      NoStopWithin(part, stop, full, a - 1);
      assert Together(stop, full, part[a - 1], part[a]);
    }
  }

  /** No output file passes more than the limit in files two levels down: those that end within its range. */
  lemma OverlapBounded(files: seq<File>, input: seq<Entry>, limit: nat, keep: Test, full: Test, k: nat)
    requires Ascending(files) && Sorted(input)
    requires var parts := PartsOf(|input|, StopTest(files, input, limit), keep, full).All();
             k < |parts| && parts[k] != [] && Last(parts[k]) < |input|
    ensures var part := PartsOf(|input|, StopTest(files, input, limit), keep, full).All()[k];
            part[0] < |input| &&
            Between(files, PastFiles(files, input[part[0]]), PastFiles(files, input[Last(part)])) <= limit
  {
    var stop := StopTest(files, input, limit);
    var part := PartsOf(|input|, stop, keep, full).All()[k];
    PartsCut(|input|, stop, keep, full);
    hide StopTest, PartsOf;
    NoStopWithin(part, stop, full, |part| - 1);
    FewPassed(files, input, limit, part[0], Last(part));
  }
}
