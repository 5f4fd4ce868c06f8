/** Boundary files, growing the input sets, and the two ways a compaction is picked. */
module PickInputs {
  import opened DbFormat
  import opened Options
  import opened Versions
  import opened Choosing
  import opened Lookup
  import opened Inputs

  predicate AtMost(a: Entry, b: Entry) { !Before(b, a) }

  ghost predicate IsLargest(files: seq<File>, key: Entry) {
    (exists f :: f in files && Largest(f) == key) && forall f :: f in files ==> AtMost(Largest(f), key)
  }

  method FindLargestKey(files: seq<File>) returns (key: Entry)
    requires files != []
    ensures IsLargest(files, key)
  {
    key := Largest(files[0]);
    for i := 1 to |files|
      invariant exists f :: f in files && Largest(f) == key
      invariant forall f :: f in files[..i] ==> AtMost(Largest(f), key)
    {
      if Before(key, Largest(files[i])) { key := Largest(files[i]); }
    }
    assert files[..|files|] == files;
  }

  /** f begins with the user key that key ends with, on older entries. */
  predicate IsBoundary(f: File, key: Entry) {
    Before(key, Smallest(f)) && Lo(f) == key.user
  }

  method FindSmallestBoundaryFile(files: seq<File>, key: Entry) returns (r: Option<File>)
    ensures r.None? <==> forall f :: f in files ==> !IsBoundary(f, key)
    ensures r.Some? ==> r.value in files && IsBoundary(r.value, key)
    ensures r.Some? ==> forall f :: f in files && IsBoundary(f, key) ==> AtMost(Smallest(r.value), Smallest(f))
  {
    r := None;
    for i := 0 to |files|
      invariant r.None? ==> forall f :: f in files[..i] ==> !IsBoundary(f, key)
      invariant r.Some? ==> r.value in files[..i] && IsBoundary(r.value, key)
      invariant r.Some? ==> forall f :: f in files[..i] && IsBoundary(f, key) ==> AtMost(Smallest(r.value), Smallest(f))
    {
      var f := files[i];
      if Before(key, Smallest(f)) && Lo(f) == key.user {
        if r.None? || Before(Smallest(f), Smallest(r.value)) { r := Some(f); }
      }
    }
    assert files[..|files|] == files;
  }

  function BoundaryLeft(files: seq<File>, key: Entry): nat {
    if files == [] then 0 else (if Before(key, Smallest(files[0])) then 1 else 0) + BoundaryLeft(files[1..], key)
  }

  lemma {:induction false} BoundaryShrinks(files: seq<File>, key: Entry, key': Entry)
    requires Before(key, key')
    ensures BoundaryLeft(files, key') <= BoundaryLeft(files, key)
    ensures (exists f :: f in files && Before(key, Smallest(f)) && AtMost(Smallest(f), key'))
              ==> BoundaryLeft(files, key') < BoundaryLeft(files, key)
  {
    if files != [] {
      BoundaryShrinks(files[1..], key, key');
      assert files == [files[0]] + files[1..];
    }
  }

  /** No file of the level lies strictly between two files of S without being in S. */
  ghost predicate Contiguous(files: seq<File>, S: seq<File>) {
    forall f, g, h :: f in S && h in S && g in files && Before(Largest(f), Smallest(g)) && Before(Largest(g),
        Smallest(h)) ==> g in S
  }

  ghost predicate NoBoundaryLeft(files: seq<File>, S: seq<File>) {
    S != [] ==> exists key :: IsLargest(S, key) && forall f :: f in files ==> !IsBoundary(f, key)
  }

  lemma LastBound(f: File)
    ensures AtMost(Smallest(f), Largest(f)) && Lo(f) <= Hi(f)
  {
    InRange(f, Smallest(f));
  }

  lemma AddingBoundary(files: seq<File>, S: seq<File>, key: Entry, f: File)
    requires IsLargest(S, key) && f in files && IsBoundary(f, key)
    ensures IsLargest(S + [f], Largest(f)) && Before(key, Largest(f))
    ensures BoundaryLeft(files, Largest(f)) < BoundaryLeft(files, key)
  {
    LastBound(f);
    BoundaryShrinks(files, key, Largest(f));
    assert f in S + [f];
  }

  lemma BoundaryContiguous(files: seq<File>, S: seq<File>, key: Entry, f: File)
    requires Ascending(files) && Contiguous(files, S) && FileSet(S) <= FileSet(files)
    requires IsLargest(S, key) && f in files && IsBoundary(f, key)
    requires forall g :: g in files && IsBoundary(g, key) ==> AtMost(Smallest(f), Smallest(g))
    ensures Contiguous(files, S + [f])
  {
    var m :| m in S && Largest(m) == key;
    assert m in FileSet(S);
    LastBound(m);
    LastBound(f);
    forall d, g, h | d in S + [f] && h in S + [f] && g in files && Before(Largest(d), Smallest(g))
        && Before(Largest(g), Smallest(h))
      ensures g in S + [f]
    {
      LastBound(g);
      LastBound(h);
      if h == f && d in S {
        NothingBetween(files, key, f, g);
        SameOrBefore(files, g, m);
      }
    }
  }

  lemma NothingBetween(files: seq<File>, key: Entry, f: File, g: File)
    requires IsBoundary(f, key) && g in files && Before(Largest(g), Smallest(f))
    requires forall h :: h in files && IsBoundary(h, key) ==> AtMost(Smallest(f), Smallest(h))
    ensures !Before(key, Smallest(g))
  {
    LastBound(g);
    assert IsBoundary(g, key) ==> AtMost(Smallest(f), Smallest(g));
  }

  lemma SameOrBefore(files: seq<File>, g: File, m: File)
    requires Ascending(files) && g in files && m in files && !Before(Largest(m), Smallest(g))
    ensures g == m || Before(Largest(g), Smallest(m))
  {
    var i :| 0 <= i < |files| && files[i] == g;
    var k :| 0 <= k < |files| && files[k] == m;
  }

  /** Adding files that each meet a file already there leaves no gap. */
  lemma AddMeeting(A: set<File>, f: File, g: File)
    requires GapFree(A) && g in A && Overlaps(f, Lo(g), Hi(g))
    ensures GapFree(A + {f})
  {
    forall d, h, k | d in A + {f} && h in A + {f} && Lo(d) <= k <= Hi(h) ensures Covered(A + {f}, k) {
      if Lo(f) <= k <= Hi(f) {
      } else {
        var d' := if d == f then g else d;
        var h' := if h == f then g else h;
        assert Covered(A, k);
        var c :| c in A && Lo(c) <= k <= Hi(c);
        assert c in A + {f};
      }
    }
  }

  /** Files that all meet a covered range leave no gap. */
  lemma CoverGapFree(A: set<File>, lo: UserKey, hi: UserKey)
    requires forall f :: f in A ==> Overlaps(f, lo, hi)
    requires forall k :: lo <= k <= hi ==> Covered(A, k)
    ensures GapFree(A)
  {
    forall f, g, k | f in A && g in A && Lo(f) <= k <= Hi(g) ensures Covered(A, k) {
    }
  }

  lemma BoundaryMeets(r: seq<File>, key: Entry, f: File, others: set<File>)
    requires IsLargest(r, key) && IsBoundary(f, key) && GapFree(FileSet(r) + others)
    ensures GapFree(FileSet(r + [f]) + others)
  {
    var m :| m in r && Largest(m) == key;
    LastBound(m);
    LastBound(f);
    assert FileSet(r + [f]) + others == FileSet(r) + others + {f};
    AddMeeting(FileSet(r) + others, f, m);
  }

  ghost predicate BoundaryFree(files: seq<File>, ins: seq<File>) {
    forall key, f :: IsLargest(ins, key) && f in files ==> !IsBoundary(f, key)
  }

  /** The file with the smallest key among those that continue the user key of the largest of S. */
  ghost predicate NextBoundary(files: seq<File>, S: seq<File>, f: File) {
    exists key :: IsLargest(S, key) && f in files && IsBoundary(f, key)
      && forall g :: g in files && IsBoundary(g, key) ==> AtMost(Smallest(f), Smallest(g))
  }

  /** Boundary files one after the other, and nothing else. */
  ghost predicate AddsBoundaries(files: seq<File>, start: seq<File>, r: seq<File>) {
    start <= r && forall n :: |start| <= n < |r| ==> NextBoundary(files, r[..n], r[n])
  }

  lemma OneMoreBoundary(files: seq<File>, start: seq<File>, r: seq<File>, key: Entry, f: File)
    requires AddsBoundaries(files, start, r) && IsLargest(r, key) && f in files && IsBoundary(f, key)
    requires forall g :: g in files && IsBoundary(g, key) ==> AtMost(Smallest(f), Smallest(g))
    ensures AddsBoundaries(files, start, r + [f])
  {
    assert NextBoundary(files, r, f);
    hide NextBoundary;
    forall n | |start| <= n < |r| + 1 ensures NextBoundary(files, (r + [f])[..n], (r + [f])[n]) {
      assert (r + [f])[..n] == r[..n];
      assert n == |r| ==> r[..n] == r;
    }
  }

  lemma NoneAdded(files: seq<File>, start: seq<File>)
    ensures AddsBoundaries(files, start, start)
  {
  }

  /** Adds, one by one, the files whose smallest key continues the user key of the largest input. */
  method AddBoundaryInputs(files: seq<File>, inputs: seq<File>, ghost others: set<File>) returns (r: seq<File>)
    requires FileSet(inputs) <= FileSet(files)
    ensures AddsBoundaries(files, inputs, r) && FileSet(r) <= FileSet(files)
    ensures NoBoundaryLeft(files, r)
    ensures Ascending(files) && Contiguous(files, inputs) ==> Contiguous(files, r)
    ensures GapFree(FileSet(inputs) + others) ==> GapFree(FileSet(r) + others)
    ensures BoundaryFree(files, inputs) ==> r == inputs
  {
    hide Contiguous, GapFree, Ascending, AddsBoundaries;
    r := inputs;
    NoneAdded(files, inputs);
    if r == [] { return; }
    var key := FindLargestKey(r);
    while true
      invariant AddsBoundaries(files, inputs, r) && r != [] && FileSet(r) <= FileSet(files) && IsLargest(r, key)
      invariant Ascending(files) && Contiguous(files, inputs) ==> Contiguous(files, r)
      invariant GapFree(FileSet(inputs) + others) ==> GapFree(FileSet(r) + others)
      invariant BoundaryFree(files, inputs) ==> r == inputs
      decreases BoundaryLeft(files, key)
    {
      var next := FindSmallestBoundaryFile(files, key);
      if next.None? { break; }
      AddingBoundary(files, r, key, next.value);
      OneMoreBoundary(files, inputs, r, key, next.value);
      if Ascending(files) && Contiguous(files, r) { BoundaryContiguous(files, r, key, next.value); }
      if GapFree(FileSet(r) + others) { BoundaryMeets(r, key, next.value, others); }
      r := r + [next.value];
      key := Largest(next.value);
    }
  }

  // ----- ranges

  ghost predicate IsHull(files: seq<File>, lo: UserKey, hi: UserKey) {
    && (exists f :: f in files && Lo(f) == lo) && (exists f :: f in files && Hi(f) == hi)
    && forall f :: f in files ==> lo <= Lo(f) && Hi(f) <= hi
  }

  /** User keys of the smallest and the largest internal key of the files. */
  method GetRange(files: seq<File>) returns (lo: UserKey, hi: UserKey)
    requires files != []
    ensures IsHull(files, lo, hi)
  {
    var smallest, largest := Smallest(files[0]), Largest(files[0]);
    for i := 1 to |files|
      invariant exists f :: f in files && Smallest(f) == smallest
      invariant exists f :: f in files && Largest(f) == largest
      invariant forall f :: f in files[..i] ==> AtMost(smallest, Smallest(f)) && AtMost(Largest(f), largest)
    {
      if Before(Smallest(files[i]), smallest) { smallest := Smallest(files[i]); }
      if Before(largest, Largest(files[i])) { largest := Largest(files[i]); }
    }
    assert files[..|files|] == files;
    lo, hi := smallest.user, largest.user;
  }

  function TotalFileSize(files: seq<File>): nat {
    if files == [] then 0 else files[0].size + TotalFileSize(files[1..])
  }

  // ----- the first input set: what the level demands of it

  /** Level 0: all files meeting a closed range. Deeper: a contiguous stretch. */
  ghost predicate GoodStart(level: nat, cur: seq<File>, ins: seq<File>) {
    && ins != [] && FileSet(ins) <= FileSet(cur)
    && (level == 0 ==> exists b, e :: Closed(cur, b, e) && ins == Select(cur, b, e))
    && (level > 0 ==> Contiguous(cur, ins))
  }

  /** The first inputs and the boundary files they need. */
  ghost predicate IsBase(cur: seq<File>, start: seq<File>, base: seq<File>) {
    AddsBoundaries(cur, start, base) && NoBoundaryLeft(cur, base)
  }

  ghost predicate Good(level: nat, cur: seq<File>, ins: seq<File>) {
    GoodStart(level, cur, ins) && NoBoundaryLeft(cur, ins)
  }

  lemma ClosedHasNoBoundary(cur: seq<File>, ins: seq<File>, b: Bound, e: Bound)
    requires Closed(cur, b, e) && ins == Select(cur, b, e)
    ensures BoundaryFree(cur, ins)
  {
    forall key, f | IsLargest(ins, key) && f in cur ensures !IsBoundary(f, key) {
      var m :| m in ins && Largest(m) == key;
      LastBound(f);
      LastBound(m);
      if IsBoundary(f, key) {
        assert Inside(m, b, e);
        assert Meets(f, b, e);
        assert false;
      }
    }
  }

  /** Adding boundary files makes a good start good. */
  method WithBoundary(level: nat, cur: seq<File>, start: seq<File>, ghost others: set<File>) returns (r: seq<File>)
    requires GoodStart(level, cur, start) && (level > 0 ==> Ascending(cur))
    ensures Good(level, cur, r) && FileSet(start) <= FileSet(r) && IsBase(cur, start, r)
    ensures GapFree(FileSet(start) + others) ==> GapFree(FileSet(r) + others)
  {
    if level == 0 {
      ghost var b, e :| Closed(cur, b, e) && start == Select(cur, b, e);
      ClosedHasNoBoundary(cur, start, b, e);
    }
    r := AddBoundaryInputs(cur, start, others);
  }

  /** A file that stays and shares a user key with an input lies before it. */
  lemma StayerBefore(cur: seq<File>, ins: seq<File>, g: File, f: File)
    requires Ascending(cur) && Contiguous(cur, ins) && NoBoundaryLeft(cur, ins) && FileSet(ins) <= FileSet(cur)
    requires g in cur && g !in ins && f in ins && Lo(g) <= Hi(f)
    ensures Before(Largest(g), Smallest(f))
  {
    var key :| IsLargest(ins, key) && forall h :: h in cur ==> !IsBoundary(h, key);
    var m :| m in ins && Largest(m) == key;
    assert m in FileSet(ins) && f in FileSet(ins);
    LastBound(f);
    assert !IsBoundary(g, key);
    SameOrBefore(cur, g, m);
    if Before(Largest(f), Smallest(g)) {
      assert false;
    }
    SameOrBefore(cur, g, f);
  }

  /** Files left behind at the level hold newer entries of any key they share with the inputs. */
  lemma GoodStayersNewer(level: nat, cur: seq<File>, ins: seq<File>, g: File, f: File)
    requires Good(level, cur, ins) && (level > 0 ==> Ascending(cur))
    requires g in cur && g !in ins && f in ins
    ensures Newer(g, f)
  {
    assert f in FileSet(ins);
    if level == 0 {
      var b, e :| Closed(cur, b, e) && ins == Select(cur, b, e);
      DisjointUsers(g, f);
    } else {
      forall d, e | d in g.entries && e in f.entries && d.user == e.user ensures d.sn > e.sn {
        InRange(g, d);
        InRange(f, e);
        StayerBefore(cur, ins, g, f);
      }
    }
  }

  // ----- growing the inputs

  lemma {:induction false} SelectWider(files: seq<File>, b: Bound, e: Bound, b': Bound, e': Bound)
    requires Wider(b', e', b, e)
    ensures |Select(files, b, e)| <= |Select(files, b', e')|
    ensures |Select(files, b, e)| == |Select(files, b', e')| ==> Select(files, b, e) == Select(files, b', e')
  {
    if files != [] {
      SelectWider(files[..|files| - 1], b, e, b', e');
    }
  }

  lemma SelectContiguous(files: seq<File>, b: Bound, e: Bound)
    ensures Contiguous(files, Select(files, b, e))
  {
    forall f, g, h | f in Select(files, b, e) && h in Select(files, b, e) && g in files
      && Before(Largest(f), Smallest(g)) && Before(Largest(g), Smallest(h))
      ensures g in Select(files, b, e)
    {
      LastBound(g);
    }
  }

  /** The files of the upper level that meet the whole range of the compaction. */
  method ExpandLevel(level: nat, cur: seq<File>, in0: seq<File>, in1: seq<File>, ghost lo: UserKey, ghost hi: UserKey)
    returns (e0: seq<File>)
    requires Good(level, cur, in0) && (level > 0 ==> Ascending(cur))
    requires IsHull(in0, lo, hi) && forall f :: f in in1 ==> Overlaps(f, lo, hi)
    ensures Good(level, cur, e0) && FileSet(in0) <= FileSet(e0) && IsExpansion(level, cur, in0, in1, e0)
    ensures GapFree(FileSet(in0)) ==> GapFree(FileSet(e0) + FileSet(in1))
  {
    var allStart, allLimit := GetRange(in0 + in1);
    var sel, b, e := GetOverlappingInputs(level, cur, Some(allStart), Some(allLimit), FileSet(in1));
    SelectCovers(cur, in0, in1, allStart, allLimit, b, e);
    SelectContiguous(cur, b, e);
    if GapFree(FileSet(in0)) { GrownCover(cur, in0, in1, lo, hi, allStart, allLimit, sel, b, e); }
    e0 := WithBoundary(level, cur, sel, FileSet(in1));
  }

  lemma SelectCovers(cur: seq<File>, in0: seq<File>, in1: seq<File>, start: UserKey, limit: UserKey, b: Bound, e: Bound)
    requires in0 != [] && FileSet(in0) <= FileSet(cur)
    requires IsHull(in0 + in1, start, limit) && Wider(b, e, Some(start), Some(limit))
    ensures FileSet(in0) <= FileSet(Select(cur, b, e)) <= FileSet(cur) && Select(cur, b, e) != []
  {
    forall f | f in FileSet(in0) ensures f in Select(cur, b, e) {
      LastBound(f);
      assert f in in0 + in1;
      assert f in FileSet(cur);
    }
    assert in0[0] in FileSet(in0);
  }

  predicate MayGrow(in0: seq<File>, in1: seq<File>, expanded: seq<File>, maxFileSize: nat) {
    |expanded| > |in0| && TotalFileSize(in1) + TotalFileSize(expanded) < 25 * maxFileSize
  }

  /** What the upper inputs grow to: all files that meet the whole range of both levels, with their boundary files. */
  ghost predicate IsExpansion(level: nat, cur: seq<File>, in0: seq<File>, in1: seq<File>, e0: seq<File>) {
    exists start, limit, sel ::
      && IsHull(in0 + in1, start, limit) && IsBase(cur, sel, e0)
      && if level > 0 then sel == Select(cur, Some(start), Some(limit)) else IsClosure(cur, Some(start), Some(limit), sel)
  }

  /** Growing the upper inputs brings no further lower one in. */
  ghost predicate SameBelow(next: seq<File>, in1: seq<File>, e0: seq<File>) {
    exists lo, hi :: IsHull(e0, lo, hi) && |Select(next, Some(lo), Some(hi))| == |in1|
  }

  /** The inputs grow exactly when there is something to merge with, more of the upper level fits within the size limit,
    and the lower level stays the same. */
  ghost predicate Grown(level: nat, cur: seq<File>, next: seq<File>, in0: seq<File>, in1: seq<File>, maxFileSize: nat,
      r0: seq<File>) {
    if in1 == [] then r0 == in0
    else exists e0 :: IsExpansion(level, cur, in0, in1, e0) &&
           r0 == if MayGrow(in0, in1, e0, maxFileSize) && SameBelow(next, in1, e0) then e0 else in0
  }

  /** Grow the upper inputs if the lower ones stay the same and the total stays under the limit. */
  method Grow(level: nat, cur: seq<File>, next: seq<File>, in0: seq<File>, in1: seq<File>, maxFileSize: nat,
              ghost lo: UserKey, ghost hi: UserKey)
    returns (r0: seq<File>, ghost lo': UserKey, ghost hi': UserKey)
    requires Good(level, cur, in0) && (level > 0 ==> Ascending(cur))
    requires IsHull(in0, lo, hi) && in1 == Select(next, Some(lo), Some(hi))
    ensures Good(level, cur, r0) && FileSet(in0) <= FileSet(r0)
    ensures Grown(level, cur, next, in0, in1, maxFileSize, r0)
    ensures IsHull(r0, lo', hi') && in1 == Select(next, Some(lo'), Some(hi'))
    ensures GapFree(FileSet(in0)) && GapFree(FileSet(in0) + FileSet(in1)) ==> GapFree(FileSet(r0) + FileSet(in1))
  {
    hide Good, Select, GapFree, IsExpansion, Grown, SameBelow, MayGrow, LeastClosed, IsClosure, RangeCovered, FileSet;
    r0, lo', hi' := in0, lo, hi;
    if in1 == [] {
      NothingBelow(level, cur, next, in0, maxFileSize);
      return;
    }
    AllMeet(next, in1, lo, hi);
    var e0 := ExpandLevel(level, cur, in0, in1, lo, hi);
    if MayGrow(in0, in1, e0, maxFileSize) {
      GoodInputs(level, cur, e0);
      var newStart, newLimit := GetRange(e0);
      HullGrows(in0, e0, lo, hi, newStart, newLimit);
      var expanded1, b, e := GetOverlappingInputs(level + 1, next, Some(newStart), Some(newLimit), {});
      SameBelowIff(next, in1, e0, newStart, newLimit);
      if |expanded1| == |in1| {
        SelectWider(next, Some(lo), Some(hi), Some(newStart), Some(newLimit));
        r0, lo', hi' := e0, newStart, newLimit;
      }
    }
    IsGrown(level, cur, next, in0, in1, maxFileSize, e0, r0);
  }

  lemma NothingBelow(level: nat, cur: seq<File>, next: seq<File>, in0: seq<File>, maxFileSize: nat)
    ensures Grown(level, cur, next, in0, [], maxFileSize, in0)
  {
  }

  lemma AllMeet(next: seq<File>, in1: seq<File>, lo: UserKey, hi: UserKey)
    requires in1 == Select(next, Some(lo), Some(hi))
    ensures forall f :: f in in1 ==> Overlaps(f, lo, hi)
  {
  }

  lemma IsGrown(level: nat, cur: seq<File>, next: seq<File>, in0: seq<File>, in1: seq<File>, maxFileSize: nat,
      e0: seq<File>, r0: seq<File>)
    requires in1 != [] && IsExpansion(level, cur, in0, in1, e0)
    requires r0 == if MayGrow(in0, in1, e0, maxFileSize) && SameBelow(next, in1, e0) then e0 else in0
    ensures Grown(level, cur, next, in0, in1, maxFileSize, r0)
  {
  }

  lemma SameBelowIff(next: seq<File>, in1: seq<File>, e0: seq<File>, lo: UserKey, hi: UserKey)
    requires IsHull(e0, lo, hi)
    ensures SameBelow(next, in1, e0) <==> |Select(next, Some(lo), Some(hi))| == |in1|
  {
    hide Select;
    forall lo', hi' | IsHull(e0, lo', hi') ensures lo' == lo && hi' == hi { OneHull(e0, lo, hi, lo', hi'); }
  }

  lemma OneHull(files: seq<File>, lo: UserKey, hi: UserKey, lo': UserKey, hi': UserKey)
    requires IsHull(files, lo, hi) && IsHull(files, lo', hi')
    ensures lo == lo' && hi == hi'
  {
    HullGrows(files, files, lo, hi, lo', hi');
    HullGrows(files, files, lo', hi', lo, hi);
  }

  lemma HullGrows(a: seq<File>, c: seq<File>, lo: UserKey, hi: UserKey, lo': UserKey, hi': UserKey)
    requires IsHull(a, lo, hi) && IsHull(c, lo', hi') && FileSet(a) <= FileSet(c)
    ensures lo' <= lo && hi <= hi'
  {
    var f :| f in a && Lo(f) == lo;
    var g :| g in a && Hi(g) == hi;
    assert f in FileSet(a) && g in FileSet(a);
  }

  /** Inputs of both levels together leave no gap. */
  lemma BothGapFree(in0: seq<File>, in1: set<File>, lo: UserKey, hi: UserKey)
    requires IsHull(in0, lo, hi) && GapFree(FileSet(in0)) && forall f :: f in in1 ==> Overlaps(f, lo, hi)
    ensures GapFree(FileSet(in0) + in1)
  {
    var a :| a in in0 && Lo(a) == lo;
    var z :| z in in0 && Hi(z) == hi;
    assert a in FileSet(in0) && z in FileSet(in0);
    forall k | lo <= k <= hi ensures Covered(FileSet(in0) + in1, k) {
      assert Covered(FileSet(in0), k);
      var f :| f in FileSet(in0) && Lo(f) <= k <= Hi(f);
      assert f in FileSet(in0) + in1;
    }
    forall f | f in in0 ensures Overlaps(f, lo, hi) { LastBound(f); }
    CoverGapFree(FileSet(in0) + in1, lo, hi);
  }

  lemma GrownCover(cur: seq<File>, in0: seq<File>, in1: seq<File>, lo: UserKey, hi: UserKey,
                   start: UserKey, limit: UserKey, sel: seq<File>, b: Bound, e: Bound)
    requires FileSet(in0) <= FileSet(cur) && IsHull(in0, lo, hi) && GapFree(FileSet(in0))
    requires forall f :: f in in1 ==> Overlaps(f, lo, hi)
    requires IsHull(in0 + in1, start, limit) && Wider(b, e, Some(start), Some(limit)) && b.Some? && e.Some?
    requires sel == Select(cur, b, e)
    requires RangeCovered(cur, FileSet(in1), Some(start), Some(limit)) ==> RangeCovered(cur, FileSet(in1), b, e)
    ensures GapFree(FileSet(sel) + FileSet(in1))
  {
    hide GapFree, Select, Covered;
    BothGapFree(in0, FileSet(in1), lo, hi);
    var A := FileSet(in0) + FileSet(in1);
    var f0 :| f0 in in0 + in1 && Lo(f0) == start;
    var g0 :| g0 in in0 + in1 && Hi(g0) == limit;
    assert f0 in A && g0 in A;
    forall k | start <= k <= limit ensures Covered(FileSet(cur) + FileSet(in1), k) {
      Spanned(A, f0, g0, k);
      CoveredMore(A, FileSet(cur) + FileSet(in1), k);
    }
    SelectionCovers(cur, in0, in1, start, limit, sel, b, e);
  }

  lemma Spanned(A: set<File>, f: File, g: File, k: UserKey)
    requires GapFree(A) && f in A && g in A && Lo(f) <= k <= Hi(g)
    ensures Covered(A, k)
  {
  }

  lemma CoveredMore(A: set<File>, B: set<File>, k: UserKey)
    requires Covered(A, k) && A <= B
    ensures Covered(B, k)
  {
    var f :| f in A && Lo(f) <= k <= Hi(f);
    assert f in B;
  }

  lemma SelectionCovers(cur: seq<File>, in0: seq<File>, in1: seq<File>,
                        start: UserKey, limit: UserKey, sel: seq<File>, b: Bound, e: Bound)
    requires IsHull(in0 + in1, start, limit) && Wider(b, e, Some(start), Some(limit)) && b.Some? && e.Some?
    requires sel == Select(cur, b, e) && RangeCovered(cur, FileSet(in1), b, e)
    ensures GapFree(FileSet(sel) + FileSet(in1))
  {
    var S := FileSet(sel) + FileSet(in1);
    forall k | b.value <= k <= e.value ensures Covered(S, k) {
      assert Covered(FileSet(cur) + FileSet(in1), k);
      var f :| f in FileSet(cur) + FileSet(in1) && Lo(f) <= k <= Hi(f);
      assert f in S;
    }
    forall f | f in S ensures Overlaps(f, b.value, e.value) {
      if f in in1 { assert f in in0 + in1; LastBound(f); }
    }
    CoverGapFree(S, b.value, e.value);
  }

  /** The lower inputs are the files that meet the user-key range of the upper ones. */
  ghost predicate InputsAre(cur: seq<File>, next: seq<File>, in0: seq<File>, in1: seq<File>, lo: UserKey, hi: UserKey) {
    in0 != [] && FileSet(in0) <= FileSet(cur) && IsHull(in0, lo, hi) && in1 == Select(next, Some(lo), Some(hi))
  }

  /** The inputs as they follow from the first ones of the upper level. */
  ghost predicate InputsFrom(level: nat, cur: seq<File>, next: seq<File>, start: seq<File>, maxFileSize: nat,
      in0: seq<File>, in1: seq<File>) {
    exists base :: IsBase(cur, start, base) && Grown(level, cur, next, base, in1, maxFileSize, in0)
  }

  /** The whole choice of inputs, given the first ones of the upper level. */
  method SetupOtherInputs(level: nat, lists: seq<seq<File>>, ghost v: Version, start: seq<File>, maxFileSize: nat)
    returns (in0: seq<File>, in1: seq<File>, ghost lo: UserKey, ghost hi: UserKey)
    requires ListsOf(lists, v) && level + 1 < NUM_LEVELS && GoodStart(level, lists[level], start)
    ensures Chosen(v, level, FileSet(in0), FileSet(in1), lo, hi)
    ensures InputsAre(lists[level], lists[level + 1], in0, in1, lo, hi)
    ensures GapFree(FileSet(start)) ==> GapFree(FileSet(in0) + FileSet(in1))
    ensures FileSet(start) <= FileSet(in0)
    ensures InputsFrom(level, lists[level], lists[level + 1], start, maxFileSize, in0, in1)
  {
    hide Select, Closed, Contiguous, NoBoundaryLeft, LeastClosed, IsClosure, Good;
    var cur, next := lists[level], lists[level + 1];
    in0 := WithBoundary(level, cur, start, {});
    var smallest, largest := GetRange(in0);
    ghost var b1, e1;
    in1, b1, e1 := GetOverlappingInputs(level + 1, next, Some(smallest), Some(largest), {});
    assert FileSet(start) + {} == FileSet(start) && FileSet(in0) + {} == FileSet(in0);
    if GapFree(FileSet(in0)) { BothGapFree(in0, FileSet(in1), smallest, largest); }
    ghost var base := in0;
    assert IsBase(cur, start, base);
    in0, lo, hi := Grow(level, cur, next, in0, in1, maxFileSize, smallest, largest);
    GoodIsChosen(v, level, cur, next, in0, in1, lo, hi);
    GoodInputs(level, cur, in0);
  }

  lemma GoodInputs(level: nat, cur: seq<File>, ins: seq<File>)
    requires Good(level, cur, ins)
    ensures ins != [] && FileSet(ins) <= FileSet(cur)
  {
  }

  lemma GoodIsChosen(v: Version, level: nat, cur: seq<File>, next: seq<File>, in0: seq<File>, in1: seq<File>,
      lo: UserKey, hi: UserKey)
    requires level + 1 < NUM_LEVELS && v[level] == FileSet(cur) && v[level + 1] == FileSet(next)
        && (level > 0 ==> Ascending(cur))
    requires Good(level, cur, in0) && IsHull(in0, lo, hi) && in1 == Select(next, Some(lo), Some(hi))
    ensures Chosen(v, level, FileSet(in0), FileSet(in1), lo, hi)
  {
    forall g, f | g in v[level] && g !in FileSet(in0) && f in FileSet(in0) ensures Newer(g, f) {
      GoodStayersNewer(level, cur, in0, g, f);
    }
    assert in0[0] in FileSet(in0);
  }
}
