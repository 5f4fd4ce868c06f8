/** The overlap search that picks the inputs of a compaction, with its restarts at level 0. */
module Inputs {
  import opened DbFormat
  import opened Options
  import opened Versions
  import opened Choosing
  import opened Lookup

  predicate Inside(f: File, b: Bound, e: Bound) {
    !(b.Some? && Lo(f) < b.value) && !(e.Some? && Hi(f) > e.value)
  }

  function Select(files: seq<File>, b: Bound, e: Bound): (r: seq<File>)
    ensures forall f :: f in r <==> f in files && Meets(f, b, e)
  {
    if files == [] then []
    else
      var n := |files| - 1;
      assert files == files[..n] + [files[n]];
      Select(files[..n], b, e) + if Meets(files[n], b, e) then [files[n]] else []
  }

  /** Every file that meets the range lies inside it. */
  ghost predicate Closed(files: seq<File>, b: Bound, e: Bound) {
    forall f :: f in files && Meets(f, b, e) ==> Inside(f, b, e)
  }

  /** The range (l, h) contains the range (b, e). */
  predicate Wider(l: Bound, h: Bound, b: Bound, e: Bound) {
    && (l.Some? ==> b.Some? && l.value <= b.value)
    && (h.Some? ==> e.Some? && e.value <= h.value)
  }

  /** Every closed range around [begin, end] contains (b, e). */
  ghost predicate InEvery(files: seq<File>, begin: Bound, end: Bound, b: Bound, e: Bound) {
    forall l, h :: Closed(files, l, h) && Wider(l, h, begin, end) ==> Wider(l, h, b, e)
  }

  ghost predicate LeastClosed(files: seq<File>, begin: Bound, end: Bound, b: Bound, e: Bound) {
    Closed(files, b, e) && Wider(b, e, begin, end) && InEvery(files, begin, end, b, e)
  }

  /** The files that meet the least closed range around [begin, end]. */
  ghost predicate IsClosure(files: seq<File>, begin: Bound, end: Bound, inputs: seq<File>) {
    exists b, e :: LeastClosed(files, begin, end, b, e) && inputs == Select(files, b, e)
  }

  ghost function FileSet(files: seq<File>): set<File> { set f | f in files }

  /** Files that start below b, and files that end above e: what restarts may still add. */
  function Below(files: seq<File>, b: UserKey): nat {
    if files == [] then 0 else (if Lo(files[0]) < b then 1 else 0) + Below(files[1..], b)
  }

  function Above(files: seq<File>, e: UserKey): nat {
    if files == [] then 0 else (if Hi(files[0]) > e then 1 else 0) + Above(files[1..], e)
  }

  lemma {:induction false} BelowShrinks(files: seq<File>, b: UserKey, b': UserKey)
    requires b' <= b
    ensures Below(files, b') <= Below(files, b)
    ensures (exists f :: f in files && b' <= Lo(f) < b) ==> Below(files, b') < Below(files, b)
  {
    if files != [] {
      BelowShrinks(files[1..], b, b');
      assert files == [files[0]] + files[1..];
    }
  }

  lemma {:induction false} AboveShrinks(files: seq<File>, e: UserKey, e': UserKey)
    requires e <= e'
    ensures Above(files, e') <= Above(files, e)
    ensures (exists f :: f in files && e < Hi(f) <= e') ==> Above(files, e') < Above(files, e)
  {
    if files != [] {
      AboveShrinks(files[1..], e, e');
      assert files == [files[0]] + files[1..];
    }
  }

  function Outside(files: seq<File>, b: Bound, e: Bound): nat {
    (if b.Some? then Below(files, b.value) else 0) + (if e.Some? then Above(files, e.value) else 0)
  }

  /** Every key of the range is in some file of the level or of the set others. */
  ghost predicate RangeCovered(files: seq<File>, others: set<File>, b: Bound, e: Bound) {
    b.Some? && e.Some? && forall k :: b.value <= k <= e.value ==> Covered(FileSet(files) + others, k)
  }

  /** Growing the lower end to an overlapping file's start: progress, leastness and cover. */
  lemma ExtendsLow(files: seq<File>, others: set<File>, f: File, b: Bound, e: Bound)
    requires f in files && Meets(f, b, e) && b.Some? && Lo(f) < b.value
    ensures Outside(files, Some(Lo(f)), e) < Outside(files, b, e)
    ensures forall begin, end :: InEvery(files, begin, end, b, e) ==> InEvery(files, begin, end, Some(Lo(f)), e)
    ensures RangeCovered(files, others, b, e) ==> RangeCovered(files, others, Some(Lo(f)), e)
  {
    BelowShrinks(files, b.value, Lo(f));
    forall l, h | Closed(files, l, h) && Wider(l, h, b, e) ensures Wider(l, h, Some(Lo(f)), e) {
      assert Meets(f, l, h);
    }
    if RangeCovered(files, others, b, e) {
      forall k | Lo(f) <= k <= e.value ensures Covered(FileSet(files) + others, k) {
        assert k < b.value ==> f in FileSet(files) && Lo(f) <= k <= Hi(f);
      }
    }
  }

  lemma ExtendsHigh(files: seq<File>, others: set<File>, f: File, b: Bound, e: Bound)
    requires f in files && Meets(f, b, e) && e.Some? && Hi(f) > e.value
    ensures Outside(files, b, Some(Hi(f))) < Outside(files, b, e)
    ensures forall begin, end :: InEvery(files, begin, end, b, e) ==> InEvery(files, begin, end, b, Some(Hi(f)))
    ensures RangeCovered(files, others, b, e) ==> RangeCovered(files, others, b, Some(Hi(f)))
  {
    AboveShrinks(files, e.value, Hi(f));
    forall l, h | Closed(files, l, h) && Wider(l, h, b, e) ensures Wider(l, h, b, Some(Hi(f))) {
      assert Meets(f, l, h);
    }
    if RangeCovered(files, others, b, e) {
      forall k | b.value <= k <= Hi(f) ensures Covered(FileSet(files) + others, k) {
        assert k > e.value ==> f in FileSet(files) && Lo(f) <= k <= Hi(f);
      }
    }
  }

  /** All files of the level that meet [begin, end]; at level 0 the range grows to the least one closed under overlap.
    */
  method GetOverlappingInputs(level: nat, files: seq<File>, begin: Bound, end: Bound, ghost others: set<File>)
    returns (inputs: seq<File>, ghost b: Bound, ghost e: Bound)
    ensures if level > 0 then inputs == Select(files, begin, end) else IsClosure(files, begin, end, inputs)
    ensures inputs == Select(files, b, e)
    ensures level > 0 ==> b == begin && e == end
    ensures level == 0 ==> LeastClosed(files, begin, end, b, e)
    ensures (b.Some? <==> begin.Some?) && (e.Some? <==> end.Some?) && Wider(b, e, begin, end)
    ensures RangeCovered(files, others, begin, end) ==> RangeCovered(files, others, b, e)
  {
    assert InEvery(files, begin, end, begin, end);
    hide IsClosure, LeastClosed, InEvery, RangeCovered, Outside, Lo, Hi;
    inputs := [];
    var userBegin, userEnd := begin, end;
    var i := 0;
    while i < |files|
      invariant i <= |files| && inputs == Select(files[..i], userBegin, userEnd)
      invariant (userBegin.Some? <==> begin.Some?) && (userEnd.Some? <==> end.Some?)
          && Wider(userBegin, userEnd, begin, end)
      invariant level > 0 ==> userBegin == begin && userEnd == end
      invariant level == 0 ==> forall f :: f in inputs ==> Inside(f, userBegin, userEnd)
      invariant level == 0 ==> InEvery(files, begin, end, userBegin, userEnd)
      invariant RangeCovered(files, others, begin, end) ==> RangeCovered(files, others, userBegin, userEnd)
      decreases Outside(files, userBegin, userEnd), |files| - i
    {
      var f := files[i];
      assert files[..i + 1][..i] == files[..i];
      i := i + 1;
      if userBegin.Some? && Hi(f) < userBegin.value {
      } else if userEnd.Some? && Lo(f) > userEnd.value {
      } else {
        inputs := inputs + [f];
        if level == 0 {
          if userBegin.Some? && Lo(f) < userBegin.value {
            ExtendsLow(files, others, f, userBegin, userEnd);
            userBegin := Some(Lo(f));
            inputs := [];
            i := 0;
          } else if userEnd.Some? && Hi(f) > userEnd.value {
            ExtendsHigh(files, others, f, userBegin, userEnd);
            userEnd := Some(Hi(f));
            inputs := [];
            i := 0;
          }
        }
      }
    }
    assert files[..i] == files;
    b, e := userBegin, userEnd;
    if level == 0 { ClosureFound(files, begin, end, b, e, inputs); }
  }

  lemma ClosureFound(files: seq<File>, begin: Bound, end: Bound, b: Bound, e: Bound, inputs: seq<File>)
    requires inputs == Select(files, b, e) && (forall f :: f in inputs ==> Inside(f, b, e))
    requires Wider(b, e, begin, end) && InEvery(files, begin, end, b, e)
    ensures LeastClosed(files, begin, end, b, e) && IsClosure(files, begin, end, inputs)
  {
  }
}
