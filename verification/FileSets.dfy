/** Lists of files in the order of the version builder, its sets, and how the two are merged. */
module FileSets {
  import opened DbFormat
  import opened Versions

  ghost function Set(s: seq<File>): set<File> { set f | f in s }

  // ----- the order by smallest key, then number

  predicate Less(f: File, g: File) {
    Before(Smallest(f), Smallest(g)) || (!Before(Smallest(g), Smallest(f)) && f.number < g.number)
  }

  /** Equal in that order, whatever else differs. */
  predicate Twin(f: File, g: File) { !Less(f, g) && !Less(g, f) }

  lemma Chain(f: File, g: File, h: File)
    ensures !Less(g, f) && Less(g, h) ==> Less(f, h)
    ensures Less(f, g) && !Less(h, g) ==> Less(f, h)
    ensures !Less(g, f) && !Less(h, g) ==> !Less(h, f)
    ensures Twin(f, g) ==> f.number == g.number
    ensures Twin(f, g) && Twin(g, h) ==> Twin(f, h)
  {
  }

  predicate InOrder(s: seq<File>) { forall i, j :: 0 <= i < j < |s| ==> Less(s[i], s[j]) }

  /** In order, twins allowed. */
  predicate Ordered(s: seq<File>) { forall i, j :: 0 <= i < j < |s| ==> !Less(s[j], s[i]) }

  lemma Ordering(s: seq<File>)
    requires InOrder(s)
    ensures Ordered(s)
  {
  }

  // ----- insertion and merging

  /** std::upper_bound: the first position whose file is after f. */
  function UpperBound(s: seq<File>, from: nat, f: File): (k: nat)
    requires from <= |s|
    ensures from <= k <= |s|
    ensures forall i :: from <= i < k ==> !Less(f, s[i])
    ensures k < |s| ==> Less(f, s[k])
    decreases |s| - from
  {
    if from == |s| || Less(f, s[from]) then from else UpperBound(s, from + 1, f)
  }

  /** Insertion into a std::set: nothing happens if a twin is there. */
  function SetInsert(s: seq<File>, f: File): seq<File> {
    var k := UpperBound(s, 0, f);
    if k > 0 && !Less(s[k - 1], f) then s else s[..k] + [f] + s[k..]
  }

  /** Insertion after everything that is not greater. */
  function InsertAfter(s: seq<File>, f: File): seq<File> {
    var k := UpperBound(s, 0, f);
    s[..k] + [f] + s[k..]
  }

  function Merged(base: seq<File>, added: seq<File>): seq<File> {
    if added == [] then base else InsertAfter(Merged(base, added[..|added| - 1]), added[|added| - 1])
  }

  function MaybeAdded(v: seq<File>, f: File, deleted: set<nat>): seq<File> {
    if f.number in deleted then v else v + [f]
  }

  function Undeleted(s: seq<File>, deleted: set<nat>): seq<File> {
    if s == [] then [] else MaybeAdded(Undeleted(s[..|s| - 1], deleted), s[|s| - 1], deleted)
  }

  /** Base and new files merged, the new ones after their twins, without the deleted numbers. */
  function Saved(base: seq<File>, deleted: set<nat>,
      added: seq<File>): seq<File> { Undeleted(Merged(base, added), deleted) }

  // ----- lists in order, told by their twins

  ghost function Twins(s: seq<File>, c: File): seq<File> {
    if s == [] then [] else Twins(s[..|s| - 1], c) + if Twin(s[|s| - 1], c) then [s[|s| - 1]] else []
  }

  lemma {:induction false} TwinsJoin(a: seq<File>, b: seq<File>, c: File)
    ensures Twins(a + b, c) == Twins(a, c) + Twins(b, c)
    decreases |b|
  {
    if b == [] {
      assert a + b == a;
    } else {
      var n := |b| - 1;
      TwinsJoin(a, b[..n], c);
      assert (a + b)[..|a| + n] == a + b[..n];
    }
  }

  lemma {:induction false} TwinsHas(s: seq<File>, c: File, x: File)
    ensures x in Twins(s, c) <==> x in s && Twin(x, c)
    decreases |s|
  {
    if s != [] {
      var n := |s| - 1;
      TwinsHas(s[..n], c, x);
      assert s == s[..n] + [s[n]];
    }
  }

  lemma NoTwins(s: seq<File>, c: File)
    requires forall x :: x in s ==> !Twin(x, c)
    ensures Twins(s, c) == []
  {
    var t := Twins(s, c);
    if t != [] { TwinsHas(s, c, t[0]); }
  }

  lemma TwinsFirst(s: seq<File>, c: File)
    requires s != []
    ensures Twins(s, c) == (if Twin(s[0], c) then [s[0]] else []) + Twins(s[1..], c)
  {
    assert s == [s[0]] + s[1..];
    TwinsJoin([s[0]], s[1..], c);
    assert [s[0]][..0] == [];
  }

  lemma OwnTwin(s: seq<File>, f: File)
    requires f in s
    ensures f in Twins(s, f) && Twins(s, f) != []
  {
    TwinsHas(s, f, f);
  }

  lemma TwinIn(s: seq<File>, f: File, g: File)
    requires g in s && Twin(f, g)
    ensures Twins(s, f) != []
  {
    TwinsHas(s, f, g);
  }

  lemma TwinIs(s: seq<File>, c: File, f: File)
    requires f in Twins(s, c)
    ensures f in s && Twin(f, c) && f.number == c.number
  {
    TwinsHas(s, c, f);
    Chain(f, c, c);
  }

  lemma TwinOfBoth(f: File, g: File, c: File)
    requires Twin(f, c) && Twin(g, c)
    ensures Twin(f, g)
  {
    Chain(f, c, g);
  }

  lemma TwinInOther(a: seq<File>, b: seq<File>)
    requires a != [] && forall c :: Twins(a, c) == Twins(b, c)
    ensures a[0] in b
  {
    TwinsHas(a, a[0], a[0]);
    TwinsHas(b, a[0], a[0]);
    assert Twins(a, a[0]) == Twins(b, a[0]);
  }

  lemma NotAfterFirst(s: seq<File>, x: File)
    requires Ordered(s) && x in s
    ensures !Less(x, s[0])
  {
    var i :| 0 <= i < |s| && s[i] == x;
    if i > 0 { assert !Less(s[i], s[0]); }
  }

  lemma FirstTwins(a: seq<File>, b: seq<File>)
    requires Ordered(a) && Ordered(b) && a != [] && forall c :: Twins(a, c) == Twins(b, c)
    ensures b != [] && a[0] == b[0]
  {
    TwinInOther(a, b);
    TwinInOther(b, a);
    var f, g := a[0], b[0];
    assert Twins(a, f) == Twins(b, f);
    NotAfterFirst(a, g);
    NotAfterFirst(b, f);
    TwinsFirst(a, f);
    TwinsFirst(b, f);
    hide Twins, Less;
    assert Twins(a, f)[0] == f && Twins(b, f)[0] == g;
  }

  /** Two lists in order with the same twins of every file are the same list. */
  lemma {:induction false} SameTwins(a: seq<File>, b: seq<File>)
    requires Ordered(a) && Ordered(b) && forall c :: Twins(a, c) == Twins(b, c)
    ensures a == b
    decreases |a|
  {
    if b != [] { TwinInOther(b, a); }
    if a != [] {
      FirstTwins(a, b);
      forall c ensures Twins(a[1..], c) == Twins(b[1..], c) {
        TwinsFirst(a, c);
        TwinsFirst(b, c);
        var first := if Twin(a[0], c) then [a[0]] else [];
        assert Twins(a[1..], c) == Twins(a, c)[|first|..] && Twins(b[1..], c) == Twins(b, c)[|first|..];
      }
      SameTwins(a[1..], b[1..]);
    }
  }

  lemma {:induction false} OneTwin(s: seq<File>, c: File)
    requires InOrder(s)
    ensures |Twins(s, c)| <= 1
    decreases |s|
  {
    if s != [] {
      var n := |s| - 1;
      OneTwin(s[..n], c);
      if Twin(s[n], c) {
        forall x | x in s[..n] ensures !Twin(x, c) {
          Chain(x, c, s[n]);
        }
        NoTwins(s[..n], c);
      }
    }
  }

  lemma SoleTwin(s: seq<File>, c: File, f: File)
    requires InOrder(s) && f in s && Twin(f, c)
    ensures Twins(s, c) == [f]
  {
    OneTwin(s, c);
    TwinsHas(s, c, f);
  }

  lemma TwoTwins(s: seq<File>, i: nat, j: nat)
    requires i < j < |s| && Twin(s[i], s[j])
    ensures |Twins(s, s[i])| > 1
  {
    var a, b, c := s[..i + 1], s[i + 1..], s[i];
    assert s == a + b && a[i] == s[i] && b[j - i - 1] == s[j];
    TwinsJoin(a, b, c);
    TwinsHas(a, c, s[i]);
    TwinsHas(b, c, s[j]);
  }

  /** The order is strict exactly when no file has two twins. */
  lemma StrictlyInOrder(s: seq<File>)
    requires Ordered(s)
    ensures InOrder(s) <==> forall c :: |Twins(s, c)| <= 1
  {
    if InOrder(s) {
      forall c ensures |Twins(s, c)| <= 1 { OneTwin(s, c); }
    } else {
      var i, j :| 0 <= i < j < |s| && !Less(s[i], s[j]);
      TwoTwins(s, i, j);
    }
  }

  // ----- the operations, told by twins

  lemma BoundSplits(s: seq<File>, f: File)
    requires Ordered(s)
    ensures var k := UpperBound(s, 0, f); (forall x :: x in s[..k] ==> !Less(f, x)) && forall x :: x in s[k..] ==>
        Less(f, x)
  {
    var k := UpperBound(s, 0, f);
    forall x | x in s[k..] ensures Less(f, x) {
      var i :| k <= i < |s| && s[i] == x;
      if i > k { Chain(f, s[k], x); }
    }
  }

  lemma OrderedJoin(a: seq<File>, b: seq<File>, f: File)
    requires Ordered(a + b) && (forall x :: x in a ==> !Less(f, x)) && forall x :: x in b ==> Less(f, x)
    ensures Ordered(a + [f] + b)
  {
    var r := a + [f] + b;
    forall i, j | 0 <= i < j < |r| ensures !Less(r[j], r[i]) {
      if i < |a| && j == |a| {
        assert r[i] in a;
      } else if i == |a| {
        assert r[j] in b;
      } else {
        assert r[i] == (a + b)[if i < |a| then i else i - 1] && r[j] == (a + b)[if j < |a| then j else j - 1];
      }
    }
  }

  lemma TwinsBefore(s: seq<File>, f: File, c: File)
    requires Twin(f, c) && forall x :: x in s ==> Less(f, x)
    ensures Twins(s, c) == []
  {
    forall x | x in s ensures !Twin(x, c) { Chain(f, c, x); }
    NoTwins(s, c);
  }

  lemma TwinsBetween(a: seq<File>, f: File, b: seq<File>, c: File)
    ensures Twins(a + [f] + b, c) == Twins(a, c) + (if Twin(f, c) then [f] else []) + Twins(b, c)
  {
    TwinsJoin(a + [f], b, c);
    TwinsJoin(a, [f], c);
    assert [f][..0] == [];
  }

  lemma TwinsInsertAfter(s: seq<File>, f: File, c: File)
    requires Ordered(s)
    ensures Ordered(InsertAfter(s, f))
    ensures Twins(InsertAfter(s, f), c) == Twins(s, c) + if Twin(f, c) then [f] else []
  {
    var k := UpperBound(s, 0, f);
    BoundSplits(s, f);
    assert s == s[..k] + s[k..];
    OrderedJoin(s[..k], s[k..], f);
    if Twin(f, c) { TwinsBefore(s[k..], f, c); }
    hide Ordered, Less, UpperBound;
    TwinsBetween(s[..k], f, s[k..], c);
    TwinsJoin(s[..k], s[k..], c);
    assert Twins(s[..k], c) + [] == Twins(s[..k], c);
  }

  lemma {:induction false} TwinsMerged(base: seq<File>, added: seq<File>, c: File)
    requires Ordered(base)
    ensures Ordered(Merged(base, added)) && Twins(Merged(base, added), c) == Twins(base, c) + Twins(added, c)
    decreases |added|
  {
    if added != [] {
      var n := |added| - 1;
      TwinsMerged(base, added[..n], c);
      TwinsInsertAfter(Merged(base, added[..n]), added[n], c);
    }
  }

  lemma {:induction false} UndeletedMembers(s: seq<File>, d: set<nat>)
    ensures forall x :: x in Undeleted(s, d) <==> x in s && x.number !in d
    decreases |s|
  {
    if s != [] {
      var n := |s| - 1;
      UndeletedMembers(s[..n], d);
      assert s == s[..n] + [s[n]];
    }
  }

  lemma {:induction false} UndeletedOrdered(s: seq<File>, d: set<nat>)
    requires Ordered(s)
    ensures Ordered(Undeleted(s, d))
    decreases |s|
  {
    if s != [] {
      var n := |s| - 1;
      UndeletedOrdered(s[..n], d);
      UndeletedMembers(s[..n], d);
      var u := Undeleted(s[..n], d);
      forall i | 0 <= i < |u| ensures !Less(s[n], u[i]) { assert u[i] in u && u[i] in s[..n]; }
    }
  }

  lemma {:induction false} TwinsUndeleted(s: seq<File>, d: set<nat>, c: File)
    ensures Twins(Undeleted(s, d), c) == if c.number in d then [] else Twins(s, c)
    decreases |s|
  {
    if s != [] {
      var n := |s| - 1;
      TwinsUndeleted(s[..n], d, c);
      Chain(s[n], c, c);
      hide Less, Twin;
      assert (Undeleted(s[..n], d) + [s[n]])[..|Undeleted(s[..n], d)|] == Undeleted(s[..n], d);
    }
  }

  lemma TwinsSaved(base: seq<File>, d: set<nat>, added: seq<File>, c: File)
    requires Ordered(base)
    ensures Ordered(Saved(base, d, added))
    ensures Twins(Saved(base, d, added), c) == if c.number in d then [] else Twins(base, c) + Twins(added, c)
  {
    TwinsMerged(base, added, c);
    TwinsUndeleted(Merged(base, added), d, c);
    UndeletedOrdered(Merged(base, added), d);
  }

  lemma NoneLevel(s: seq<File>, f: File, k: nat, x: File)
    requires InOrder(s) && k == UpperBound(s, 0, f) && (k > 0 ==> Less(s[k - 1], f)) && x in s
    ensures !Twin(f, x)
  {
    BoundSplits(s, f);
    var i :| 0 <= i < |s| && s[i] == x;
    if i < k - 1 {
      Chain(x, s[k - 1], f);
    } else if i >= k {
      assert x in s[k..];
    }
  }

  lemma StrictInsert(s: seq<File>, f: File, k: nat)
    requires InOrder(s) && k == UpperBound(s, 0, f) && forall x :: x in s ==> !Twin(f, x)
    ensures InOrder(s[..k] + [f] + s[k..])
  {
    BoundSplits(s, f);
    var r := s[..k] + [f] + s[k..];
    forall i, j | 0 <= i < j < |r| ensures Less(r[i], r[j]) {
      if i < k && j == k {
        assert r[i] in s[..k] && r[i] in s;
      } else if i == k {
        assert r[j] in s[k..];
      } else {
        assert r[i] == s[if i < k then i else i - 1] && r[j] == s[if j < k then j else j - 1];
      }
    }
  }

  lemma TwinsSetInsert(s: seq<File>, f: File, c: File)
    requires InOrder(s)
    ensures InOrder(SetInsert(s, f))
    ensures Twins(SetInsert(s, f), c) == if Twin(f, c) && Twins(s, c) == [] then [f] else Twins(s, c)
  {
    var k := UpperBound(s, 0, f);
    BoundSplits(s, f);
    if k > 0 && !Less(s[k - 1], f) {
      if Twin(f, c) {
        assert s[k - 1] in s[..k];
        Chain(s[k - 1], f, c);
        TwinsHas(s, c, s[k - 1]);
      }
    } else {
      forall x | x in s ensures !Twin(f, x) { NoneLevel(s, f, k, x); }
      TwinsInsertAfter(s, f, c);
      StrictInsert(s, f, k);
      if Twin(f, c) {
        forall x | x in s ensures !Twin(x, c) { Chain(f, c, x); }
        NoTwins(s, c);
      }
    }
  }

  /** Sums of lists: no cancelling. */
  lemma TwinSums(b: seq<File>, a: seq<File>, x: seq<File>)
    requires |x| <= 1
    ensures x == b + (if a != [] then a else x) <==> b == [] && (a == [] || a == x)
    ensures (b + a) + x == b + (if a != [] then a else x) <==> a == [] || x == []
  {
  }

  // ----- members

  lemma InsertedOrTwin(s: seq<File>, f: File)
    ensures (forall x :: x in s ==> x in SetInsert(s, f)) && (f in SetInsert(s, f) || exists x :: x in s && Twin(x, f))
  {
    var k := UpperBound(s, 0, f);
    assert s == s[..k] + s[k..];
    if k > 0 && !Less(s[k - 1], f) { assert s[k - 1] in s && Twin(s[k - 1], f); }
  }

  lemma {:induction false} MergedMembers(base: seq<File>, added: seq<File>, x: File)
    ensures x in Merged(base, added) <==> x in base || x in added
    decreases |added|
  {
    if added != [] {
      var n := |added| - 1;
      MergedMembers(base, added[..n], x);
      var s := Merged(base, added[..n]);
      assert s == s[..UpperBound(s, 0, added[n])] + s[UpperBound(s, 0, added[n])..] && added == added[..n] + [added[n]];
    }
  }

  lemma SavedMembers(base: seq<File>, d: set<nat>, added: seq<File>, x: File)
    ensures x in Saved(base, d, added) <==> (x in base || x in added) && x.number !in d
  {
    UndeletedMembers(Merged(base, added), d);
    MergedMembers(base, added, x);
  }

  lemma {:induction false} KeepAll(s: seq<File>)
    ensures Undeleted(s, {}) == s
    decreases |s|
  {
    if s != [] {
      KeepAll(s[..|s| - 1]);
    }
  }

  lemma SavesOne(f: File)
    ensures Saved([], {}, [f]) == [f] && Saved([f], {f.number}, []) == [] && Merged([], [f]) == [f]
  {
    var none: seq<File> := [];
    assert [f][..0] == none && none + [f] + none == [f];
    assert Merged(none, none) == none && InsertAfter(none, f) == [f];
    assert Undeleted(none, {}) == none && Undeleted(none, {f.number}) == none;
  }

  lemma InsertSecond(f: File, g: File)
    requires !Less(g, f)
    ensures InsertAfter([f], g) == [f, g] && SetInsert([f], g) == (if Less(f, g) then [f, g] else [f])
  {
    var none: seq<File> := [];
    assert UpperBound([f], 1, g) == 1;
    assert UpperBound([f], 0, g) == 1;
    assert [f][..1] == [f] && [f][1..] == none && [f] + [g] + none == [f, g];
  }

  lemma KeepsTwo(f: File, g: File)
    ensures Undeleted([f, g], {}) == [f, g] && Undeleted([f], {}) == [f]
  {
    KeepAll([f, g]);
    KeepAll([f]);
  }

  // ----- merging step by step

  /** k files of the base and i new ones are merged; those of the base still to do are after these new ones, and the new
    ones still to do are not before these of the base. */
  ghost predicate MergedTo(b: seq<File>, k: nat, a: seq<File>, i: nat)
    requires k <= |b| && i <= |a|
  {
    && Ordered(b) && InOrder(a)
    && (forall y, x :: 0 <= y < i && k <= x < |b| ==> Less(a[y], b[x]))
    && (forall y, x :: i <= y < |a| && 0 <= x < k ==> !Less(a[y], b[x]))
  }

  lemma StartMerge(b: seq<File>, a: seq<File>, d: set<nat>)
    requires Ordered(b) && InOrder(a)
    ensures MergedTo(b, 0, a, 0) && Undeleted(Merged(b[..0], a[..0]), d) == []
  {
  }

  lemma {:induction false} BoundBeforeLast(s: seq<File>, from: nat, g: File, f: File)
    requires Less(f, g) && from <= |s|
    ensures UpperBound(s + [g], from, f) == UpperBound(s, from, f)
    decreases |s| - from
  {
    if from < |s| && !Less(f, s[from]) {
      BoundBeforeLast(s, from + 1, g, f);
    }
  }

  lemma InsertBeforeLast(s: seq<File>, g: File, f: File)
    requires Less(f, g)
    ensures InsertAfter(s + [g], f) == InsertAfter(s, f) + [g]
  {
    BoundBeforeLast(s, 0, g, f);
    var k := UpperBound(s, 0, f);
    assert (s + [g])[..k] == s[..k] && (s + [g])[k..] == s[k..] + [g];
  }

  /** A last file of the base that is after all new ones stays last. */
  lemma {:induction false} MergeLast(base: seq<File>, g: File, added: seq<File>)
    requires forall f :: f in added ==> Less(f, g)
    ensures Merged(base + [g], added) == Merged(base, added) + [g]
    decreases |added|
  {
    if added != [] {
      var n := |added| - 1;
      MergeLast(base, g, added[..n]);
      InsertBeforeLast(Merged(base, added[..n]), g, added[n]);
    }
  }

  lemma {:induction false} BoundAtEnd(s: seq<File>, from: nat, f: File)
    requires from <= |s| && forall x :: x in s ==> !Less(f, x)
    ensures UpperBound(s, from, f) == |s|
    decreases |s| - from
  {
    if from < |s| {
      BoundAtEnd(s, from + 1, f);
    }
  }

  lemma UndeletedLast(s: seq<File>, f: File, d: set<nat>)
    ensures Undeleted(s + [f], d) == MaybeAdded(Undeleted(s, d), f, d)
  {
    assert (s + [f])[..|s|] == s;
  }

  lemma MergeBase(b: seq<File>, k: nat, a: seq<File>, i: nat, d: set<nat>)
    requires k < |b| && i <= |a| && MergedTo(b, k, a, i) && (i < |a| ==> !Less(a[i], b[k]))
    ensures MergedTo(b, k + 1, a, i)
    ensures Undeleted(Merged(b[..k + 1], a[..i]), d) == MaybeAdded(Undeleted(Merged(b[..k], a[..i]), d), b[k], d)
  {
    assert b[..k + 1] == b[..k] + [b[k]];
    MergeLast(b[..k], b[k], a[..i]);
    UndeletedLast(Merged(b[..k], a[..i]), b[k], d);
    forall y | i < y < |a| ensures !Less(a[y], b[k]) { Chain(a[y], a[i], b[k]); Chain(a[i], a[y], b[k]); }
  }

  lemma MergeAdded(b: seq<File>, k: nat, a: seq<File>, i: nat, d: set<nat>)
    requires k <= |b| && i < |a| && MergedTo(b, k, a, i) && (k < |b| ==> Less(a[i], b[k]))
    ensures MergedTo(b, k, a, i + 1)
    ensures Undeleted(Merged(b[..k], a[..i + 1]), d) == MaybeAdded(Undeleted(Merged(b[..k], a[..i]), d), a[i], d)
  {
    assert a[..i + 1][..i] == a[..i];
    var s := Merged(b[..k], a[..i]);
    forall x | x in s ensures !Less(a[i], x) { MergedMembers(b[..k], a[..i], x); }
    BoundAtEnd(s, 0, a[i]);
    assert InsertAfter(s, a[i]) == s + [a[i]];
    UndeletedLast(s, a[i], d);
    forall x | k < x < |b| ensures Less(a[i], b[x]) { Chain(a[i], b[k], b[x]); }
  }
}
