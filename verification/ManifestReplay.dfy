/** Version edits: when one builder over a whole manifest gives the lists that building after every edit gave. */
module ManifestReplay {
  import opened DbFormat
  import opened Versions
  import opened FileSets

  /** Deleted (level, number) pairs and new files, as in one manifest record. */
  datatype Edit = Edit(deleted: seq<(nat, nat)>, added: seq<(nat, File)>)

  ghost predicate EditOk(e: Edit) {
    (forall d :: d in e.deleted ==> d.0 < NUM_LEVELS) && forall a :: a in e.added ==> a.0 < NUM_LEVELS
  }

  ghost function Dropped(e: Edit, l: nat): set<nat> { set d | d in e.deleted && d.0 == l :: d.1 }

  ghost function New(e: Edit, l: nat): set<File> { set a | a in e.added && a.0 == l :: a.1 }

  ghost function Numbers(files: set<File>): set<nat> { set f | f in files :: f.number }

  function AddAll(s: seq<File>, added: seq<(nat, File)>, l: nat): seq<File> {
    if added == [] then s else
    var n := |added| - 1;
    var r := AddAll(s, added[..n], l);
    if added[n].0 == l then SetInsert(r, added[n].1) else r
  }

  // ----- what a builder computes

  /** Numbers marked deleted after some edits: adding a number unmarks it. */
  ghost function Deleted(es: seq<Edit>, l: nat): set<nat> {
    if es == [] then {} else
    var e := es[|es| - 1];
    Deleted(es[..|es| - 1], l) + Dropped(e, l) - Numbers(New(e, l))
  }

  function Added(es: seq<Edit>, l: nat): seq<File> {
    if es == [] then [] else AddAll(Added(es[..|es| - 1], l), es[|es| - 1].added, l)
  }

  /** The level after building and saving a version for every single edit. */
  ghost function Live(base: seq<File>, es: seq<Edit>, l: nat): seq<File> {
    if es == [] then base else
    var e := es[|es| - 1];
    Saved(Live(base, es[..|es| - 1], l), Dropped(e, l) - Numbers(New(e, l)), AddAll([], e.added, l))
  }

  ghost predicate ReplayAgrees(base: seq<File>, es: seq<Edit>, l: nat) {
    Saved(base, Deleted(es, l), Added(es, l)) == Live(base, es, l)
  }

  // ----- adding files, told by twins

  /** What is in the set stays; the rest is as if added to an empty set. */
  lemma {:induction false} TwinsAddAll(s: seq<File>, added: seq<(nat, File)>, l: nat, c: File)
    requires InOrder(s)
    ensures InOrder(AddAll(s, added, l)) && InOrder(AddAll([], added, l))
    ensures Twins(AddAll(s, added, l), c) == if Twins(s, c) != [] then Twins(s, c) else Twins(AddAll([], added, l), c)
    decreases |added|
  {
    if added != [] {
      var n := |added| - 1;
      TwinsAddAll(s, added[..n], l, c);
      if added[n].0 == l {
        TwinsSetInsert(AddAll(s, added[..n], l), added[n].1, c);
        TwinsSetInsert(AddAll([], added[..n], l), added[n].1, c);
      }
    }
  }

  lemma {:induction false} FromAdded(added: seq<(nat, File)>, l: nat, x: File)
    requires x in AddAll([], added, l)
    ensures (l, x) in added
    decreases |added|
  {
    if added != [] {
      var n := |added| - 1;
      if x in AddAll([], added[..n], l) { FromAdded(added[..n], l, x); }
    }
  }

  lemma NewNumber(e: Edit, l: nat, x: File)
    requires x in AddAll([], e.added, l)
    ensures x in New(e, l) && x.number in Numbers(New(e, l))
  {
    FromAdded(e.added, l, x);
    assert (l, x) in e.added && (l, x).1 == x;
  }

  lemma {:induction false} AddedInOrder(es: seq<Edit>, l: nat)
    ensures InOrder(Added(es, l))
    decreases |es|
  {
    if es != [] {
      AddedInOrder(es[..|es| - 1], l);
      TwinsAddAll(Added(es[..|es| - 1], l), es[|es| - 1].added, l, Table(0, 0, [Entry(0, 0, Delete)]));
    }
  }

  lemma {:induction false} LiveOrdered(base: seq<File>, es: seq<Edit>, l: nat)
    requires Ordered(base)
    ensures Ordered(Live(base, es, l))
    decreases |es|
  {
    if es != [] {
      var e := es[|es| - 1];
      LiveOrdered(base, es[..|es| - 1], l);
      TwinsSaved(Live(base, es[..|es| - 1], l), Dropped(e, l) - Numbers(New(e, l)), AddAll([], e.added, l),
          Table(0, 0, [Entry(0, 0, Delete)]));
    }
  }

  // ----- exactly when replay gives the live level

  /** The edit takes no deletion mark off the number of a file of the base, nor of a file added before unless it adds
    that same file again; and it adds no twin of a file added before that is not marked deleted. */
  ghost predicate BringsNothingBack(base: seq<File>, es: seq<Edit>, e: Edit, l: nat) {
    var d, a, x := Deleted(es, l), Added(es, l), AddAll([], e.added, l);
    && (forall f :: f in base && f.number in d ==> f.number !in Numbers(New(e, l)))
    && (forall f :: f in a && f.number in d && f.number in Numbers(New(e, l)) ==> f in x)
    && (forall f, g :: f in a && g in x && Twin(f, g) ==> f.number in d)
  }

  /** The same for the twins of one file. */
  ghost predicate TwinsAgree(base: seq<File>, es: seq<Edit>, e: Edit, l: nat, c: File) {
    var b, a, x := Twins(base, c), Twins(Added(es, l), c), Twins(AddAll([], e.added, l), c);
    c.number in Numbers(New(e, l)) ==>
      if c.number in Deleted(es, l) then b == [] && (a == [] || a == x) else a == [] || x == []
  }

  /** Both lists after one more edit, by the twins of c. */
  lemma NextTwins(base: seq<File>, es: seq<Edit>, e: Edit, l: nat, c: File)
    requires Ordered(base) && ReplayAgrees(base, es, l)
    ensures var r, w := Saved(base, Deleted(es + [e], l), Added(es + [e], l)), Live(base, es + [e], l);
            Ordered(r) && Ordered(w) && (Twins(r, c) == Twins(w, c) <==> TwinsAgree(base, es, e, l, c))
  {
    assert (es + [e])[..|es|] == es;
    var d, a, x := Deleted(es, l), Added(es, l), AddAll([], e.added, l);
    var d', n := Dropped(e, l), Numbers(New(e, l));
    AddedInOrder(es, l);
    TwinsAddAll(a, e.added, l, c);
    LiveOrdered(base, es, l);
    TwinsSaved(base, d, a, c);
    TwinsSaved(base, d + d' - n, AddAll(a, e.added, l), c);
    TwinsSaved(Live(base, es, l), d' - n, x, c);
    OneTwin(x, c);
    if Twins(x, c) != [] {
      var f := Twins(x, c)[0];
      TwinsHas(x, c, f);
      NewNumber(e, l, f);
      Chain(f, c, c);
    }
    hide Twins, Saved, Deleted, Added, AddAll, Dropped, New, Numbers, Twin, Less, InOrder, Ordered;
    TwinSums(Twins(base, c), Twins(a, c), Twins(x, c));
  }

  /** Agreement of all twins is the condition on files. */
  lemma AgreeingTwins(base: seq<File>, es: seq<Edit>, e: Edit, l: nat)
    ensures BringsNothingBack(base, es, e, l) <==> forall c :: TwinsAgree(base, es, e, l, c)
  {
    var a, x := Added(es, l), AddAll([], e.added, l);
    AddedInOrder(es, l);
    TwinsAddAll([], e.added, l, Table(0, 0, [Entry(0, 0, Delete)]));
    hide Added, AddAll, Deleted, Less, Twins, InOrder, Twin;
    if BringsNothingBack(base, es, e, l) {
      forall c ensures TwinsAgree(base, es, e, l, c) { FilesAgree(base, es, e, l, c); }
    }
    if forall c :: TwinsAgree(base, es, e, l, c) {
      forall f | f in base && f.number in Deleted(es, l) ensures f.number !in Numbers(New(e, l)) {
        assert TwinsAgree(base, es, e, l, f);
        OwnTwin(base, f);
      }
      forall f | f in a && f.number in Deleted(es, l) && f.number in Numbers(New(e, l)) ensures f in x {
        assert TwinsAgree(base, es, e, l, f);
        OwnTwin(a, f);
        TwinsHas(x, f, f);
      }
      forall f, g | f in a && g in x && Twin(f, g) ensures f.number in Deleted(es, l) {
        assert TwinsAgree(base, es, e, l, f);
        OwnTwin(a, f);
        TwinIn(x, f, g);
        NewNumber(e, l, g);
        Chain(f, g, g);
      }
    }
  }

  lemma FilesAgree(base: seq<File>, es: seq<Edit>, e: Edit, l: nat, c: File)
    requires BringsNothingBack(base, es, e, l) && InOrder(Added(es, l)) && InOrder(AddAll([], e.added, l))
    ensures TwinsAgree(base, es, e, l, c)
  {
    var d, n, a, x := Deleted(es, l), Numbers(New(e, l)), Added(es, l), AddAll([], e.added, l);
    hide Added, AddAll, Deleted, Less, Twins, InOrder, New, Numbers, Twin;
    if c.number in n {
      if c.number in d {
        BaseGone(base, d, n, c);
        AddedBack(a, x, d, n, c);
      } else {
        NoTwinAdded(a, x, d, c);
      }
    }
  }

  lemma BaseGone(base: seq<File>, d: set<nat>, n: set<nat>, c: File)
    requires c.number in d && c.number in n && forall f :: f in base && f.number in d ==> f.number !in n
    ensures Twins(base, c) == []
  {
    forall f | f in base ensures !Twin(f, c) { Chain(f, c, c); }
    NoTwins(base, c);
  }

  lemma AddedBack(a: seq<File>, x: seq<File>, d: set<nat>, n: set<nat>, c: File)
    requires InOrder(a) && InOrder(x) && c.number in d && c.number in n
        && forall f :: f in a && f.number in d && f.number in n ==> f in x
    ensures Twins(a, c) == [] || Twins(a, c) == Twins(x, c)
  {
    if Twins(a, c) != [] {
      var f := Twins(a, c)[0];
      TwinIs(a, c, f);
      SoleTwin(a, c, f);
      SoleTwin(x, c, f);
    }
  }

  lemma TwinMarked(a: seq<File>, x: seq<File>, d: set<nat>, c: File, f: File, g: File)
    requires f in Twins(a, c) && g in Twins(x, c) && forall f, g :: f in a && g in x && Twin(f, g) ==> f.number in d
    ensures c.number in d
  {
    TwinIs(a, c, f);
    TwinIs(x, c, g);
    TwinOfBoth(f, g, c);
  }

  lemma NoTwinAdded(a: seq<File>, x: seq<File>, d: set<nat>, c: File)
    requires c.number !in d && forall f, g :: f in a && g in x && Twin(f, g) ==> f.number in d
    ensures Twins(a, c) == [] || Twins(x, c) == []
  {
    if Twins(a, c) != [] && Twins(x, c) != [] { TwinMarked(a, x, d, c, Twins(a, c)[0], Twins(x, c)[0]); }
  }

  lemma NextAgrees(base: seq<File>, es: seq<Edit>, e: Edit, l: nat)
    requires Ordered(base) && ReplayAgrees(base, es, l)
    ensures ReplayAgrees(base, es + [e], l) <==> BringsNothingBack(base, es, e, l)
  {
    var r, w := Saved(base, Deleted(es + [e], l), Added(es + [e], l)), Live(base, es + [e], l);
    AgreeingTwins(base, es, e, l);
    hide Saved, Deleted, Added, Live, Ordered, Twins, TwinsAgree, BringsNothingBack;
    forall c ensures Ordered(r) && Ordered(w) && (Twins(r, c) == Twins(w, c) <==> TwinsAgree(base, es, e, l, c)) {
      NextTwins(base, es, e, l, c);
    }
    assert Ordered(r) && Ordered(w) by { NextTwins(base, es, e, l, Table(0, 0, [Entry(0, 0, Delete)])); }
    if forall c :: TwinsAgree(base, es, e, l, c) { SameTwins(r, w); }
    if r == w {
      forall c ensures TwinsAgree(base, es, e, l, c) { assert Twins(r, c) == Twins(w, c); }
    }
  }

  ghost predicate NothingBack(base: seq<File>, es: seq<Edit>, l: nat) {
    forall k :: 0 <= k < |es| ==> BringsNothingBack(base, es[..k], es[k], l)
  }

  /** Whenever the database is opened: replay gives the live level after every edit. */
  ghost predicate AlwaysAgrees(base: seq<File>, es: seq<Edit>, l: nat) {
    forall k :: 0 <= k <= |es| ==> ReplayAgrees(base, es[..k], l)
  }

  lemma LastAgrees(base: seq<File>, es: seq<Edit>, l: nat)
    requires es != []
    ensures var n := |es| - 1;
            (AlwaysAgrees(base, es, l) <==> AlwaysAgrees(base, es[..n], l) && ReplayAgrees(base, es, l))
            && (AlwaysAgrees(base, es[..n], l) ==> ReplayAgrees(base, es[..n], l))
  {
    hide ReplayAgrees;
    var n := |es| - 1;
    assert es[..|es|] == es && es[..n][..n] == es[..n];
    assert forall k :: 0 <= k <= n ==> es[..n][..k] == es[..k];
    if AlwaysAgrees(base, es, l) {
      forall k | 0 <= k <= n ensures ReplayAgrees(base, es[..n][..k], l) { assert ReplayAgrees(base, es[..k], l); }
    }
    if AlwaysAgrees(base, es[..n], l) && ReplayAgrees(base, es, l) {
      forall k | 0 <= k <= |es| ensures ReplayAgrees(base, es[..k], l) {
        assert k <= n ==> ReplayAgrees(base, es[..n][..k], l);
      }
    }
  }

  lemma LastEdit(base: seq<File>, es: seq<Edit>, l: nat)
    requires es != []
    ensures var n := |es| - 1;
            NothingBack(base, es, l) <==> NothingBack(base, es[..n], l) && BringsNothingBack(base, es[..n], es[n], l)
  {
    hide BringsNothingBack;
    var n := |es| - 1;
    assert forall k :: 0 <= k < n ==> es[..n][..k] == es[..k] && es[..n][k] == es[k];
    if NothingBack(base, es[..n], l) && BringsNothingBack(base, es[..n], es[n], l) {
      forall k | 0 <= k < |es| ensures BringsNothingBack(base, es[..k], es[k], l) {
        assert k < n ==> BringsNothingBack(base, es[..n][..k], es[..n][k], l);
      }
    }
    if NothingBack(base, es, l) {
      forall k | 0 <= k < n ensures BringsNothingBack(base, es[..n][..k], es[..n][k], l) {
        assert BringsNothingBack(base, es[..k], es[k], l);
      }
    }
  }

  /** Replay gives the live lists after every edit if and only if no edit brings a deleted file back or adds a twin. */
  lemma {:induction false} ReplayIsLiveIff(base: seq<File>, es: seq<Edit>, l: nat)
    requires Ordered(base)
    ensures AlwaysAgrees(base, es, l) <==> NothingBack(base, es, l)
    decreases |es|
  {
    hide Ordered, Deleted, Added, Live, BringsNothingBack, AlwaysAgrees, NothingBack;
    if es == [] {
      NoEdits(base, l);
    } else {
      var n := |es| - 1;
      ReplayIsLiveIff(base, es[..n], l);
      assert es[..n] + [es[n]] == es;
      LastAgrees(base, es, l);
      LastEdit(base, es, l);
      hide ReplayAgrees;
      if ReplayAgrees(base, es[..n], l) { NextAgrees(base, es[..n], es[n], l); }
    }
  }

  lemma NoEdits(base: seq<File>, l: nat)
    ensures AlwaysAgrees(base, [], l) && NothingBack(base, [], l)
  {
    KeepAll(base);
    assert ReplayAgrees(base, [], l);
  }

  // ----- numbers used once

  ghost function EverAdded(es: seq<Edit>, l: nat): set<File> {
    if es == [] then {} else EverAdded(es[..|es| - 1], l) + New(es[|es| - 1], l)
  }

  /** A file number is added to the level by one edit at most, and not if the level had it before. */
  ghost predicate AddedOnce(base: set<File>, es: seq<Edit>, l: nat)
    decreases es
  {
    es == [] ||
    (AddedOnce(base, es[..|es| - 1], l)
        && Numbers(base + EverAdded(es[..|es| - 1], l)) !! Numbers(New(es[|es| - 1], l)))
  }

  lemma {:induction false} AddedAtAll(es: seq<Edit>, l: nat, f: File)
    requires f in Added(es, l)
    ensures f in EverAdded(es, l)
    decreases |es|
  {
    if es != [] {
      var n := |es| - 1;
      FromEither(Added(es[..n], l), es[n].added, l, f);
      if f in Added(es[..n], l) {
        AddedAtAll(es[..n], l, f);
      } else {
        assert (l, f).1 == f;
      }
    }
  }

  lemma {:induction false} FromEither(s: seq<File>, added: seq<(nat, File)>, l: nat, x: File)
    requires x in AddAll(s, added, l)
    ensures x in s || (l, x) in added
    decreases |added|
  {
    if added != [] {
      var n := |added| - 1;
      if x in AddAll(s, added[..n], l) { FromEither(s, added[..n], l, x); }
    }
  }

  lemma {:induction false} OnceBringsNothingBack(base: seq<File>, es: seq<Edit>, l: nat)
    requires AddedOnce(Set(base), es, l)
    ensures NothingBack(base, es, l)
    decreases |es|
  {
    if es != [] {
      var n := |es| - 1;
      OnceBringsNothingBack(base, es[..n], l);
      OnceNext(base, es[..n], es[n], l);
      LastEdit(base, es, l);
    }
  }

  lemma OnceNext(base: seq<File>, es: seq<Edit>, e: Edit, l: nat)
    requires Numbers(Set(base) + EverAdded(es, l)) !! Numbers(New(e, l))
    ensures BringsNothingBack(base, es, e, l)
  {
    hide AddAll, Deleted, Added, EverAdded, New;
    forall f | f in base || f in Added(es, l) ensures f.number !in Numbers(New(e, l)) {
      if f in Added(es, l) { AddedAtAll(es, l, f); }
      assert f in Set(base) + EverAdded(es, l);
      assert f.number in Numbers(Set(base) + EverAdded(es, l));
    }
    forall g | g in AddAll([], e.added, l) ensures g.number in Numbers(New(e, l)) { NewNumber(e, l, g); }
    forall f, g | Twin(f, g) ensures f.number == g.number { Chain(f, g, g); }
  }

  /** Where no number is added twice, replaying the whole history in one go gives the live level, in strict order. */
  lemma ReplayIsLive(base: seq<File>, es: seq<Edit>, l: nat)
    requires Ordered(base) && AddedOnce(Set(base), es, l)
    ensures ReplayAgrees(base, es, l) && (InOrder(base) ==> InOrder(Live(base, es, l)))
  {
    OnceBringsNothingBack(base, es, l);
    ReplayIsLiveIff(base, es, l);
    LastIsAll(base, es, l);
    if InOrder(base) {
      LiveOrdered(base, es, l);
      forall c ensures |Twins(Live(base, es, l), c)| <= 1 { OnceOneTwin(base, es, l, c); }
      StrictlyInOrder(Live(base, es, l));
    }
  }

  lemma LastIsAll(base: seq<File>, es: seq<Edit>, l: nat)
    requires AlwaysAgrees(base, es, l)
    ensures ReplayAgrees(base, es, l)
  {
    assert es[..|es|] == es;
    hide ReplayAgrees;
  }

  lemma {:induction false} OnceOneTwin(base: seq<File>, es: seq<Edit>, l: nat, c: File)
    requires InOrder(base) && AddedOnce(Set(base), es, l)
    ensures |Twins(Live(base, es, l), c)| <= 1
    ensures Twins(Live(base, es, l), c) != [] ==> c.number in Numbers(Set(base) + EverAdded(es, l))
    decreases |es|
  {
    if es == [] {
      OneTwin(base, c);
      if Twins(base, c) != [] {
        TwinIs(base, c, Twins(base, c)[0]);
        assert Twins(base, c)[0] in Set(base) + EverAdded(es, l);
      }
    } else {
      var n := |es| - 1;
      var e := es[n];
      OnceOneTwin(base, es[..n], l, c);
      Ordering(base);
      LiveOrdered(base, es[..n], l);
      TwinsSaved(Live(base, es[..n], l), Dropped(e, l) - Numbers(New(e, l)), AddAll([], e.added, l), c);
      TwinsAddAll([], e.added, l, c);
      var x := AddAll([], e.added, l);
      OneTwin(x, c);
      hide Twins, AddAll, Less, Ordered, InOrder, AddedOnce;
      if Twins(x, c) != [] {
        TwinIs(x, c, Twins(x, c)[0]);
        NewNumber(e, l, Twins(x, c)[0]);
      }
      NumbersUp(Set(base) + EverAdded(es[..n], l), New(e, l));
      assert Set(base) + EverAdded(es, l) == Set(base) + EverAdded(es[..n], l) + New(e, l);
    }
  }

  lemma NumbersUp(a: set<File>, b: set<File>)
    ensures Numbers(a + b) == Numbers(a) + Numbers(b)
  {
  }

  // ----- the builder

  class Builder {
    const base: seq<seq<File>>
    var deleted: seq<set<nat>>
    var added: seq<seq<File>>

    ghost predicate Valid()
      reads this
    {
      |base| == |deleted| == |added| == NUM_LEVELS
    }

    /** The edits applied so far are es. */
    ghost predicate Applied(es: seq<Edit>)
      requires Valid()
      reads this
    {
      forall l :: 0 <= l < NUM_LEVELS ==> deleted[l] == Deleted(es, l) && added[l] == Added(es, l)
    }

    constructor (base: seq<seq<File>>)
      requires |base| == NUM_LEVELS
      ensures Valid() && this.base == base && Applied([])
    {
      this.base := base;
      deleted := seq(NUM_LEVELS, i => {});
      added := seq(NUM_LEVELS, i => []);
    }

    method Apply(e: Edit, ghost es: seq<Edit>)
      requires Valid() && EditOk(e) && Applied(es)
      modifies this
      ensures Valid() && Applied(es + [e])
    {
      MarkDeleted(e);
      AddFiles(e);
      assert (es + [e])[..|es|] == es;
    }

    method MarkDeleted(e: Edit)
      requires Valid() && EditOk(e)
      modifies this
      ensures Valid() && added == old(added) && forall l :: 0 <= l < NUM_LEVELS ==>
          deleted[l] == old(deleted)[l] + Dropped(e, l)
    {
      for i := 0 to |e.deleted|
        invariant Valid() && added == old(added)
        invariant forall l :: 0 <= l < NUM_LEVELS ==>
            deleted[l] == old(deleted)[l] + Dropped(Edit(e.deleted[..i], []), l)
      {
        var d := e.deleted[i];
        assert d in e.deleted && e.deleted[..i + 1] == e.deleted[..i] + [d];
        deleted := deleted[d.0 := deleted[d.0] + {d.1}];
      }
      assert e.deleted[..|e.deleted|] == e.deleted;
    }

    method AddFiles(e: Edit)
      requires Valid() && EditOk(e)
      modifies this
      ensures Valid()
      ensures forall l :: 0 <= l < NUM_LEVELS ==>
                deleted[l] == old(deleted)[l] - Numbers(New(e, l)) && added[l] == AddAll(old(added)[l], e.added, l)
    {
      for i := 0 to |e.added|
        invariant Valid()
        invariant forall l :: 0 <= l < NUM_LEVELS ==>
            deleted[l] == old(deleted)[l] - Numbers(New(Edit([], e.added[..i]), l))
        invariant forall l :: 0 <= l < NUM_LEVELS ==> added[l] == AddAll(old(added)[l], e.added[..i], l)
      {
        var a := e.added[i];
        assert a in e.added && e.added[..i + 1][..i] == e.added[..i];
        forall l: nat ensures Numbers(New(Edit([], e.added[..i + 1]), l)) == Numbers(New(Edit([], e.added[..i]), l)) +
          if l == a.0 then {a.1.number} else {} {
          NumbersNext(e, i, l);
        }
        deleted := deleted[a.0 := deleted[a.0] - {a.1.number}];
        added := added[a.0 := SetInsert(added[a.0], a.1)];
      }
      assert e.added[..|e.added|] == e.added;
    }

    /** The version that the edits so far make of a level. */
    method SaveTo(l: nat) returns (v: seq<File>)
      requires Valid() && l < NUM_LEVELS && Ordered(base[l]) && InOrder(added[l])
      ensures v == Saved(base[l], deleted[l], added[l])
    {
      hide Less, Ordered, InOrder, Merged, Undeleted;
      var b, a, d := base[l], added[l], deleted[l];
      v := [];
      var k := 0;
      StartMerge(b, a, d);
      for i := 0 to |a|
        invariant k <= |b| && MergedTo(b, k, a, i) && v == Undeleted(Merged(b[..k], a[..i]), d)
      {
        var bpos := UpperBound(b, k, a[i]);
        while k != bpos
          invariant k <= bpos && MergedTo(b, k, a, i) && v == Undeleted(Merged(b[..k], a[..i]), d)
        {
          MergeBase(b, k, a, i, d);
          v := MaybeAdded(v, b[k], d);
          k := k + 1;
        }
        MergeAdded(b, k, a, i, d);
        v := MaybeAdded(v, a[i], d);
      }
      while k != |b|
        invariant k <= |b| && MergedTo(b, k, a, |a|) && v == Undeleted(Merged(b[..k], a[..|a|]), d)
      {
        MergeBase(b, k, a, |a|, d);
        v := MaybeAdded(v, b[k], d);
        k := k + 1;
      }
      assert b[..|b|] == b && a[..|a|] == a;
    }
  }

  lemma NumbersNext(e: Edit, i: nat, l: nat)
    requires i < |e.added|
    ensures Numbers(New(Edit([], e.added[..i + 1]), l)) ==
            Numbers(New(Edit([], e.added[..i]), l)) + if l == e.added[i].0 then {e.added[i].1.number} else {}
  {
    var a := e.added[i];
    assert e.added[..i + 1] == e.added[..i] + [a];
    var n, n' := New(Edit([], e.added[..i]), l), New(Edit([], e.added[..i + 1]), l);
    assert n' == n + if l == a.0 then {a.1} else {};
    NumbersUp(n, {a.1});
    assert Numbers({a.1}) == {a.1.number} by { OneNumber(a.1); }
  }

  lemma OneNumber(f: File)
    ensures Numbers({f}) == {f.number}
  {
    assert f in {f};
  }

  // ----- recovery against live application

  ghost predicate Replayed(v: seq<seq<File>>, base: seq<seq<File>>, es: seq<Edit>)
    requires |base| == NUM_LEVELS
  {
    |v| == NUM_LEVELS && forall l :: 0 <= l < NUM_LEVELS ==> v[l] == Saved(base[l], Deleted(es, l), Added(es, l))
  }

  ghost predicate LiveLists(v: seq<seq<File>>, base: seq<seq<File>>, es: seq<Edit>)
    requires |base| == NUM_LEVELS
  {
    |v| == NUM_LEVELS && forall l :: 0 <= l < NUM_LEVELS ==> v[l] == Live(base[l], es, l)
  }

  /** What recovery does with a manifest. */
  method Replay(base: seq<seq<File>>, es: seq<Edit>) returns (v: seq<seq<File>>)
    requires |base| == NUM_LEVELS && (forall e :: e in es ==> EditOk(e))
    requires forall l :: 0 <= l < NUM_LEVELS ==> Ordered(base[l])
    ensures Replayed(v, base, es)
  {
    hide Builder.Applied, Ordered, Saved;
    var builder := new Builder(base);
    assert es[..0] == [];
    for i := 0 to |es|
      invariant builder.Valid() && builder.base == base && fresh(builder) && builder.Applied(es[..i])
    {
      builder.Apply(es[i], es[..i]);
      assert es[..i + 1] == es[..i] + [es[i]];
    }
    assert es[..|es|] == es;
    v := [];
    for l := 0 to NUM_LEVELS
      invariant |v| == l && builder.Valid() && builder.base == base && fresh(builder) && builder.Applied(es)
      invariant forall k :: 0 <= k < l ==> v[k] == Saved(base[k], Deleted(es, k), Added(es, k))
    {
      AddedInOrder(es, l);
      AppliedAt(builder, es, l);
      var files := builder.SaveTo(l);
      v := v + [files];
    }
  }

  lemma AppliedAt(builder: Builder, es: seq<Edit>, l: nat)
    requires builder.Valid() && builder.Applied(es) && l < NUM_LEVELS
    ensures builder.deleted[l] == Deleted(es, l) && builder.added[l] == Added(es, l)
  {
  }

  /** What LogAndApply did while the manifest was written: a new builder and a new version for every edit. */
  method ApplyEach(base: seq<seq<File>>, es: seq<Edit>) returns (v: seq<seq<File>>)
    requires |base| == NUM_LEVELS && (forall e :: e in es ==> EditOk(e))
    requires forall l :: 0 <= l < NUM_LEVELS ==> Ordered(base[l])
    ensures LiveLists(v, base, es)
  {
    v := base;
    assert es[..0] == [];
    for i := 0 to |es|
      invariant LiveLists(v, base, es[..i])
    {
      forall l | 0 <= l < NUM_LEVELS
        ensures Ordered(v[l]) && Saved(v[l], Deleted([es[i]], l), Added([es[i]], l)) == Live(base[l], es[..i + 1], l)
      {
        LiveOrdered(base[l], es[..i], l);
        OneEdit(base[l], es, i, l);
      }
      v := Replay(v, [es[i]]);
    }
    assert es[..|es|] == es;
  }

  lemma OneEdit(base: seq<File>, es: seq<Edit>, i: nat, l: nat)
    requires i < |es|
    ensures Saved(Live(base, es[..i], l), Deleted([es[i]], l), Added([es[i]], l)) == Live(base, es[..i + 1], l)
  {
    assert es[..i + 1][..i] == es[..i] && [es[i]][..0] == [];
    assert {} + Dropped(es[i], l) - Numbers(New(es[i], l)) == Dropped(es[i], l) - Numbers(New(es[i], l));
  }

  /** The version read back from the manifest is, list by list, the version that was live, whenever that was. */
  lemma ReplayedVersionIsLive(v: seq<seq<File>>, w: seq<seq<File>>, base: seq<seq<File>>, es: seq<Edit>)
    requires |base| == NUM_LEVELS && Replayed(v, base, es) && LiveLists(w, base, es)
    requires forall l :: 0 <= l < NUM_LEVELS ==> Ordered(base[l]) && NothingBack(base[l], es, l)
    ensures v == w
  {
    forall l | 0 <= l < NUM_LEVELS ensures v[l] == w[l] {
      ReplayIsLiveIff(base[l], es, l);
      LastIsAll(base[l], es, l);
    }
  }

  // ----- the edits of the engine's steps

  /** The edit of a compaction or a trivial move: inputs out by number, outputs in one level down. */
  ghost predicate CompactionEdit(e: Edit, c: nat, in0: set<File>, in1: set<File>, outs: set<File>) {
    && Dropped(e, c) == Numbers(in0) && Dropped(e, c + 1) == Numbers(in1) && New(e, c + 1) == outs
    && forall l: nat :: (l != c && l != c + 1 ==> Dropped(e, l) == {}) && (l != c + 1 ==> New(e, l) == {})
  }

  ghost predicate OwnNumbers(files: set<File>) { forall f, g :: f in files && g in files && f.number == g.number ==>
      f == g }

  /** Among files with numbers of their own none is ignored. */
  lemma {:induction false} AllAdded(added: seq<(nat, File)>, l: nat, f: File)
    requires OwnNumbers(New(Edit([], added), l)) && (l, f) in added
    ensures f in AddAll([], added, l)
    decreases |added|
  {
    var n := |added| - 1;
    assert added == added[..n] + [added[n]];
    assert New(Edit([], added[..n]), l) <= New(Edit([], added), l);
    var r := AddAll([], added[..n], l);
    InsertedOrTwin(r, added[n].1);
    if (l, f) in added[..n] { AllAdded(added[..n], l, f); }
    if added[n] == (l, f) && f !in SetInsert(r, f) {
      var g :| g in r && Twin(g, f);
      Chain(g, f, f);
      FromAdded(added[..n], l, g);
      SameInNew(added, l, f, g);
    }
  }

  lemma SameInNew(added: seq<(nat, File)>, l: nat, f: File, g: File)
    requires OwnNumbers(New(Edit([], added), l)) && (l, f) in added && (l, g) in added && f.number == g.number
    ensures f == g
  {
    assert (l, f).1 == f && (l, g).1 == g;
    assert f in New(Edit([], added), l) && g in New(Edit([], added), l);
  }

  /** The files that one edit makes of a level. */
  lemma LiveAfterOne(s: seq<File>, e: Edit, l: nat, x: File)
    requires Ordered(s) && OwnNumbers(New(e, l))
    ensures x in Live(s, [e], l) <==> (x in s && x.number !in Dropped(e, l) - Numbers(New(e, l))) || x in New(e, l)
  {
    assert [e][..0] == [];
    SavedMembers(s, Dropped(e, l) - Numbers(New(e, l)), AddAll([], e.added, l), x);
    assert New(Edit([], e.added), l) == New(e, l);
    if x in AddAll([], e.added, l) { NewNumber(e, l, x); }
    if x in New(e, l) {
      var a :| a in e.added && a.0 == l && a.1 == x;
      assert a == (l, x);
      AllAdded(e.added, l, x);
      NewNumber(e, l, x);
    }
  }

  lemma CompactionEditReplaces(v: Version, s: seq<File>, e: Edit, c: nat, in0: set<File>, in1: set<File>,
      outs: set<File>, l: nat)
    requires NumbersUnique(v) && AreInputs(v, c, in0, in1) && CompactionEdit(e, c, in0, in1, outs) && l < NUM_LEVELS
    requires forall i, o, g :: 0 <= i < NUM_LEVELS && o in outs && g in v[i] && o.number == g.number ==> i == c
    requires OwnNumbers(outs) && Ordered(s) && Set(s) == v[l]
    ensures Set(Live(s, [e], l)) == Replace(v, c, in0, in1, outs)[l]
  {
    forall x ensures x in Set(Live(s, [e], l)) <==> x in Replace(v, c, in0, in1, outs)[l] {
      LiveAfterOne(s, e, l, x);
      assert x in s <==> x in v[l];
      hide Live, Dropped, New;
      if x in v[l] { InputNumbers(v, c, in0, in1, l, x); }
      if l == c + 1 && x in v[l] { OutsDiffer(outs, x); }
    }
  }

  lemma OutsDiffer(outs: set<File>, x: File)
    requires forall o :: o in outs ==> o.number != x.number
    ensures x.number !in Numbers(outs)
  {
  }

  lemma InputNumbers(v: Version, c: nat, in0: set<File>, in1: set<File>, l: nat, x: File)
    requires NumbersUnique(v) && AreInputs(v, c, in0, in1) && l < NUM_LEVELS && x in v[l]
    ensures l == c ==> (x.number in Numbers(in0) <==> x in in0)
    ensures l == c + 1 ==> (x.number in Numbers(in1) <==> x in in1)
  {
    if l == c && x.number in Numbers(in0) {
      var g :| g in in0 && g.number == x.number;
    }
    if l == c + 1 && x.number in Numbers(in1) {
      var g :| g in in1 && g.number == x.number;
    }
  }

  /** A flush only adds. */
  lemma FlushEditAdds(v: Version, s: seq<File>, e: Edit, p: nat, f: File, l: nat)
    requires e == Edit([], [(p, f)]) && p < NUM_LEVELS && l < NUM_LEVELS && Ordered(s) && Set(s) == v[l]
    ensures Set(Live(s, [e], l)) == AddAt(v, p, f)[l]
  {
    assert e.added[0] == (p, f);
    assert New(e, l) == if l == p then {f} else {};
    assert Dropped(e, l) == {};
    forall x ensures x in Set(Live(s, [e], l)) <==> x in AddAt(v, p, f)[l] {
      LiveAfterOne(s, e, l, x);
      assert x in s <==> x in v[l];
    }
  }

  // ----- the condition is needed

  const OLD: File := Table(1, 0, [Entry(1, 1, Delete)])
  const NEW: File := Table(1, 0, [Entry(2, 2, Delete)])
  const TWIN: File := Table(1, 0, [Entry(1, 1, Delete), Entry(2, 2, Delete)])

  lemma AddsOne(f: File)
    ensures AddAll([], [(1, f)], 1) == [f] && New(Edit([], [(1, f)]), 1) == {f} && Numbers({f}) == {f.number}
  {
    var none: seq<File> := [];
    assert [(1, f)][..0] == [] && none + [f] + none == [f];
    assert AddAll(none, [], 1) == none && SetInsert(none, f) == [f];
    assert Edit([], [(1, f)]).added[0] == (1, f);
    OneNumber(f);
  }

  lemma OneMoreEdit(base: seq<File>, es: seq<Edit>, e: Edit, l: nat)
    ensures Live(base, es + [e], l) == Saved(Live(base, es, l), Dropped(e, l) - Numbers(New(e, l)),
        AddAll([], e.added, l))
    ensures Deleted(es + [e], l) == Deleted(es, l) + Dropped(e, l) - Numbers(New(e, l))
        && Added(es + [e], l) == AddAll(Added(es, l), e.added, l)
  {
    assert (es + [e])[..|es|] == es;
  }

  /** The first file of a level. */
  lemma FirstAdded(f: File)
    ensures var es := [Edit([], [(1, f)])]; Live([], es, 1) == [f] && Deleted(es, 1) == {} && Added(es, 1) == [f]
  {
    var a := Edit([], [(1, f)]);
    AddsOne(f);
    SavesOne(f);
    OneMoreEdit([], [], a, 1);
    assert [] + [a] == [a] && Dropped(a, 1) == {};
    assert Live([], [], 1) == [] && Deleted([], 1) == {} && Added([], 1) == [];
    assert {} + {} - {f.number} == {} && {} - {f.number} == {};
  }

  lemma SecondAdded(f: File, g: File)
    requires !Less(g, f)
    ensures AddAll([f], [(1, g)], 1) == (if Less(f, g) then [f, g] else [f])
    ensures Merged([f], [g]) == [f, g] && Merged([], [f, g]) == [f, g]
  {
    InsertSecond(f, g);
    SavesOne(f);
    hide InsertAfter, SetInsert, Less;
    assert [(1, g)][..0] == [] && AddAll([f], [], 1) == [f];
    assert [g][..0] == [] && Merged([f], []) == [f];
    assert [f, g][..1] == [f];
  }

  /** Why a number must not be used twice: unmarking it brings the deleted file back. */
  lemma ReusedNumberReturns()
    ensures var es := [Edit([], [(1, OLD)]), Edit([(1, 1)], []), Edit([], [(1, NEW)])];
            Live([], es, 1) == [NEW] && Saved([], Deleted(es, 1), Added(es, 1)) == [OLD, NEW]
  {
    var a, b, c := Edit([], [(1, OLD)]), Edit([(1, 1)], []), Edit([], [(1, NEW)]);
    FirstAdded(OLD);
    AfterDeleting(OLD);
    OneMoreEdit([], [a, b], c, 1);
    assert [a, b] + [c] == [a, b, c];
    assert Dropped(c, 1) == {};
    AddsOne(NEW);
    SavesOne(NEW);
    SecondAdded(OLD, NEW);
    KeepsTwo(OLD, NEW);
    hide Live, Deleted, Added, New, Dropped, Numbers, Merged, Undeleted, AddAll;
    assert {1} + {} - {1} == {} && {} - {1} == {};
  }

  lemma AfterDeleting(f: File)
    requires f.number == 1
    ensures var es := [Edit([], [(1, f)]), Edit([(1, 1)], [])];
        Live([], es, 1) == [] && Deleted(es, 1) == {1} && Added(es, 1) == [f]
  {
    var a, b := Edit([], [(1, f)]), Edit([(1, 1)], []);
    FirstAdded(f);
    OneMoreEdit([], [a], b, 1);
    assert [a] + [b] == [a, b];
    assert Dropped(b, 1) == {1} by { assert b.deleted[0] == (1, 1); }
    assert New(b, 1) == {} && Numbers({}) == {} && AddAll([f], [], 1) == [f] && AddAll([], [], 1) == [];
    SavesOne(f);
    hide Live, Deleted, Added, New, Dropped, Numbers, Merged, Undeleted, AddAll;
    assert {} + {1} - {} == {1} && {1} - {} == {1};
  }

  /** Why a twin must not be added: the builder's set ignores it, and the version that had both is not read back. */
  lemma TwinVanishes()
    ensures var es := [Edit([], [(1, OLD)]), Edit([], [(1, TWIN)])];
            Live([], es, 1) == [OLD, TWIN] && Saved([], Deleted(es, 1), Added(es, 1)) == [OLD]
  {
    var a, b := Edit([], [(1, OLD)]), Edit([], [(1, TWIN)]);
    FirstAdded(OLD);
    OneMoreEdit([], [a], b, 1);
    assert [a] + [b] == [a, b] && Dropped(b, 1) == {};
    AddsOne(TWIN);
    SavesOne(OLD);
    assert Twin(OLD, TWIN);
    SecondAdded(OLD, TWIN);
    KeepsTwo(OLD, TWIN);
    hide Live, Deleted, Added, New, Dropped, Numbers, Merged, Undeleted, AddAll;
    assert {} + {} - {1} == {} && {} - {1} == {};
  }
}
