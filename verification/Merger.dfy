/** The k-way merge: children positioned one by one, yet moving as one cursor over their sorted union. */
module Merger {
  import opened DbFormat
  import opened Options
  import opened Lookup
  import opened Cursors

  /** Index of e in the sorted union. */
  function Rank(merged: seq<Entry>, e: Entry): nat { SeekIndex(merged, e.user, e.sn) }

  ghost predicate AllIn(es: seq<Entry>, merged: seq<Entry>) { forall e :: e in es ==> e in merged }

  ghost predicate Disjoint(a: seq<Entry>, b: seq<Entry>) { forall e :: e in a ==> e !in b }

  ghost predicate InSome(lists: seq<seq<Entry>>, e: Entry) { exists i :: 0 <= i < |lists| && e in lists[i] }

  /** merged is the sorted union of the children's lists, which share no entry. */
  ghost predicate IsUnion(lists: seq<seq<Entry>>, merged: seq<Entry>) {
    && Sorted(merged)
    && (forall i :: 0 <= i < |lists| ==> Sorted(lists[i]) && AllIn(lists[i], merged))
    && (forall e :: e in merged ==> InSome(lists, e))
    && (forall i, k :: 0 <= i < |lists| && 0 <= k < |lists| && i != k ==> Disjoint(lists[i], lists[k]))
  }

  lemma RankIs(merged: seq<Entry>, n: nat)
    requires Sorted(merged) && n < |merged|
    ensures Rank(merged, merged[n]) == n
  {
    var k := Rank(merged, merged[n]);
    assert AtOrAfter(merged[n], merged[n].user, merged[n].sn);
  }

  lemma RankOrder(merged: seq<Entry>, a: Entry, b: Entry)
    requires Sorted(merged) && a in merged && b in merged
    ensures Before(a, b) <==> Rank(merged, a) < Rank(merged, b)
    ensures a == b <==> Rank(merged, a) == Rank(merged, b)
    ensures Rank(merged, a) < |merged| && merged[Rank(merged, a)] == a
  {
    var i :| 0 <= i < |merged| && merged[i] == a;
    var j :| 0 <= j < |merged| && merged[j] == b;
    RankIs(merged, i);
    RankIs(merged, j);
    if i < j { assert Before(merged[i], merged[j]); }
    if j < i { assert Before(merged[j], merged[i]); }
  }

  /** Position p splits es at rank n: entries before p have smaller rank. */
  ghost predicate Cut(merged: seq<Entry>, es: seq<Entry>, p: nat, n: nat) {
    p <= |es| && forall j :: 0 <= j < |es| ==> (j < p <==> Rank(merged, es[j]) < n)
  }

  /** How many entries of a list are before, or at, the child's position when it moves in reverse. */
  function CountTo(es: seq<Entry>, p: nat): nat { if p < |es| then p + 1 else 0 }

  lemma SeekCuts(merged: seq<Entry>, es: seq<Entry>, e: Entry)
    requires Sorted(merged) && Sorted(es) && e in merged && AllIn(es, merged)
    ensures Cut(merged, es, SeekIndex(es, e.user, e.sn), Rank(merged, e))
  {
    var p := SeekIndex(es, e.user, e.sn);
    forall j | 0 <= j < |es| ensures j < p <==> Rank(merged, es[j]) < Rank(merged, e) {
      RankOrder(merged, es[j], e);
      if j >= p { assert j == p || Before(es[p], es[j]); }
    }
  }

  /** A cut just after the entry of rank n, in the list that holds it and in the others. */
  lemma CutMoves(merged: seq<Entry>, es: seq<Entry>, p: nat, n: nat)
    requires Sorted(merged) && Sorted(es) && n < |merged| && Cut(merged, es, p, n)
    requires AllIn(es, merged)
    ensures p < |es| && es[p] == merged[n] ==> Cut(merged, es, p + 1, n + 1)
    ensures merged[n] !in es ==> Cut(merged, es, p, n + 1)
  {
    RankIs(merged, n);
    forall j | 0 <= j < |es| && Rank(merged, es[j]) == n ensures es[j] == merged[n] {
      RankOrder(merged, es[j], merged[n]);
    }
    if p < |es| && es[p] == merged[n] {
      forall j | 0 <= j < |es| ensures j < p + 1 <==> Rank(merged, es[j]) < n + 1 {
        RankOrder(merged, es[j], es[p]);
        if j < p { assert Before(es[j], es[p]); }
        if j > p { assert Before(es[p], es[j]); }
      }
    }
  }

  lemma CutMovesBack(merged: seq<Entry>, es: seq<Entry>, p: nat, n: nat)
    requires Sorted(merged) && Sorted(es) && n < |merged| && Cut(merged, es, p, n + 1)
    requires AllIn(es, merged)
    ensures p > 0 && es[p - 1] == merged[n] ==> Cut(merged, es, p - 1, n)
    ensures merged[n] !in es ==> Cut(merged, es, p, n)
  {
    RankIs(merged, n);
    forall j | 0 <= j < |es| && Rank(merged, es[j]) == n ensures es[j] == merged[n] {
      RankOrder(merged, es[j], merged[n]);
    }
    if p > 0 && es[p - 1] == merged[n] {
      forall j | 0 <= j < |es| ensures j < p - 1 <==> Rank(merged, es[j]) < n {
        RankOrder(merged, es[j], es[p - 1]);
        if j < p - 1 { assert Before(es[j], es[p - 1]); }
        if j > p - 1 { assert Before(es[p - 1], es[j]); }
      }
    }
  }

  datatype Direction = Forward | Reverse

  class MergingIterator {
    const children: seq<Cursor>
    var current: Option<nat>
    var direction: Direction
    ghost const merged: seq<Entry>
    ghost var pos: nat              // index into merged, |merged| when not valid

    ghost predicate Shape()
      reads this, children
    {
      && (forall i, j :: 0 <= i < j < |children| ==> children[i] != children[j])
      && (forall i :: 0 <= i < |children| ==> children[i].Ok())
      && IsUnion(Lists(children), merged)
    }

    /** All children at the first entry of rank n or more. */
    ghost predicate ForwardCut(n: nat)
      reads this, children
    {
      forall i :: 0 <= i < |children| ==> Cut(merged, children[i].es, children[i].pos, n)
    }

    /** All children at the last entry of rank below n. */
    ghost predicate ReverseCut(n: nat)
      reads this, children
    {
      forall i :: 0 <= i < |children| ==> Cut(merged, children[i].es, CountTo(children[i].es, children[i].pos), n)
    }

    ghost predicate Valid()
      reads this, children
    {
      && Shape()
      && (current.None? ==> pos == |merged|)
      && (current.Some? ==>
            && pos < |merged| && current.value < |children| && children[current.value].Valid()
            && children[current.value].Entry() == merged[pos]
            && (if direction == Forward then ForwardCut(pos) else ReverseCut(pos + 1)))
    }

    constructor (children: seq<Cursor>, ghost merged: seq<Entry>)
      requires forall i, j :: 0 <= i < j < |children| ==> children[i] != children[j]
      requires forall i :: 0 <= i < |children| ==> children[i].Ok()
      requires IsUnion(Lists(children), merged)
      ensures Valid() && this.children == children && this.merged == merged && pos == |merged|
    {
      this.children, this.merged := children, merged;
      current, direction, pos := None, Forward, |merged|;
    }

    method FindSmallest(ghost n: nat)
      requires Shape() && ForwardCut(n) && n <= |merged|
      modifies this`current
      ensures current.None? <==> n == |merged|
      ensures current.Some? ==>
          current.value < |children| && children[current.value].Valid() && children[current.value].Entry() == merged[n]
    {
      var smallest: Option<nat> := None;
      for i := 0 to |children|
        invariant smallest.Some? ==> smallest.value < i && children[smallest.value].Valid()
        invariant forall k :: 0 <= k < i && children[k].Valid() ==>
                    smallest.Some? && !Before(children[k].Entry(), children[smallest.value].Entry())
      {
        var child := children[i];
        if child.Valid() {
          if smallest.None? {
            smallest := Some(i);
          } else if Before(child.Entry(), children[smallest.value].Entry()) {
            smallest := Some(i);
          }
        }
      }
      current := smallest;
      if n < |merged| { AtCut(n); }
      forall k | 0 <= k < |children| && children[k].Valid()
        ensures children[k].Entry() in merged && n <= Rank(merged, children[k].Entry()) < |merged|
      {
        assert AllIn(Lists(children)[k], merged);
        RankOrder(merged, children[k].Entry(), children[k].Entry());
      }
      if current.Some? && n < |merged| {
        RankIs(merged, n);
        RankOrder(merged, children[current.value].Entry(), merged[n]);
      }
    }

    /** The child that holds the entry of rank n stands on it. */
    lemma AtCut(n: nat)
      requires Shape() && ForwardCut(n) && n < |merged|
      ensures exists i :: 0 <= i < |children| && children[i].Valid() && children[i].Entry() == merged[n]
    {
      var i, j := HolderOf(Lists(children), merged, n);
      var c := children[i];
      CutStands(merged, c.es, c.pos, n, j);
      assert children[i].Valid();
    }

    lemma AtCutBack(n: nat)
      requires Shape() && ReverseCut(n + 1) && n < |merged|
      ensures exists i :: 0 <= i < |children| && children[i].Valid() && children[i].Entry() == merged[n]
    {
      var i, j := HolderOf(Lists(children), merged, n);
      var c := children[i];
      CutStandsBack(merged, c.es, CountTo(c.es, c.pos), n, j);
      assert children[i].Valid();
    }

    method FindLargest(ghost n: nat)
      requires Shape() && ReverseCut(n) && n <= |merged|
      modifies this`current
      ensures current.None? <==> n == 0
      ensures current.Some? ==>
          current.value < |children| && children[current.value].Valid()
          && children[current.value].Entry() == merged[n - 1]
    {
      var largest: Option<nat> := None;
      var i := |children|;
      while i > 0
        invariant 0 <= i <= |children|
        invariant largest.Some? ==> i <= largest.value < |children| && children[largest.value].Valid()
        invariant forall k :: i <= k < |children| && children[k].Valid() ==>
                    largest.Some? && !Before(children[largest.value].Entry(), children[k].Entry())
      {
        i := i - 1;
        var child := children[i];
        if child.Valid() {
          if largest.None? {
            largest := Some(i);
          } else if Before(children[largest.value].Entry(), child.Entry()) {
            largest := Some(i);
          }
        }
      }
      current := largest;
      LargestIsBefore(n);
    }

    lemma LargestIsBefore(n: nat)
      requires Shape() && ReverseCut(n) && n <= |merged|
      requires current.Some? ==> current.value < |children| && children[current.value].Valid()
      requires forall k :: 0 <= k < |children| && children[k].Valid() ==>
                    current.Some? && !Before(children[current.value].Entry(), children[k].Entry())
      ensures current.None? <==> n == 0
      ensures current.Some? ==> children[current.value].Entry() == merged[n - 1]
    {
      if n > 0 { AtCutBack(n - 1); }
      forall k | 0 <= k < |children| && children[k].Valid()
        ensures children[k].Entry() in merged && Rank(merged, children[k].Entry()) < n
      {
        assert AllIn(Lists(children)[k], merged);
      }
      if current.Some? && n > 0 {
        RankIs(merged, n - 1);
        RankOrder(merged, children[current.value].Entry(), merged[n - 1]);
      }
    }

    method SeekToFirst()
      requires Valid()
      modifies this, children
      ensures Valid() && pos == 0
    {
      for i := 0 to |children|
        invariant Shape()
        invariant forall k :: 0 <= k < i ==> children[k].pos == 0
      {
        children[i].SeekToFirst();
      }
      assert ForwardCut(0);
      FindSmallest(0);
      direction, pos := Forward, 0;
    }

    method SeekToLast()
      requires Valid()
      modifies this, children
      ensures Valid() && pos == if |merged| == 0 then 0 else |merged| - 1
    {
      for i := 0 to |children|
        invariant Shape()
        invariant forall k :: 0 <= k < i ==> CountTo(children[k].es, children[k].pos) == |children[k].es|
      {
        children[i].SeekToLast();
      }
      forall k | 0 <= k < |children| ensures Cut(merged, children[k].es, |children[k].es|, |merged|) {
        assert AllIn(Lists(children)[k], merged);
        AllBelow(merged, children[k].es);
      }
      assert ReverseCut(|merged|);
      FindLargest(|merged|);
      direction, pos := Reverse, if |merged| == 0 then 0 else |merged| - 1;
    }

    method Seek(u: UserKey, sn: nat)
      requires Valid()
      modifies this, children
      ensures Valid() && pos == SeekIndex(merged, u, sn)
    {
      ghost var n := SeekIndex(merged, u, sn);
      for i := 0 to |children|
        invariant Shape()
        invariant forall k :: 0 <= k < i ==> Cut(merged, children[k].es, children[k].pos, n)
      {
        children[i].Seek(u, sn);
        assert AllIn(Lists(children)[i], merged) && Sorted(Lists(children)[i]);
        SeekKeyCuts(merged, children[i].es, u, sn);
      }
      FindSmallest(n);
      direction, pos := Forward, n;
    }

    /** Only one child holds the current entry. */
    lemma OnlyCurrent(i: nat)
      requires Valid() && current.Some? && i < |children| && i != current.value
      ensures merged[pos] !in children[i].es
    {
      var c := current.value;
      assert Disjoint(Lists(children)[c], Lists(children)[i]);
      assert children[c].es[children[c].pos] in Lists(children)[c];
    }

    /** Puts the other children just past the current entry when the direction changes. */
    method TurnForward()
      requires Valid() && current.Some? && direction == Reverse
      modifies this`direction, children
      ensures Valid() && direction == Forward && pos == old(pos) && current == old(current)
    {
      var c := current.value;
      var key := children[c].Entry();
      for i := 0 to |children|
        invariant Shape() && children[c].pos == old(children[c].pos)
        invariant forall k :: 0 <= k < i && k != c ==> Cut(merged, children[k].es, children[k].pos, pos)
      {
        if i != c {
          assert AllIn(Lists(children)[i], merged) && Sorted(Lists(children)[i]);
          assert merged[pos] !in children[i].es by {
            assert Disjoint(Lists(children)[c], Lists(children)[i]);
            assert key in Lists(children)[c];
          }
          children[i].Seek(key.user, key.sn);
          SeekCuts(merged, children[i].es, key);
          RankIs(merged, pos);
          // Keys are distinct, so the child never stands on an equal key here.
          assert !(children[i].Valid() && children[i].Entry() == key);
        }
      }
      assert Cut(merged, children[c].es, children[c].pos, pos) by {
        assert AllIn(Lists(children)[c], merged) && Sorted(Lists(children)[c]);
        SelfCut(merged, children[c].es, children[c].pos, pos);
      }
      direction := Forward;
    }

    lemma CutsAfterNext()
      requires Valid() && current.Some? && direction == Forward
      ensures forall k :: 0 <= k < |children| ==>
                Cut(merged, children[k].es, children[k].pos + if k == current.value then 1 else 0, pos + 1)
    {
      forall k | 0 <= k < |children|
        ensures Cut(merged, children[k].es, children[k].pos + if k == current.value then 1 else 0, pos + 1)
      {
        assert AllIn(Lists(children)[k], merged) && Sorted(Lists(children)[k]);
        if k != current.value { OnlyCurrent(k); }
        CutMoves(merged, children[k].es, children[k].pos, pos);
      }
    }

    method Next()
      requires Valid() && current.Some?
      modifies this, children
      ensures Valid() && pos == old(pos) + 1
    {
      if direction != Forward { TurnForward(); }
      CutsAfterNext();
      var c := children[current.value];
      StepForward(c);
      FindSmallest(pos + 1);
      pos := pos + 1;
    }

    /** current_->Next(). */
    method StepForward(c: Cursor)
      requires Shape() && current.Some? && current.value < |children| && c == children[current.value] && c.Valid()
      requires forall k :: 0 <= k < |children| ==>
                 Cut(merged, children[k].es, children[k].pos + if k == current.value then 1 else 0, pos + 1)
      modifies c
      ensures Shape() && ForwardCut(pos + 1)
    {
      c.Next();
    }

    /** current_->Prev(). */
    method StepBack(c: Cursor)
      requires Shape() && current.Some? && current.value < |children| && c == children[current.value] && c.Valid()
      requires Cut(merged, c.es, c.pos, pos)
      requires forall k :: 0 <= k < |children| && k != current.value ==>
                 Cut(merged, children[k].es, CountTo(children[k].es, children[k].pos), pos)
      modifies c
      ensures Shape() && ReverseCut(pos)
    {
      c.Prev();
    }

    /** Puts the other children just before the current entry when the direction changes. */
    method TurnBack()
      requires Valid() && current.Some? && direction == Forward
      modifies this`direction, children
      ensures Shape() && direction == Reverse && children[current.value].pos == old(children[current.value].pos)
      ensures forall k :: 0 <= k < |children| && k != current.value ==>
          Cut(merged, children[k].es, CountTo(children[k].es, children[k].pos), pos)
    {
      var c := current.value;
      var key := children[c].Entry();
      RankIs(merged, pos);
      for i := 0 to |children|
        invariant Shape() && children[c].pos == old(children[c].pos)
        invariant forall k :: 0 <= k < i && k != c ==>
            Cut(merged, children[k].es, CountTo(children[k].es, children[k].pos), pos)
      {
        if i != c {
          assert AllIn(Lists(children)[i], merged) && Sorted(Lists(children)[i]);
          SeekCuts(merged, children[i].es, key);
          PlaceBefore(children[i], key);
        }
      }
      direction := Reverse;
    }

    /** Seek to the key, then step back to the entry before it. */
    method PlaceBefore(child: Cursor, key: Entry)
      requires child.Ok()
      modifies child
      ensures child.Ok() && CountTo(child.es, child.pos) == SeekIndex(child.es, key.user, key.sn)
    {
      child.Seek(key.user, key.sn);
      if child.Valid() {
        child.Prev();
      } else {
        child.SeekToLast();
      }
    }

    lemma CutsAfterPrev()
      requires Valid() && current.Some? && direction == Reverse
      ensures forall k :: 0 <= k < |children| && k != current.value ==>
                Cut(merged, children[k].es, CountTo(children[k].es, children[k].pos), pos)
    {
      forall k | 0 <= k < |children| && k != current.value
        ensures Cut(merged, children[k].es, CountTo(children[k].es, children[k].pos), pos)
      {
        OnlyCurrent(k);
        assert AllIn(Lists(children)[k], merged) && Sorted(Lists(children)[k]);
        CutMovesBack(merged, children[k].es, CountTo(children[k].es, children[k].pos), pos);
      }
    }

    lemma CurrentCut()
      requires Valid() && current.Some?
      ensures Cut(merged, children[current.value].es, children[current.value].pos, pos)
    {
      assert AllIn(Lists(children)[current.value], merged) && Sorted(Lists(children)[current.value]);
      SelfCut(merged, children[current.value].es, children[current.value].pos, pos);
    }

    method Prev()
      requires Valid() && current.Some?
      modifies this, children
      ensures Valid() && pos == if old(pos) == 0 then |merged| else old(pos) - 1
    {
      hide Cut, Sorted, AllIn, IsUnion;
      var c := children[current.value];
      CurrentCut();
      if direction != Reverse { TurnBack(); } else { CutsAfterPrev(); }
      StepBack(c);
      FindLargest(pos);
      pos := if pos == 0 then |merged| else pos - 1;
    }
  }

  lemma AllBelow(merged: seq<Entry>, es: seq<Entry>)
    requires Sorted(merged) && AllIn(es, merged)
    ensures Cut(merged, es, |es|, |merged|)
  {
    forall j | 0 <= j < |es| ensures Rank(merged, es[j]) < |merged| { RankOrder(merged, es[j], es[j]); }
  }

  lemma AtOrAfterFrom(es: seq<Entry>, u: UserKey, sn: nat, j: nat)
    requires Sorted(es) && j < |es|
    ensures j < SeekIndex(es, u, sn) <==> !AtOrAfter(es[j], u, sn)
  {
    var p := SeekIndex(es, u, sn);
    if j > p { assert Before(es[p], es[j]); }
  }

  lemma SeekKeyCuts(merged: seq<Entry>, es: seq<Entry>, u: UserKey, sn: nat)
    requires Sorted(merged) && Sorted(es) && AllIn(es, merged)
    ensures Cut(merged, es, SeekIndex(es, u, sn), SeekIndex(merged, u, sn))
  {
    forall j | 0 <= j < |es| ensures j < SeekIndex(es, u, sn) <==> Rank(merged, es[j]) < SeekIndex(merged, u, sn) {
      RankOrder(merged, es[j], es[j]);
      AtOrAfterFrom(es, u, sn, j);
      AtOrAfterFrom(merged, u, sn, Rank(merged, es[j]));
    }
  }

  /** The list holding the current entry is cut at it. */
  lemma SelfCut(merged: seq<Entry>, es: seq<Entry>, p: nat, n: nat)
    requires Sorted(merged) && Sorted(es) && AllIn(es, merged) && p < |es| && n < |merged| && es[p] == merged[n]
    ensures Cut(merged, es, p, n)
  {
    RankIs(merged, n);
    forall j | 0 <= j < |es| ensures j < p <==> Rank(merged, es[j]) < n {
      RankOrder(merged, es[j], es[p]);
      if j < p { assert Before(es[j], es[p]); }
      if j > p { assert Before(es[p], es[j]); }
    }
  }

  lemma HolderOf(lists: seq<seq<Entry>>, merged: seq<Entry>, n: nat) returns (i: nat, j: nat)
    requires IsUnion(lists, merged) && n < |merged|
    ensures i < |lists| && j < |lists[i]| && lists[i][j] == merged[n] && Sorted(lists[i]) && AllIn(lists[i], merged)
  {
    assert InSome(lists, merged[n]);
    i :| 0 <= i < |lists| && merged[n] in lists[i];
    j :| 0 <= j < |lists[i]| && lists[i][j] == merged[n];
  }

  lemma CutStands(merged: seq<Entry>, es: seq<Entry>, p: nat, n: nat, j: nat)
    requires Sorted(merged) && Sorted(es) && n < |merged| && Cut(merged, es, p, n)
    requires j < |es| && es[j] == merged[n] && AllIn(es, merged)
    ensures p == j
  {
    RankIs(merged, n);
    if p < j {
      assert Before(es[p], es[j]);
      RankOrder(merged, es[p], es[j]);
    }
  }

  lemma CutStandsBack(merged: seq<Entry>, es: seq<Entry>, p: nat, n: nat, j: nat)
    requires Sorted(merged) && Sorted(es) && n < |merged| && Cut(merged, es, p, n + 1)
    requires j < |es| && es[j] == merged[n] && AllIn(es, merged)
    ensures p == j + 1
  {
    RankIs(merged, n);
    if j + 1 < p {
      assert Before(es[j], es[j + 1]);
      RankOrder(merged, es[j], es[j + 1]);
    }
  }

  function Lists(children: seq<Cursor>): seq<seq<Entry>> {
    seq(|children|, i requires 0 <= i < |children| => children[i].es)
  }
}
