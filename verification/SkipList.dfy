/** The memtable's skip list, and readers that search it while one writer is inserting. */
module SkipList {
  const MAX_HEIGHT: nat := 12

  /** Memory as a reader may find it.  Node 0 is the head, pointer 0 is null.  Node n is linked on its
    lowest linked[n] levels. */
  datatype Mem = Mem(keys: seq<int>, next: seq<seq<nat>>, linked: seq<nat>, maxHeight: nat)

  ghost predicate Shape(m: Mem) {
    && |m.keys| == |m.next| == |m.linked| > 0
    && |m.next[0]| == MAX_HEIGHT == m.linked[0]
    && (forall n :: 0 <= n < |m.keys| ==> m.linked[n] <= |m.next[n]| <= MAX_HEIGHT)
    && 1 <= m.maxHeight <= MAX_HEIGHT
  }

  ghost predicate On(m: Mem, n: nat, l: nat)
    requires |m.keys| == |m.linked|
  {
    n < |m.keys| && l < m.linked[n]
  }

  /** The key of node n is smaller than k; the head is smaller than everything. */
  ghost predicate Less(m: Mem, n: nat, k: int)
    requires n < |m.keys|
  {
    n == 0 || m.keys[n] < k
  }

  /** On level l nothing lies between n and p, and p is after n; null is after everything. */
  ghost predicate IsNext(m: Mem, n: nat, l: nat, p: nat)
    requires |m.keys| == |m.linked| && n < |m.keys|
  {
    && (p != 0 ==> On(m, p, l) && Less(m, n, m.keys[p]))
    && forall q :: q > 0 && On(m, q, l) && Less(m, n, m.keys[q]) ==> p != 0 && m.keys[p] <= m.keys[q]
  }

  /** Every level is the sorted list of the nodes linked on it. */
  ghost predicate LevelsOk(m: Mem)
    requires Shape(m)
  {
    forall n: nat, l: nat :: On(m, n, l) ==> IsNext(m, n, l, m.next[n][l])
  }

  ghost predicate KeysDiffer(m: Mem) {
    forall i, j :: 0 < i < j < |m.keys| ==> m.keys[i] != m.keys[j]
  }

  ghost predicate MemInv(m: Mem) { Shape(m) && LevelsOk(m) && KeysDiffer(m) }

  /** The keys in the list: those linked on the lowest level. */
  ghost function Keys(m: Mem): set<int>
    requires Shape(m)
  {
    set n | 0 < n < |m.keys| && m.linked[n] > 0 :: m.keys[n]
  }

  // ----- the writer's stores, one at a time

  function WithPointer<T>(rows: seq<seq<T>>, n: nat, l: nat, p: T): seq<seq<T>>
    requires n < |rows| && l < |rows[n]|
  {
    rows[n := rows[n][l := p]]
  }

  /** The store that publishes x on level i. */
  ghost function Linked(m: Mem, x: nat, i: nat, prev: nat): Mem
    requires Shape(m) && x < |m.keys| && prev < |m.keys| && i < |m.next[prev]|
  {
    m.(next := WithPointer(m.next, prev, i, x), linked := m.linked[x := i + 1])
  }

  /** x may be published on level i behind prev. */
  ghost predicate Linkable(m: Mem, x: nat, i: nat, prev: nat) {
    && MemInv(m) && 0 < x < |m.keys| && m.linked[x] == i < |m.next[x]| && i < MAX_HEIGHT
    && On(m, prev, i) && Less(m, prev, m.keys[x])
    && m.next[x][i] == m.next[prev][i] && (m.next[x][i] != 0 ==> m.keys[x] < m.keys[m.next[x][i]])
  }

  lemma LinkOtherLevel(m: Mem, x: nat, i: nat, prev: nat, n: nat, l: nat)
    requires Linkable(m, x, i, prev) && l != i && On(m, n, l)
    ensures var m' := Linked(m, x, i, prev); IsNext(m', n, l, m'.next[n][l])
  {
    var m' := Linked(m, x, i, prev);
    assert forall q :: 0 <= q < |m.keys| ==> (On(m', q, l) <==> On(m, q, l));
    assert IsNext(m, n, l, m.next[n][l]);
  }

  /** On the level of the store only the new node was added, and n's successor is x, or what it was. */
  lemma LinkSameLevel(m: Mem, x: nat, i: nat, prev: nat, n: nat)
    requires Linkable(m, x, i, prev) && (On(m, n, i) || n == x)
    ensures var m' := Linked(m, x, i, prev); IsNext(m', n, i, m'.next[n][i])
  {
    var m' := Linked(m, x, i, prev);
    assert forall q :: 0 <= q < |m.keys| && q != x ==> (On(m', q, i) <==> On(m, q, i));
    assert IsNext(m, prev, i, m.next[prev][i]);
    if n != prev && n != x {
      assert IsNext(m, n, i, m.next[n][i]) && m'.next[n][i] == m.next[n][i];
      if Less(m, n, m.keys[x]) && (n == 0 || (prev != 0 && m.keys[n] < m.keys[prev])) {
        assert On(m, prev, i) && Less(m, n, m.keys[prev]);
      }
    }
  }

  /** After the store every level is still the sorted list of the nodes linked on it. */
  lemma LinkKeepsInv(m: Mem, x: nat, i: nat, prev: nat)
    requires Linkable(m, x, i, prev)
    ensures MemInv(Linked(m, x, i, prev))
    ensures Keys(Linked(m, x, i, prev)) == Keys(m) + {m.keys[x]}
  {
    var m' := Linked(m, x, i, prev);
    forall n: nat, l: nat | On(m', n, l) ensures IsNext(m', n, l, m'.next[n][l]) {
      if l == i { LinkSameLevel(m, x, i, prev, n); } else { LinkOtherLevel(m, x, i, prev, n, l); }
    }
    forall k | k in Keys(m') ensures k in Keys(m) + {m.keys[x]} {
      var n :| 0 < n < |m'.keys| && m'.linked[n] > 0 && m'.keys[n] == k;
    }
    forall k | k in Keys(m) + {m.keys[x]} ensures k in Keys(m') {
      if k == m.keys[x] {
        assert m'.linked[x] > 0;
      } else {
        var n :| 0 < n < |m.keys| && m.linked[n] > 0 && m.keys[n] == k;
        assert m'.linked[n] > 0;
      }
    }
  }

  /** Stores to a node on a level where it is not linked are seen by nobody. */
  lemma PrivateStoreKeepsInv(m: Mem, x: nat, i: nat, p: nat)
    requires MemInv(m) && 0 < x < |m.keys| && m.linked[x] <= i < |m.next[x]|
    ensures MemInv(m.(next := WithPointer(m.next, x, i, p)))
        && Keys(m.(next := WithPointer(m.next, x, i, p))) == Keys(m)
  {
    var m' := m.(next := WithPointer(m.next, x, i, p));
    forall n: nat, l: nat | On(m', n, l) ensures IsNext(m', n, l, m'.next[n][l]) {
      assert On(m, n, l) && IsNext(m, n, l, m.next[n][l]);
      assert m'.next[n][l] == m.next[n][l];
    }
    assert Keys(m') == Keys(m);
  }

  lemma NewNodeKeepsInv(m: Mem, k: int, height: nat)
    requires MemInv(m) && height <= MAX_HEIGHT && forall n :: 0 < n < |m.keys| ==> m.keys[n] != k
    ensures var m' := Mem(m.keys + [k], m.next + [seq(height, i => 0)], m.linked + [0], m.maxHeight);
        MemInv(m') && Keys(m') == Keys(m)
  {
    var m' := Mem(m.keys + [k], m.next + [seq(height, i => 0)], m.linked + [0], m.maxHeight);
    forall n: nat, l: nat | On(m', n, l) ensures IsNext(m', n, l, m'.next[n][l]) {
      assert On(m, n, l) && IsNext(m, n, l, m.next[n][l]);
    }
    forall x | x in Keys(m) ensures x in Keys(m') {
      var n :| 0 < n < |m.keys| && m.linked[n] > 0 && m.keys[n] == x;
      assert m'.keys[n] == x && m'.linked[n] > 0;
    }
  }

  // ----- readers

  /** A reader's position, or the node it found (0 for none). */
  datatype Reader = At(x: nat, level: nat) | Found(node: nat)

  /** One pointer read of FindGreaterOrEqual; from a node without a pointer on that level it would read anything. */
  ghost function ReadStep(m: Mem, r: Reader, target: int): Reader
    requires Shape(m) && r.At?
  {
    var next := if r.x < |m.next| && r.level < |m.next[r.x]| then m.next[r.x][r.level] else 0;
    if next != 0 && next < |m.keys| && m.keys[next] < target then At(next, r.level)
    else if r.level == 0 then Found(next)
    else At(r.x, r.level - 1)
  }

  ghost predicate ReaderOk(m: Mem, r: Reader, target: int)
    requires |m.keys| == |m.linked|
  {
    r.At? ==> On(m, r.x, r.level) && Less(m, r.x, target)
  }

  /** What any number of the writer's stores can do. */
  ghost predicate Grows(m: Mem, m': Mem) {
    && |m.linked| == |m.keys| && |m'.linked| == |m'.keys| && m.keys <= m'.keys && m.maxHeight <= m'.maxHeight
    && forall n :: 0 <= n < |m.keys| ==> m.linked[n] <= m'.linked[n]
  }

  lemma ReaderSurvives(m: Mem, m': Mem, r: Reader, target: int)
    requires Grows(m, m') && ReaderOk(m, r, target)
    ensures ReaderOk(m', r, target)
  {
  }

  /** The node found is the first one at or after the target among all nodes linked at that moment. */
  ghost predicate FirstAtOrAfter(m: Mem, node: nat, target: int)
    requires Shape(m)
  {
    && (node != 0 ==> On(m, node, 0) && m.keys[node] >= target)
    && forall q :: q > 0 && On(m, q, 0) && m.keys[q] >= target ==> node != 0 && m.keys[node] <= m.keys[q]
  }

  lemma ReadStepOk(m: Mem, r: Reader, target: int)
    requires MemInv(m) && r.At? && ReaderOk(m, r, target)
    ensures var r' := ReadStep(m, r, target); ReaderOk(m, r', target) && (r'.Found? ==>
        FirstAtOrAfter(m, r'.node, target))
  {
    assert IsNext(m, r.x, r.level, m.next[r.x][r.level]);
  }

  /** Memories after each store, oldest first. */
  ghost predicate IsTrace(trace: seq<Mem>) {
    && (forall i :: 0 <= i < |trace| ==> MemInv(trace[i]))
    && forall i, j :: 0 <= i <= j < |trace| ==> Grows(trace[i], trace[j])
  }

  /** A search whose reads happen at the given moments, with any number of stores between two reads; it starts
    at the top level of some earlier or current height. */
  ghost predicate Search(trace: seq<Mem>, times: seq<nat>, states: seq<Reader>, target: int) {
    && IsTrace(trace) && |states| == |times| + 1 && times != []
    && (forall i, j :: 0 <= i <= j < |times| ==> times[i] <= times[j] < |trace|)
    && states[0].At? && states[0].x == 0 && states[0].level < trace[times[0]].maxHeight
    && forall i :: 0 <= i < |times| ==> states[i].At? && states[i + 1] == ReadStep(trace[times[i]], states[i], target)
  }

  /** At every read the searching position is a node linked on its level, before the target. */
  lemma {:induction false} SearchOk(trace: seq<Mem>, times: seq<nat>, states: seq<Reader>, target: int, i: nat)
    requires Search(trace, times, states, target) && i < |times|
    ensures ReaderOk(trace[times[i]], states[i], target)
  {
    hide LevelsOk, KeysDiffer, Grows, ReadStep;
    if i > 0 {
      SearchOk(trace, times, states, target, i - 1);
      ReadStepOk(trace[times[i - 1]], states[i - 1], target);
      ReaderSurvives(trace[times[i - 1]], trace[times[i]], states[i], target);
    }
  }

  /** A search that runs while the writer inserts finds a node at or after the target and misses no key that
    was in the list when it began. */
  lemma ConcurrentSearch(trace: seq<Mem>, times: seq<nat>, states: seq<Reader>, target: int)
    requires Search(trace, times, states, target) && states[|times|].Found?
    ensures var end := trace[times[|times| - 1]]; FirstAtOrAfter(end, states[|times|].node, target)
    ensures var end := trace[times[|times| - 1]]; var node := states[|times|].node;
            forall k :: k in Keys(trace[times[0]]) && k >= target ==> node != 0 && target <= end.keys[node] <= k
  {
    var n := |times| - 1;
    SearchOk(trace, times, states, target, n);
    ReadStepOk(trace[times[n]], states[n], target);
    var first, end, node := trace[times[0]], trace[times[n]], states[|times|].node;
    assert Grows(first, end);
    forall k | k in Keys(first) && k >= target ensures node != 0 && target <= end.keys[node] <= k {
      var q :| 0 < q < |first.keys| && first.linked[q] > 0 && first.keys[q] == k;
      assert On(end, q, 0) && end.keys[q] == k;
    }
  }

  // ----- the list itself

  class List {
    var keys: seq<int>
    var next: seq<seq<nat>>
    var maxHeight: nat
    ghost var linked: seq<nat>
    ghost var trace: seq<Mem>        // memory after every store so far

    ghost function Now(): Mem
      reads this
    {
      Mem(keys, next, linked, maxHeight)
    }

    ghost predicate Traced()
      reads this
    {
      MemInv(Now()) && IsTrace(trace) && trace != [] && trace[|trace| - 1] == Now()
    }

    /** Between calls every node is linked on all its levels. */
    ghost predicate Valid()
      reads this
    {
      && Traced()
      && forall n :: 0 < n < |keys| ==> 0 < linked[n] == |next[n]| <= maxHeight
    }

    constructor ()
      ensures Valid() && Keys(Now()) == {}
    {
      keys, next, maxHeight := [0], [seq(MAX_HEIGHT, i => 0)], 1;
      linked := [MAX_HEIGHT];
      trace := [Mem([0], [seq(MAX_HEIGHT, i => 0)], [MAX_HEIGHT], 1)];
    }

    /** What the search leaves in prev on a level: the last node before the key. */
    ghost predicate LastBefore(l: nat, x: nat, key: int)
      reads this
    {
      && MemInv(Now()) && On(Now(), x, l) && Less(Now(), x, key)
      && (next[x][l] != 0 ==> next[x][l] < |keys| && keys[next[x][l]] >= key)
    }

    ghost function Later(x: nat): set<nat>
      requires x < |keys|
      reads this
    {
      set n | 0 < n < |keys| && (x == 0 || keys[x] < keys[n])
    }

    lemma Closer(x: nat, y: nat)
      requires x < |keys| && 0 < y < |keys| && (x == 0 || keys[x] < keys[y])
      ensures |Later(y)| < |Later(x)|
    {
      assert y in Later(x) && y !in Later(y);
      Smaller(Later(y), Later(x), y);
    }

    method FindGreaterOrEqual(key: int) returns (x: nat, prev: seq<nat>)
      requires Valid()
      ensures FirstAtOrAfter(Now(), x, key)
      ensures |prev| == MAX_HEIGHT && forall l: nat :: l < maxHeight ==> LastBefore(l, prev[l], key)
    {
      prev := seq(MAX_HEIGHT, i => 0);
      x := 0;
      var level: nat := maxHeight - 1;
      while true
        invariant level < maxHeight && |prev| == MAX_HEIGHT && On(Now(), x, level) && Less(Now(), x, key)
        invariant forall l: nat :: level < l < maxHeight ==> LastBefore(l, prev[l], key)
        decreases level, |Later(x)|
      {
        assert IsNext(Now(), x, level, next[x][level]);
        var nextNode := next[x][level];
        if nextNode != 0 && keys[nextNode] < key {
          Closer(x, nextNode);
          x := nextNode;
        } else {
          prev := prev[level := x];
          if level == 0 {
            x := nextNode;
            return;
          } else {
            level := level - 1;
          }
        }
      }
    }

    method FindLessThan(key: int) returns (x: nat)
      requires Valid()
      ensures x < |keys| && Less(Now(), x, key) && On(Now(), x, 0)
      ensures forall k :: k in Keys(Now()) && k < key ==> x != 0 && k <= keys[x]
    {
      x := 0;
      var level: nat := maxHeight - 1;
      while true
        invariant level < maxHeight && On(Now(), x, level) && Less(Now(), x, key)
        decreases level, |Later(x)|
      {
        assert IsNext(Now(), x, level, next[x][level]);
        var nextNode := next[x][level];
        if nextNode == 0 || keys[nextNode] >= key {
          if level == 0 {
            forall k | k in Keys(Now()) && k < key ensures x != 0 && k <= keys[x] {
              var q :| 0 < q < |keys| && linked[q] > 0 && keys[q] == k;
              assert On(Now(), q, 0);
            }
            return;
          } else {
            level := level - 1;
          }
        } else {
          Closer(x, nextNode);
          x := nextNode;
        }
      }
    }

    method FindLast() returns (x: nat)
      requires Valid()
      ensures x < |keys| && On(Now(), x, 0)
      ensures forall k :: k in Keys(Now()) ==> x != 0 && k <= keys[x]
    {
      x := 0;
      var level: nat := maxHeight - 1;
      while true
        invariant level < maxHeight && On(Now(), x, level)
        decreases level, |Later(x)|
      {
        assert IsNext(Now(), x, level, next[x][level]);
        var nextNode := next[x][level];
        if nextNode == 0 {
          if level == 0 {
            forall k | k in Keys(Now()) ensures x != 0 && k <= keys[x] {
              var q :| 0 < q < |keys| && linked[q] > 0 && keys[q] == k;
              assert On(Now(), q, 0);
            }
            return;
          } else {
            level := level - 1;
          }
        } else {
          Closer(x, nextNode);
          x := nextNode;
        }
      }
    }

    method Contains(key: int) returns (found: bool)
      requires Valid()
      ensures found <==> key in Keys(Now())
    {
      var x, prev := FindGreaterOrEqual(key);
      found := x != 0 && keys[x] == key;
      if key in Keys(Now()) {
        var q :| 0 < q < |keys| && linked[q] > 0 && keys[q] == key;
        assert On(Now(), q, 0);
      }
    }

    // ----- stores

    method SetMaxHeight(h: nat)
      requires Traced() && maxHeight <= h <= MAX_HEIGHT
      modifies this
      ensures Traced() && Now() == old(Now()).(maxHeight := h) && old(trace) <= trace && Keys(Now()) == old(Keys(Now()))
    {
      HeightKeepsInv(Now(), h);
      ExtendTrace(trace, Now().(maxHeight := h));
      maxHeight := h;
      trace := trace + [Now()];
    }

    method NewNode(key: int, height: nat)
      requires Traced() && 1 <= height <= MAX_HEIGHT && forall n :: 0 < n < |keys| ==> keys[n] != key
      modifies this
      ensures Traced() && old(trace) <= trace && Keys(Now()) == old(Keys(Now()))
      ensures Now() == Mem(old(keys) + [key], old(next) + [seq(height, i => 0)], old(linked) + [0], old(maxHeight))
    {
      NewNodeKeepsInv(Now(), key, height);
      ExtendTrace(trace, Mem(keys + [key], next + [seq(height, i => 0)], linked + [0], maxHeight));
      keys, next, linked := keys + [key], next + [seq(height, i => 0)], linked + [0];
      trace := trace + [Now()];
    }

    method NoBarrierSetNext(x: nat, i: nat, p: nat)
      requires Traced() && 0 < x < |keys| && linked[x] <= i < |next[x]|
      modifies this
      ensures Traced() && old(trace) <= trace && Keys(Now()) == old(Keys(Now()))
      ensures Now() == old(Now()).(next := WithPointer(old(next), x, i, p))
    {
      PrivateStoreKeepsInv(Now(), x, i, p);
      ExtendTrace(trace, Now().(next := WithPointer(next, x, i, p)));
      next := WithPointer(next, x, i, p);
      trace := trace + [Now()];
    }

    method SetNext(prev: nat, i: nat, x: nat)
      requires Traced() && Linkable(Now(), x, i, prev)
      modifies this
      ensures Traced() && old(trace) <= trace && Keys(Now()) == old(Keys(Now())) + {keys[x]}
      ensures Now() == Linked(old(Now()), x, i, prev)
    {
      LinkKeepsInv(Now(), x, i, prev);
      ExtendTrace(trace, Linked(Now(), x, i, prev));
      next := WithPointer(next, prev, i, x);
      linked := linked[x := i + 1];
      trace := trace + [Now()];
    }

    // ----- insertion

    lemma PrevStays(l: nat, x: nat, key: int, before: Mem)
      requires MemInv(Now()) && MemInv(before) && On(before, x, l) && Less(before, x, key)
      requires before.next[x][l] != 0 ==> before.next[x][l] < |before.keys| && before.keys[before.next[x][l]] >= key
      requires Grows(before, Now()) && x < |next| && l < |next[x]| && next[x][l] == before.next[x][l]
      ensures LastBefore(l, x, key)
    {
      hide MemInv;
    }

    /** Levels above the list's height hold only the head. */
    method RaiseHeight(prev: seq<nat>, height: nat, key: int) returns (p: seq<nat>)
      requires Valid() && |prev| == MAX_HEIGHT && height <= MAX_HEIGHT
      requires forall l: nat :: l < maxHeight ==> LastBefore(l, prev[l], key)
      modifies this
      ensures Valid() && |p| == MAX_HEIGHT && height <= maxHeight && old(trace) <= trace
          && Keys(Now()) == old(Keys(Now()))
      ensures keys == old(keys) && forall l: nat :: l < height ==> LastBefore(l, p[l], key)
    {
      hide LevelsOk, KeysDiffer, IsTrace;
      p := prev;
      if height > maxHeight {
        var i := maxHeight;
        while i < height
          invariant maxHeight <= i <= height && |p| == MAX_HEIGHT
          invariant forall l: nat :: l < i ==> LastBefore(l, p[l], key)
          modifies {}
        {
          EmptyLevel(i, key);
          p := p[i := 0];
          i := i + 1;
        }
        SetMaxHeight(height);
        forall l: nat | l < height ensures LastBefore(l, p[l], key) {
          assert old(LastBefore(l, p[l], key));
          PrevStays(l, p[l], key, old(Now()));
        }
      }
    }

    method AddNode(prev: seq<nat>, height: nat, key: int)
      requires Valid() && |prev| == MAX_HEIGHT && 1 <= height <= maxHeight && key !in Keys(Now())
      requires forall l: nat :: l < height ==> LastBefore(l, prev[l], key)
      modifies this
      ensures Traced() && old(trace) <= trace && Keys(Now()) == old(Keys(Now()))
      ensures |keys| == old(|keys|) + 1 && keys[|keys| - 1] == key && |next[|keys| - 1]| == height <= maxHeight
          && linked[|keys| - 1] == 0
      ensures forall n :: 0 < n < |keys| - 1 ==> 0 < linked[n] == |next[n]| <= maxHeight
      ensures forall l: nat :: l < height ==> LastBefore(l, prev[l], key) && prev[l] < |keys| - 1
    {
      Fresh(key);
      NewNode(key, height);
      hide LevelsOk, KeysDiffer, IsTrace;
      forall l: nat | l < height ensures LastBefore(l, prev[l], key) {
        assert old(LastBefore(l, prev[l], key));
        PrevStays(l, prev[l], key, old(Now()));
      }
    }

    /** The new node is linked level by level from the bottom; readers may run between any two stores. */
    method Insert(key: int, height: nat)
      requires Valid() && 1 <= height <= MAX_HEIGHT && key !in Keys(Now())
      modifies this
      ensures Valid() && Keys(Now()) == old(Keys(Now())) + {key}
      ensures old(trace) <= trace && |keys| == old(|keys|) + 1 && keys[|keys| - 1] == key
      ensures |next| == |keys| && |next[|keys| - 1]| == height
    {
      hide LevelsOk, KeysDiffer, IsTrace, LastBefore, Keys;
      var x, prev := FindGreaterOrEqual(key);
      prev := RaiseHeight(prev, height, key);
      AddNode(prev, height, key);
      ghost var node := |keys| - 1;
      var i := 0;
      while i < height
        invariant i <= height && Traced() && old(trace) <= trace
        invariant |keys| == node + 1 && keys[node] == key && |next[node]| == height <= maxHeight && linked[node] == i
        invariant forall n :: 0 < n < node ==> 0 < linked[n] == |next[n]| <= maxHeight
        invariant forall l: nat :: i <= l < height ==> LastBefore(l, prev[l], key) && prev[l] < node
        invariant Keys(Now()) == old(Keys(Now())) + if i > 0 then {key} else {}
      {
        LinkLevel(|keys| - 1, i, prev, height, key);
        i := i + 1;
      }
    }

    method LinkLevel(node: nat, i: nat, prev: seq<nat>, height: nat, key: int)
      requires Traced() && |prev| == MAX_HEIGHT && i < height <= MAX_HEIGHT && 0 < node < |keys| && keys[node] == key
          && |next[node]| == height && linked[node] == i
      requires forall l: nat :: i <= l < height ==> LastBefore(l, prev[l], key) && prev[l] < node
      modifies this
      ensures Traced() && old(trace) <= trace && keys == old(keys) && maxHeight == old(maxHeight)
          && linked == old(linked)[node := i + 1]
      ensures |next| == old(|next|) && forall n :: 0 <= n < |next| ==> |next[n]| == old(|next[n]|)
      ensures forall l: nat :: i < l < height ==> LastBefore(l, prev[l], key)
      ensures Keys(Now()) == old(Keys(Now())) + {key}
    {
      assert LastBefore(i, prev[i], key);
      NoBarrierSetNext(node, i, next[prev[i]][i]);
      KeysUnlike(node, prev[i], i, key);
      SetNext(prev[i], i, node);
      forall l: nat | i < l < height ensures LastBefore(l, prev[l], key) {
        PrevStays(l, prev[l], key, old(Now()));
      }
    }

    lemma KeysUnlike(node: nat, x: nat, i: nat, key: int)
      requires MemInv(Now()) && 0 < node < |keys| && keys[node] == key && On(Now(), x, i)
      requires next[x][i] != 0 ==> next[x][i] < |keys| && keys[next[x][i]] >= key && next[x][i] != node
      ensures next[x][i] != 0 ==> keys[next[x][i]] > key
    {
      assert KeysDiffer(Now());
    }

    lemma Fresh(key: int)
      requires Valid() && key !in Keys(Now())
      ensures forall n :: 0 < n < |keys| ==> keys[n] != key
    {
      forall n | 0 < n < |keys| ensures keys[n] != key {
        assert linked[n] > 0 ==> keys[n] in Keys(Now());
      }
    }

    /** Above the height of the list there is only the head. */
    lemma EmptyLevel(l: nat, key: int)
      requires Valid() && maxHeight <= l < MAX_HEIGHT
      ensures LastBefore(l, 0, key)
    {
      assert IsNext(Now(), 0, l, next[0][l]);
    }
  }

  lemma HeightKeepsInv(m: Mem, h: nat)
    requires MemInv(m) && m.maxHeight <= h <= MAX_HEIGHT
    ensures MemInv(m.(maxHeight := h)) && Keys(m.(maxHeight := h)) == Keys(m)
  {
    var m' := m.(maxHeight := h);
    forall n: nat, l: nat | On(m', n, l) ensures IsNext(m', n, l, m'.next[n][l]) {
      assert On(m, n, l) && IsNext(m, n, l, m.next[n][l]);
    }
  }

  lemma ExtendTrace(trace: seq<Mem>, m: Mem)
    requires IsTrace(trace) && trace != [] && MemInv(m) && Grows(trace[|trace| - 1], m)
    ensures IsTrace(trace + [m])
  {
    hide MemInv;
    var t := trace + [m];
    forall i, j | 0 <= i <= j < |t| ensures Grows(t[i], t[j]) {
      if j == |trace| && i < |trace| {
        assert Grows(trace[i], trace[|trace| - 1]);
      }
    }
  }

  lemma Smaller(a: set<nat>, b: set<nat>, y: nat)
    requires a <= b && y in b && y !in a
    ensures |a| < |b|
  {
    SmallerOrEqual(a, b - {y});
  }

  lemma {:induction false} SmallerOrEqual(a: set<nat>, b: set<nat>)
    requires a <= b
    ensures |a| <= |b|
  {
    if a != {} {
      var y :| y in a;
      SmallerOrEqual(a - {y}, b - {y});
    }
  }
}
