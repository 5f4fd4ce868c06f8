/** The block cache over whole runs of calls: references as clients count them, and who is evicted first. */
module LruRuns {
  import opened Options
  import opened HandleTable
  import opened LruCache

  datatype Run = Run(shards: seq<Shard>, calls: seq<Call>, results: seq<Option<nat>>)

  ghost predicate IsRun(r: Run, capacity: nat) {
    && |r.calls| == |r.results| && |r.shards| == |r.calls| + 1 && r.shards[0] == NO_HANDLES
    && forall i :: 0 <= i < |r.calls| ==> Does(r.shards[i], r.shards[i + 1], r.calls[i], r.results[i], capacity)
  }

  // ----- what clients can tell from the calls alone

  function Given(call: Call, e: nat): nat { if call == DoRelease(e) then 1 else 0 }

  /** How often the first n calls handed e out, less how often it was released. */
  function Held(r: Run, n: nat, e: nat): int
    requires n <= |r.calls| == |r.results|
  {
    if n == 0 then 0 else
      Held(r, n - 1, e) + (if r.results[n - 1] == Some(e) then 1 else 0) - Given(r.calls[n - 1], e)
  }

  /** One more than the latest of the first n calls that gave back the last reference to e. */
  function FreedAt(r: Run, n: nat, e: nat): (t: nat)
    requires n <= |r.calls| == |r.results|
    ensures t <= n
  {
    if n == 0 then 0
    else if r.calls[n - 1] == DoRelease(e) && Held(r, n, e) == 0 then n
    else FreedAt(r, n - 1, e)
  }

  /** In the cache and held by no client. */
  ghost predicate Idle(a: Shard, e: nat) { e in a.handles && a.handles[e].inCache && a.handles[e].refs == 1 }

  ghost predicate Precedes(s: seq<nat>, x: nat, y: nat) { exists i, j :: 0 <= i < j < |s| && s[i] == x && s[j] == y }

  // ----- one call

  /** A list that kept some of the elements of another, in their order. */
  ghost predicate Thinned(t: seq<nat>, s: seq<nat>) { forall x, y :: Precedes(t, x, y) ==> Precedes(s, x, y) }

  lemma {:induction false} WithoutThins(s: seq<nat>, e: nat)
    ensures Thinned(Without(s, e), s)
    decreases s
  {
    if s != [] && s[0] != e {
      var t := Without(s[1..], e);
      WithoutThins(s[1..], e);
      WithoutWithin(s[1..], e);
      forall x, y | Precedes([s[0]] + t, x, y) ensures Precedes(s, x, y) {
        var i, j :| 0 <= i < j < |t| + 1 && ([s[0]] + t)[i] == x && ([s[0]] + t)[j] == y;
        assert t[j - 1] == y;
        if i == 0 {
          assert y in s[1..];
          var k :| 0 <= k < |s| - 1 && s[1..][k] == y;
          assert s[k + 1] == y;
        } else {
          assert t[i - 1] == x && Precedes(t, x, y);
          var k, l :| 0 <= k < l < |s| - 1 && s[1..][k] == x && s[1..][l] == y;
          assert s[k + 1] == x && s[l + 1] == y;
        }
      }
    } else if s != [] {
      TailThins(s, 1);
    }
  }

  lemma {:induction false} WithoutWithin(s: seq<nat>, e: nat)
    ensures forall x :: x in Without(s, e) ==> x in s
    decreases s
  {
    if s != [] && s[0] != e { WithoutWithin(s[1..], e); }
  }

  lemma TailThins(s: seq<nat>, k: nat)
    requires k <= |s|
    ensures Thinned(s[k..], s)
  {
    forall x, y | Precedes(s[k..], x, y) ensures Precedes(s, x, y) {
      var i, j :| 0 <= i < j < |s| - k && s[k..][i] == x && s[k..][j] == y;
      assert s[i + k] == x && s[j + k] == y;
    }
  }

  lemma ThinsAgain(a: seq<nat>, b: seq<nat>, c: seq<nat>)
    requires Thinned(a, b) && Thinned(b, c)
    ensures Thinned(a, c)
  {
  }

  lemma ErasedThins(a: Shard, e: nat)
    requires e in a.handles && a.handles[e].refs > 0 && a.handles[e].charge <= a.usage
    ensures Thinned(FinishErase(a, e).lru, a.lru)
  {
    WithoutThins(a.lru, e);
  }

  lemma EnteredThins(a: Shard, c: Shard, key: Key, hash: nat, charge: nat, r: Option<nat>)
    requires Entered(a, c, key, hash, charge, r)
    ensures Thinned(c.lru, a.lru)
  {
    if r.Some? { ErasedThins(Cached(a, key, hash, charge), r.value); }
  }

  lemma InsertedThins(a: Shard, b: Shard, key: Key, hash: nat, charge: nat, capacity: nat)
    requires Inserted(a, b, key, hash, charge, capacity)
    ensures Thinned(b.lru, a.lru)
  {
    var c := if capacity > 0 then var c, r :| Entered(a, c, key, hash, charge, r) && JustEnough(c, b, capacity); c
             else Uncounted(a, key, hash, charge);
    if capacity > 0 {
      var r :| Entered(a, c, key, hash, charge, r);
      EnteredThins(a, c, key, hash, charge, r);
    }
    var k :| EnoughAfter(c, b, capacity, k);
    hide Entered, Inserted, JustEnough, Thinned;
    TailThins(c.lru, k);
    ThinsAgain(b.lru, c.lru, a.lru);
  }

  // ----- a call and the references of clients

  /** Clients gain a reference to what a call returns and lose one to what they release. */
  ghost predicate Counts(a: Shard, b: Shard, call: Call, r: Option<nat>) {
    forall e: nat :: Outside(b, e) == Outside(a, e) + (if r == Some(e) then 1 else 0) - Given(call, e)
  }

  ghost predicate SameOutside(a: Shard, b: Shard) { forall e: nat :: Outside(b, e) == Outside(a, e) }

  lemma ErasedOutside(a: Shard, e: nat)
    requires ShardInv(a) && e in a.handles && a.handles[e].inCache && a.handles[e].refs > 0
        && a.handles[e].charge <= a.usage
    ensures SameOutside(a, FinishErase(a, e)) && ShardInv(FinishErase(a, e))
  {
    FinishEraseKeepsInv(a, e);
    hide ShardInv;
  }

  lemma {:induction false} EvictedKeepsInv(a: Shard, k: nat)
    requires ShardInv(a) && k <= |a.lru|
    ensures Charges(a.lru[..k], a.handles) <= a.usage && ShardInv(Evicted(a, k)) && SameOutside(a, Evicted(a, k))
    decreases k
  {
    EvictedFits(a, k);
    hide ShardInv, Evicted;
    if k == 0 {
      EvictedZero(a);
    } else {
      EvictedKeepsInv(a, k - 1);
      EvictedOneMore(a, k);
    }
  }

  lemma EvictedOneMore(a: Shard, k: nat)
    requires ShardInv(a) && 0 < k <= |a.lru|
    requires Charges(a.lru[..k - 1], a.handles) <= a.usage && ShardInv(Evicted(a, k - 1))
        && SameOutside(a, Evicted(a, k - 1))
    ensures Charges(a.lru[..k], a.handles) <= a.usage && ShardInv(Evicted(a, k)) && SameOutside(a, Evicted(a, k))
  {
    EvictedFits(a, k);
    EvictedNext(a, k - 1);
    hide ShardInv, Evicted, Outside, Charges;
    OldestErased(Evicted(a, k - 1));
  }

  lemma EvictedZero(a: Shard)
    ensures Evicted(a, 0) == a
  {
    assert a.lru[..0] == [] && a.lru[0..] == a.lru && a.deleted + [] == a.deleted && Ids([]) == {};
  }

  lemma OldestErased(b: Shard)
    requires ShardInv(b) && b.lru != []
    ensures Charges(b.lru[..1], b.handles) <= b.usage && ShardInv(Evicted(b, 1)) && SameOutside(b, Evicted(b, 1))
  {
    FinishEraseOldest(b);
    assert b.lru[0] in b.lru && b.handles[b.lru[0]].inCache;
    ErasedOutside(b, b.lru[0]);
    hide ShardInv, Evicted, FinishErase;
  }

  lemma CachedOutside(a: Shard, key: Key, hash: nat, charge: nat)
    requires ShardInv(a)
    ensures Counts(a, Cached(a, key, hash, charge), DoInsert(key, hash, charge), Some(a.next))
        && ShardInv(Cached(a, key, hash, charge))
    ensures Counts(a, Uncounted(a, key, hash, charge), DoInsert(key, hash, charge), Some(a.next))
        && ShardInv(Uncounted(a, key, hash, charge))
  {
    CachedKeepsInv(a, key, hash, charge);
    UncountedKeepsInv(a, key, hash, charge);
    assert a.next !in a.handles;
    hide ShardInv;
  }

  lemma EnteredCounts(a: Shard, c: Shard, key: Key, hash: nat, charge: nat, r: Option<nat>)
    requires ShardInv(a) && Entered(a, c, key, hash, charge, r)
    ensures Counts(a, c, DoInsert(key, hash, charge), Some(a.next)) && ShardInv(c)
  {
    CachedOutside(a, key, hash, charge);
    assert a.next !in a.handles;
    hide ShardInv, FinishErase;
    if r.Some? { ErasedOutside(Cached(a, key, hash, charge), r.value); }
  }

  lemma EnteredOrNot(a: Shard, b: Shard, key: Key, hash: nat, charge: nat, capacity: nat) returns (c: Shard)
    requires ShardInv(a) && Inserted(a, b, key, hash, charge, capacity)
    ensures Counts(a, c, DoInsert(key, hash, charge), Some(a.next)) && ShardInv(c) && JustEnough(c, b, capacity)
  {
    hide ShardInv, Entered, Uncounted, Cached, Evicted, JustEnough, Counts;
    CachedOutside(a, key, hash, charge);
    if capacity > 0 {
      var d, r :| Entered(a, d, key, hash, charge, r) && JustEnough(d, b, capacity);
      EnteredCounts(a, d, key, hash, charge, r);
      c := d;
    } else {
      c := Uncounted(a, key, hash, charge);
    }
  }

  lemma InsertCounts(a: Shard, b: Shard, key: Key, hash: nat, charge: nat, capacity: nat)
    requires ShardInv(a) && Inserted(a, b, key, hash, charge, capacity)
    ensures Counts(a, b, DoInsert(key, hash, charge), Some(a.next)) && ShardInv(b)
  {
    var c := EnteredOrNot(a, b, key, hash, charge, capacity);
    var k :| EnoughAfter(c, b, capacity, k);
    EvictedKeepsInv(c, k);
    hide ShardInv, Inserted, Evicted, Charges, Outside, JustEnough;
  }

  lemma EraseCounts(a: Shard, b: Shard, key: Key, hash: nat)
    requires ShardInv(a) && Erases(a, b, key, hash)
    ensures SameOutside(a, b) && ShardInv(b)
  {
    hide ShardInv, FinishErase;
    var r :| IsReplaced(a, key, hash, r) &&
      if r.None? then b == a
      else a.handles[r.value].refs > 0 && a.handles[r.value].charge <= a.usage && b == FinishErase(a, r.value);
    if r.Some? { ErasedOutside(a, r.value); }
  }

  lemma CallCounts(a: Shard, b: Shard, call: Call, r: Option<nat>, capacity: nat)
    requires ShardInv(a) && Does(a, b, call, r, capacity)
    ensures Counts(a, b, call, r) && ShardInv(b)
  {
    hide ShardInv, Evicted, FinishErase, Inserted, Erases;
    match call
    case DoInsert(key, hash, charge) => InsertCounts(a, b, key, hash, charge, capacity);
    case DoLookup(key, hash) => if r.Some? { RefKeepsInv(a, r.value); }
    case DoRelease(e) => UnrefKeepsInv(a, e);
    case DoErase(key, hash) => EraseCounts(a, b, key, hash);
    case DoPrune => EvictedKeepsInv(a, |a.lru|);
  }

  // ----- a call and the list of idle entries

  lemma ReleaseList(a: Shard, e: nat)
    requires ShardInv(a) && e in a.handles && Outside(a, e) > 0 && a.handles[e].refs > 0
    ensures var b := Unref(a, e); b.lru == a.lru || (b.lru == a.lru + [e] && Outside(b, e) == 0)
  {
    WithoutIs(a.lru, e);
  }

  lemma LookupThins(a: Shard, e: nat)
    requires e in a.handles
    ensures Thinned(Ref(a, e).lru, a.lru)
  {
    WithoutThins(a.lru, e);
  }

  lemma EraseThins(a: Shard, b: Shard, key: Key, hash: nat)
    requires Erases(a, b, key, hash)
    ensures Thinned(b.lru, a.lru)
  {
    var r :| IsReplaced(a, key, hash, r) &&
      if r.None? then b == a
      else a.handles[r.value].refs > 0 && a.handles[r.value].charge <= a.usage && b == FinishErase(a, r.value);
    if r.Some? { ErasedThins(a, r.value); }
  }

  /** No call changes the order of the list; only a release adds to it, at the end. */
  lemma CallThins(a: Shard, b: Shard, call: Call, r: Option<nat>, capacity: nat)
    requires ShardInv(a) && Does(a, b, call, r, capacity)
    ensures Thinned(b.lru, a.lru) || (call.DoRelease? && b.lru == a.lru + [call.e] && Outside(b, call.e) == 0)
  {
    hide ShardInv, Unref, Thinned, Inserted, Erases;
    match call
    case DoInsert(key, hash, charge) => InsertedThins(a, b, key, hash, charge, capacity);
    case DoLookup(key, hash) => if r.Some? { LookupThins(a, r.value); } else { TailThins(a.lru, 0); }
    case DoRelease(e) =>
      ReleaseList(a, e);
      TailThins(a.lru, 0);
    case DoErase(key, hash) => EraseThins(a, b, key, hash);
    case DoPrune => TailThins(a.lru, |a.lru|);
  }

  // ----- whole runs

  lemma {:induction false} InvOverRuns(r: Run, capacity: nat, n: nat)
    requires IsRun(r, capacity) && n < |r.shards|
    ensures ShardInv(r.shards[n])
  {
    if n == 0 {
      EmptyShard(NO_HANDLES);
    } else {
      InvOverRuns(r, capacity, n - 1);
      hide ShardInv, Does;
      CallCounts(r.shards[n - 1], r.shards[n], r.calls[n - 1], r.results[n - 1], capacity);
    }
  }

  lemma HeldNext(r: Run, capacity: nat, n: nat, e: nat)
    requires IsRun(r, capacity) && n < |r.calls| && ShardInv(r.shards[n]) && Outside(r.shards[n], e) == Held(r, n, e)
    ensures Outside(r.shards[n + 1], e) == Held(r, n + 1, e)
  {
    assert Does(r.shards[n], r.shards[n + 1], r.calls[n], r.results[n], capacity);
    CountOf(r.shards[n], r.shards[n + 1], r.calls[n], r.results[n], capacity, e);
    hide ShardInv, Does, Outside;
  }

  lemma NothingHeld(r: Run, e: nat)
    requires |r.calls| == |r.results|
    ensures Outside(NO_HANDLES, e) == 0 == Held(r, 0, e)
  {
  }

  /** The reference counts are what clients took and did not give back. */
  lemma {:induction false} HeldIsOutside(r: Run, capacity: nat, n: nat, e: nat)
    requires IsRun(r, capacity) && n < |r.shards|
    ensures Outside(r.shards[n], e) == Held(r, n, e)
  {
    hide ShardInv, Does, Outside, Held;
    if n == 0 {
      NothingHeld(r, e);
    } else {
      HeldIsOutside(r, capacity, n - 1, e);
      InvOverRuns(r, capacity, n - 1);
      HeldNext(r, capacity, n - 1, e);
    }
  }

  lemma CountOf(a: Shard, b: Shard, call: Call, r: Option<nat>, capacity: nat, e: nat)
    requires ShardInv(a) && Does(a, b, call, r, capacity)
    ensures Outside(b, e) == Outside(a, e) + (if r == Some(e) then 1 else 0) - Given(call, e)
  {
    CallCounts(a, b, call, r, capacity);
    hide ShardInv, Does, Outside;
  }

  lemma ListedIdle(a: Shard, e: nat)
    requires ShardInv(a)
    ensures e in a.lru <==> Idle(a, e)
    ensures e in a.lru ==> Outside(a, e) == 0
  {
  }

  /** Whoever stays on the list was not released meanwhile. */
  lemma SameFreed(r: Run, capacity: nat, n: nat, e: nat)
    requires IsRun(r, capacity) && 0 < n < |r.shards| && e in r.shards[n - 1].lru
    ensures FreedAt(r, n, e) == FreedAt(r, n - 1, e)
  {
    InvOverRuns(r, capacity, n - 1);
    ListedIdle(r.shards[n - 1], e);
    hide ShardInv;
    assert Does(r.shards[n - 1], r.shards[n], r.calls[n - 1], r.results[n - 1], capacity);
  }

  /** The list is in the order in which its entries were given back for the last time. */
  lemma {:induction false} ListByRelease(r: Run, capacity: nat, n: nat, x: nat, y: nat)
    requires IsRun(r, capacity) && n < |r.shards| && Precedes(r.shards[n].lru, x, y)
    ensures FreedAt(r, n, x) < FreedAt(r, n, y)
  {
    if n > 0 {
      var a, b := r.shards[n - 1], r.shards[n];
      InvOverRuns(r, capacity, n - 1);
      hide ShardInv, Does;
      CallThins(a, b, r.calls[n - 1], r.results[n - 1], capacity);
      var i, j :| 0 <= i < j < |b.lru| && b.lru[i] == x && b.lru[j] == y;
      if Thinned(b.lru, a.lru) || j < |a.lru| {
        if !Thinned(b.lru, a.lru) { EarlyPrecedes(a.lru, r.calls[n - 1].e, i, j); }
        ListByRelease(r, capacity, n - 1, x, y);
        SameFreed(r, capacity, n, x);
        SameFreed(r, capacity, n, y);
      } else {
        assert y == r.calls[n - 1].e && a.lru[i] == x;
        HeldIsOutside(r, capacity, n, y);
        SameFreed(r, capacity, n, x);
      }
    }
  }

  lemma EarlyPrecedes(s: seq<nat>, e: nat, i: nat, j: nat)
    requires i < j < |s|
    ensures Precedes(s, (s + [e])[i], (s + [e])[j])
  {
    assert s[i] == (s + [e])[i] && s[j] == (s + [e])[j];
  }

  lemma InOrder(r: Run, capacity: nat, n: nat, x: nat, y: nat)
    requires IsRun(r, capacity) && n < |r.shards| && Idle(r.shards[n], x) && Idle(r.shards[n], y)
        && FreedAt(r, n, x) < FreedAt(r, n, y)
    ensures Precedes(r.shards[n].lru, x, y)
  {
    InvOverRuns(r, capacity, n);
    var s := r.shards[n].lru;
    ListedIdle(r.shards[n], x);
    ListedIdle(r.shards[n], y);
    hide ShardInv;
    var i :| 0 <= i < |s| && s[i] == x;
    var j :| 0 <= j < |s| && s[j] == y;
    if j < i {
      assert Precedes(s, y, x);
      ListByRelease(r, capacity, n, y, x);
    }
  }

  lemma PrefixHolds(s: seq<nat>, k: nat, x: nat, y: nat)
    requires NoDup(s) && k <= |s| && Precedes(s, x, y) && y in s[..k]
    ensures x in s[..k]
  {
    var i, j :| 0 <= i < j < |s| && s[i] == x && s[j] == y;
    var l :| 0 <= l < k && s[..k][l] == y;
    assert s[l] == y && l == j;
    assert s[..k][i] == x;
  }

  /** Evicting y while x stands before it evicts x too, and deletes it first. */
  lemma EvictedInOrder(c: Shard, b: Shard, capacity: nat, x: nat, y: nat)
    requires ShardInv(c) && JustEnough(c, b, capacity) && Precedes(c.lru, x, y) && y !in b.handles
    ensures x !in b.handles && c.deleted <= b.deleted && Precedes(b.deleted[|c.deleted|..], x, y)
  {
    var k: nat :| EnoughAfter(c, b, capacity, k);
    Gone(c, k, y);
    PrefixHolds(c.lru, k, x, y);
    hide ShardInv, Charges;
    assert b.deleted[|c.deleted|..] == c.lru[..k];
    PrefixPrecedes(c.lru, k, x, y);
  }

  lemma Gone(c: Shard, k: nat, y: nat)
    requires ShardInv(c) && k <= |c.lru| && y in c.lru && Charges(c.lru[..k], c.handles) <= c.usage
        && y !in Evicted(c, k).handles
    ensures y in c.lru[..k]
  {
  }

  lemma PrefixPrecedes(s: seq<nat>, k: nat, x: nat, y: nat)
    requires NoDup(s) && k <= |s| && Precedes(s, x, y) && y in s[..k]
    ensures Precedes(s[..k], x, y)
  {
    var i, j :| 0 <= i < j < |s| && s[i] == x && s[j] == y;
    var l :| 0 <= l < k && s[..k][l] == y;
    assert s[l] == y && l == j;
    assert s[..k][i] == x && s[..k][j] == y;
  }

  lemma ShiftPrecedes(s: seq<nat>, f: nat, x: nat, y: nat)
    requires Precedes(s, x, y) || (f == x && y in s)
    ensures Precedes([f] + s, x, y)
  {
    if Precedes(s, x, y) {
      var i, j :| 0 <= i < j < |s| && s[i] == x && s[j] == y;
      assert ([f] + s)[i + 1] == x && ([f] + s)[j + 1] == y;
    } else {
      var j :| 0 <= j < |s| && s[j] == y;
      assert ([f] + s)[0] == x && ([f] + s)[j + 1] == y;
    }
  }

  lemma {:induction false} WithoutKeepsOrder(s: seq<nat>, e: nat, x: nat, y: nat)
    requires NoDup(s) && Precedes(s, x, y) && x != e && y != e
    ensures Precedes(Without(s, e), x, y)
    decreases s
  {
    var i, j :| 0 <= i < j < |s| && s[i] == x && s[j] == y;
    assert s[1..][j - 1] == y;
    if i > 0 { assert s[1..][i - 1] == x; }
    if s[0] != e {
      WithoutIs(s[1..], e);
      if i > 0 { WithoutKeepsOrder(s[1..], e, x, y); }
      ShiftPrecedes(Without(s[1..], e), s[0], x, y);
    }
  }

  /** The replaced entry aside, entering a new one leaves the list alone. */
  lemma EnteredList(a: Shard, c: Shard, key: Key, hash: nat, charge: nat, r: Option<nat>, x: nat, y: nat)
    requires ShardInv(a) && Entered(a, c, key, hash, charge, r) && Precedes(a.lru, x, y)
    requires x in a.handles && !Same(SlotOf(a, x), key, hash) && y in a.handles && !Same(SlotOf(a, y), key, hash)
    ensures Precedes(c.lru, x, y) && a.deleted <= c.deleted
  {
    if r.Some? { WithoutKeepsOrder(a.lru, r.value, x, y); }
  }

  /** Of two entries that nobody holds, an insertion evicts first the one whose last reference was given back first:
    the other goes only if that one goes too, and is deleted after it. */
  lemma OldestReleasedFirst(r: Run, capacity: nat, n: nat, key: Key, hash: nat, charge: nat, x: nat, y: nat)
    requires IsRun(r, capacity) && n < |r.calls| && r.calls[n] == DoInsert(key, hash, charge)
    requires Idle(r.shards[n], x) && Idle(r.shards[n], y) && FreedAt(r, n, x) < FreedAt(r, n, y)
    requires !Same(SlotOf(r.shards[n], x), key, hash) && !Same(SlotOf(r.shards[n], y), key, hash)
    requires y !in r.shards[n + 1].handles
    ensures x !in r.shards[n + 1].handles
    ensures r.shards[n].deleted <= r.shards[n + 1].deleted
        && Precedes(r.shards[n + 1].deleted[|r.shards[n].deleted|..], x, y)
  {
    var a, b := r.shards[n], r.shards[n + 1];
    InOrder(r, capacity, n, x, y);
    InvOverRuns(r, capacity, n);
    assert Does(a, b, r.calls[n], r.results[n], capacity);
    hide ShardInv, IsRun, Precedes, Entered;
    if capacity > 0 {
      var c, o :| Entered(a, c, key, hash, charge, o) && JustEnough(c, b, capacity);
      EnteredCounts(a, c, key, hash, charge, o);
      EnteredList(a, c, key, hash, charge, o, x, y);
      EvictedInOrder(c, b, capacity, x, y);
      TailPrecedes(a.deleted, c.deleted, b.deleted, x, y);
    } else {
      CachedOutside(a, key, hash, charge);
      EvictedInOrder(Uncounted(a, key, hash, charge), b, capacity, x, y);
    }
  }

  lemma TailPrecedes(a: seq<nat>, c: seq<nat>, b: seq<nat>, x: nat, y: nat)
    requires a <= c <= b && Precedes(b[|c|..], x, y)
    ensures a <= b && Precedes(b[|a|..], x, y)
  {
    TailThins(b[|a|..], |c| - |a|);
    assert b[|a|..][|c| - |a|..] == b[|c|..];
  }
}
