/** One shard of the block cache: hash table, reference counts and two lists. */
module LruCache {
  import opened Options
  import opened HandleTable

  datatype Handle = Handle(key: Key, hash: nat, charge: nat, inCache: bool, refs: nat)

  /** Everything but the hash table: handles in memory, the two lists (oldest first) and the deleter calls made. */
  datatype Shard = Shard(usage: nat, lru: seq<nat>, inUse: seq<nat>, handles: map<nat, Handle>, deleted: seq<nat>,
      next: nat)

  function Without(s: seq<nat>, e: nat): seq<nat> {
    if s == [] then [] else if s[0] == e then s[1..] else [s[0]] + Without(s[1..], e)
  }

  /** LRU_Remove: takes e out of whichever list holds it. */
  function Unlinked(a: Shard, e: nat): Shard { a.(lru := Without(a.lru, e), inUse := Without(a.inUse, e)) }

  function Ref(a: Shard, e: nat): Shard
    requires e in a.handles
  {
    var h := a.handles[e];
    var b := if h.refs == 1 && h.inCache then var c := Unlinked(a, e); c.(inUse := c.inUse + [e]) else a;
    b.(handles := a.handles[e := h.(refs := h.refs + 1)])
  }

  /** The last reference deletes; losing the last outside reference moves the handle to the end of the lru list. */
  function Unref(a: Shard, e: nat): Shard
    requires e in a.handles && a.handles[e].refs > 0
  {
    var h := a.handles[e];
    if h.refs == 1 then a.(handles := a.handles - {e}, deleted := a.deleted + [e])
    else
      var b := a.(handles := a.handles[e := h.(refs := h.refs - 1)]);
      if h.inCache && h.refs == 2 then var c := Unlinked(b, e); c.(lru := c.lru + [e]) else b
  }

  /** e is no longer in the hash table. */
  function FinishErase(a: Shard, e: nat): Shard
    requires e in a.handles && a.handles[e].refs > 0 && a.handles[e].charge <= a.usage
  {
    var b := Unlinked(a, e).(handles := a.handles[e := a.handles[e].(inCache := false)],
        usage := a.usage - a.handles[e].charge);
    Unref(b, e)
  }

  // ----- invariant

  predicate NoDup(s: seq<nat>) { forall i, j :: 0 <= i < j < |s| ==> s[i] != s[j] }

  function Charges(s: seq<nat>, handles: map<nat, Handle>): nat {
    if s == [] then 0 else (if s[0] in handles then handles[s[0]].charge else 0) + Charges(s[1..], handles)
  }

  /** A cached handle is in exactly one list, by its reference count; usage is the sum of the charges in both. */
  ghost predicate ListsOk(a: Shard) {
    && NoDup(a.lru) && NoDup(a.inUse)
    && (forall e :: e in a.lru <==> e in a.handles && a.handles[e].inCache && a.handles[e].refs == 1)
    && (forall e :: e in a.inUse <==> e in a.handles && a.handles[e].inCache && a.handles[e].refs > 1)
    && a.usage == Charges(a.lru, a.handles) + Charges(a.inUse, a.handles)
  }

  /** Every handle ever made is either still referenced or was passed to its deleter exactly once. */
  ghost predicate LivesOk(a: Shard) {
    && (forall e :: e in a.handles ==> a.handles[e].refs > 0 && e < a.next)
    && NoDup(a.deleted) && (forall e: nat :: e in a.deleted <==> e < a.next && e !in a.handles)
  }

  ghost predicate ShardInv(a: Shard) { ListsOk(a) && LivesOk(a) }

  function SlotOf(a: Shard, e: nat): Slot
    requires e in a.handles
  {
    Slot(a.handles[e].key, a.handles[e].hash, e)
  }

  /** The hash table holds the cached handles, but for one that is about to be erased. */
  ghost predicate TableOk(a: Shard, slots: set<Slot>, but: Option<nat>) {
    && (forall s :: s in slots ==>
          s.id in a.handles && a.handles[s.id].inCache && s == SlotOf(a, s.id) && Some(s.id) != but)
    && (forall e :: e in a.handles && a.handles[e].inCache && Some(e) != but ==> SlotOf(a, e) in slots)
    && (forall s, t :: s in slots && t in slots && Same(s, t.key, t.hash) ==> s == t)
  }

  // ----- lists

  lemma {:induction false} WithoutIs(s: seq<nat>, e: nat)
    requires NoDup(s)
    ensures NoDup(Without(s, e)) && forall x :: x in Without(s, e) <==> x in s && x != e
    ensures e !in s ==> Without(s, e) == s
  {
    if s != [] {
      assert s == [s[0]] + s[1..];
      assert forall x :: x in s[1..] ==> x != s[0];
      if s[0] != e {
        WithoutIs(s[1..], e);
        var r := Without(s, e);
        forall i, j | 0 <= i < j < |r| ensures r[i] != r[j] {
          if i == 0 { assert r[j] in Without(s[1..], e); }
        }
      }
    }
  }

  lemma {:induction false} ChargesWithout(s: seq<nat>, e: nat, handles: map<nat, Handle>)
    requires e in s && e in handles
    ensures Charges(Without(s, e), handles) == Charges(s, handles) - handles[e].charge
  {
    if s[0] != e {
      ChargesWithout(s[1..], e, handles);
    }
  }

  lemma {:induction false} ChargesAppend(s: seq<nat>, e: nat, handles: map<nat, Handle>)
    ensures Charges(s + [e], handles) == Charges(s, handles) + if e in handles then handles[e].charge else 0
  {
    if s != [] {
      ChargesAppend(s[1..], e, handles);
      assert (s + [e])[1..] == s[1..] + [e];
    } else {
      assert s + [e] == [e];
    }
  }

  /** Charges depend only on the charge of the listed handles. */
  lemma {:induction false} ChargesSame(s: seq<nat>, a: map<nat, Handle>, b: map<nat, Handle>)
    requires forall e :: e in s ==> (e in a <==> e in b) && (e in a ==> a[e].charge == b[e].charge)
    ensures Charges(s, a) == Charges(s, b)
  {
    if s != [] {
      assert s[0] in s && forall e :: e in s[1..] ==> e in s;
      ChargesSame(s[1..], a, b);
    }
  }

  lemma NoDupAppend(s: seq<nat>, e: nat)
    requires NoDup(s) && e !in s
    ensures NoDup(s + [e])
  {
  }

  // ----- the three operations

  /** Taking e out of both lists, whatever its count. */
  lemma UnlinkedIs(a: Shard, e: nat)
    requires ShardInv(a) && e in a.handles
    ensures var b := Unlinked(a, e);
            && NoDup(b.lru) && NoDup(b.inUse)
            && (forall x :: x in b.lru <==> x in a.lru && x != e)
            && (forall x :: x in b.inUse <==> x in a.inUse && x != e)
            && Charges(b.lru, a.handles) + Charges(b.inUse, a.handles) == a.usage -
               if a.handles[e].inCache then a.handles[e].charge else 0
  {
    WithoutIs(a.lru, e);
    WithoutIs(a.inUse, e);
    hide NoDup, Charges, Without, LivesOk;
    if e in a.lru { ChargesWithout(a.lru, e, a.handles); }
    if e in a.inUse { ChargesWithout(a.inUse, e, a.handles); }
  }

  /** The same handles and deletions, one handle changed. */
  lemma SameLives(a: Shard, b: Shard, e: nat, h: Handle)
    requires LivesOk(a) && e in a.handles && h.refs > 0
    requires b.handles == a.handles[e := h] && b.deleted == a.deleted && b.next == a.next
    ensures LivesOk(b)
  {
    hide NoDup;
  }

  /** Both lists of b, when e was put at the end of one of them. */
  ghost predicate PutAtEnd(c: Shard, b: Shard, e: nat, toLru: bool) {
    if toLru then b.lru == c.lru + [e] && b.inUse == c.inUse else b.lru == c.lru && b.inUse == c.inUse + [e]
  }

  lemma PutAtEndLists(c: Shard, b: Shard, e: nat, toLru: bool)
    requires PutAtEnd(c, b, e, toLru) && NoDup(c.lru) && NoDup(c.inUse) && e !in c.lru && e !in c.inUse
        && e in b.handles
    ensures NoDup(b.lru) && NoDup(b.inUse)
    ensures forall x :: x in b.lru <==> x in c.lru || (toLru && x == e)
    ensures forall x :: x in b.inUse <==> x in c.inUse || (!toLru && x == e)
    ensures Charges(b.lru, b.handles) + Charges(b.inUse, b.handles) == Charges(c.lru, b.handles)
        + Charges(c.inUse, b.handles) + b.handles[e].charge
  {
    hide Charges;
    if toLru {
      ChargesAppend(c.lru, e, b.handles);
    } else {
      ChargesAppend(c.inUse, e, b.handles);
    }
  }

  lemma ChangedLists(a: Shard, b: Shard, e: nat, h: Handle)
    requires ShardInv(a) && e in a.handles && h.charge == a.handles[e].charge && h.inCache && h.refs > 0
    requires b.handles == a.handles[e := h] && b.deleted == a.deleted && b.next == a.next
    requires PutAtEnd(Unlinked(a, e), b, e, h.refs == 1)
    requires b.usage == a.usage + if a.handles[e].inCache then 0 else h.charge
    ensures ShardInv(b)
  {
    hide NoDup, Charges, Without, LivesOk, PutAtEnd, Unlinked;
    var c := Unlinked(a, e);
    UnlinkedIs(a, e);
    SameLives(a, b, e, h);
    ChargesSame(c.lru, a.handles, b.handles);
    ChargesSame(c.inUse, a.handles, b.handles);
    PutAtEndLists(c, b, e, h.refs == 1);
  }

  lemma SameLists(a: Shard, b: Shard, e: nat, h: Handle)
    requires ShardInv(a) && e in a.handles && h.charge == a.handles[e].charge && h.inCache == a.handles[e].inCache
        && h.refs > 0
    requires h.inCache ==> (h.refs > 1 && a.handles[e].refs > 1)
    requires b == a.(handles := a.handles[e := h])
    ensures ShardInv(b)
  {
    hide NoDup, Charges;
    ChargesSame(a.lru, a.handles, b.handles);
    ChargesSame(a.inUse, a.handles, b.handles);
  }

  lemma RefKeepsInv(a: Shard, e: nat)
    requires ShardInv(a) && e in a.handles
    ensures ShardInv(Ref(a, e))
  {
    var h := a.handles[e];
    if h.refs == 1 && h.inCache {
      ChangedLists(a, Ref(a, e), e, h.(refs := 2));
    } else {
      SameLists(a, Ref(a, e), e, h.(refs := h.refs + 1));
    }
  }

  /** Only an outside reference is given back: a cached handle has at least two. */
  lemma UnrefKeepsInv(a: Shard, e: nat)
    requires ShardInv(a) && e in a.handles && (a.handles[e].inCache ==> a.handles[e].refs > 1)
    ensures ShardInv(Unref(a, e))
  {
    var h := a.handles[e];
    var b := Unref(a, e);
    if h.refs == 1 {
      hide Charges;
      ChargesSame(a.lru, a.handles, b.handles);
      ChargesSame(a.inUse, a.handles, b.handles);
    } else if h.inCache && h.refs == 2 {
      ChangedLists(a, b, e, h.(refs := 1));
    } else {
      SameLists(a, b, e, h.(refs := h.refs - 1));
    }
  }

  lemma CachedCharge(a: Shard, e: nat)
    requires ShardInv(a) && e in a.handles && a.handles[e].inCache
    ensures a.handles[e].charge <= a.usage
  {
    UnlinkedIs(a, e);
  }

  /** The handle just before FinishErase gives up the cache's reference. */
  function Uncached(a: Shard, e: nat): Shard
    requires e in a.handles && a.handles[e].charge <= a.usage
  {
    Unlinked(a, e).(handles := a.handles[e := a.handles[e].(inCache := false)], usage := a.usage - a.handles[e].charge)
  }

  lemma UncachedKeepsInv(a: Shard, e: nat)
    requires ShardInv(a) && e in a.handles && a.handles[e].inCache && a.handles[e].charge <= a.usage
    ensures ShardInv(Uncached(a, e))
  {
    hide NoDup, Charges, Without;
    var b := Uncached(a, e);
    SameLives(a, b, e, b.handles[e]);
    hide LivesOk;
    UnlinkedIs(a, e);
    ChargesSame(b.lru, a.handles, b.handles);
    ChargesSame(b.inUse, a.handles, b.handles);
  }

  lemma FinishEraseKeepsInv(a: Shard, e: nat)
    requires ShardInv(a) && e in a.handles && a.handles[e].inCache && a.handles[e].refs > 0
        && a.handles[e].charge <= a.usage
    ensures ShardInv(FinishErase(a, e))
    ensures FinishErase(a, e).usage == a.usage - a.handles[e].charge
    ensures FinishErase(a, e).lru == Without(a.lru, e) && FinishErase(a, e).next == a.next
    ensures forall x :: x in a.handles && x != e ==>
              x in FinishErase(a, e).handles && FinishErase(a, e).handles[x] == a.handles[x]
    ensures FinishErase(a, e).handles.Keys <= a.handles.Keys
        && (e in FinishErase(a, e).handles ==> !FinishErase(a, e).handles[e].inCache)
  {
    UncachedKeepsInv(a, e);
    UnrefKeepsInv(Uncached(a, e), e);
    hide ShardInv;
  }

  // ----- the hash table follows

  lemma ErasedTable(a: Shard, slots: set<Slot>, e: nat)
    requires ShardInv(a) && e in a.handles && a.handles[e].inCache && a.handles[e].refs > 0
        && a.handles[e].charge <= a.usage
    requires TableOk(a, slots, Some(e))
    ensures TableOk(FinishErase(a, e), slots, None)
  {
    hide ShardInv, FinishErase;
    FinishEraseKeepsInv(a, e);
  }

  lemma RemovedSlot(a: Shard, slots: set<Slot>, s: Slot)
    requires TableOk(a, slots, None) && s in slots
    ensures TableOk(a, slots - {s}, Some(s.id))
  {
  }

  lemma RefTable(a: Shard, slots: set<Slot>, e: nat)
    requires TableOk(a, slots, None) && e in a.handles
    ensures TableOk(Ref(a, e), slots, None)
  {
  }

  lemma UnrefTable(a: Shard, slots: set<Slot>, e: nat)
    requires TableOk(a, slots, None) && e in a.handles && a.handles[e].refs > 0
        && (a.handles[e].inCache ==> a.handles[e].refs > 1)
    ensures TableOk(Unref(a, e), slots, None)
  {
  }

  /** References held by clients. */
  function Outside(a: Shard, e: nat): int {
    if e in a.handles then a.handles[e].refs - (if a.handles[e].inCache then 1 else 0) else 0
  }

  /** A new handle in the cache, with one reference for the client and one for the cache. */
  function Cached(a: Shard, key: Key, hash: nat, charge: nat): Shard {
    a.(next := a.next + 1, usage := a.usage + charge, inUse := a.inUse
        + [a.next], handles := a.handles[a.next := Handle(key, hash, charge, true, 2)])
  }

  function Uncounted(a: Shard, key: Key, hash: nat, charge: nat): Shard {
    a.(next := a.next + 1, handles := a.handles[a.next := Handle(key, hash, charge, false, 1)])
  }

  lemma UncountedKeepsInv(a: Shard, key: Key, hash: nat, charge: nat)
    requires ShardInv(a)
    ensures ShardInv(Uncounted(a, key, hash, charge))
  {
    var b := Uncounted(a, key, hash, charge);
    hide NoDup, Charges;
    ChargesSame(a.lru, a.handles, b.handles);
    ChargesSame(a.inUse, a.handles, b.handles);
  }

  lemma CachedKeepsInv(a: Shard, key: Key, hash: nat, charge: nat)
    requires ShardInv(a)
    ensures ShardInv(Cached(a, key, hash, charge))
  {
    var b := Cached(a, key, hash, charge);
    assert a.next !in a.handles && a.next !in a.lru && a.next !in a.inUse;
    NoDupAppend(a.inUse, a.next);
    ChargesAppend(a.inUse, a.next, b.handles);
    hide NoDup, Charges;
    ChargesSame(a.lru, a.handles, b.handles);
    ChargesSame(a.inUse, a.handles, b.handles);
  }

  /** The new slot takes the place of the one it replaces. */
  lemma CachedTable(a: Shard, slots: set<Slot>, key: Key, hash: nat, charge: nat, replaced: Option<Slot>)
    requires ShardInv(a) && TableOk(a, slots, None)
    requires replaced.Some? ==> replaced.value in slots && Same(replaced.value, key, hash)
    requires replaced.None? ==> forall s :: s in slots ==> !Same(s, key, hash)
    ensures var rest := if replaced.Some? then slots - {replaced.value} else slots;
            TableOk(Cached(a, key, hash, charge), rest + {Slot(key, hash, a.next)},
                if replaced.Some? then Some(replaced.value.id) else None)
  {
    hide NoDup, ListsOk;
  }

  function Ids(s: seq<nat>): set<nat> { set e | e in s }

  /** The k oldest entries that nobody holds are gone and were passed to their deleters, oldest first. */
  function Evicted(a: Shard, k: nat): Shard
    requires k <= |a.lru| && Charges(a.lru[..k], a.handles) <= a.usage
  {
    a.(lru := a.lru[k..], handles := a.handles - Ids(a.lru[..k]), deleted := a.deleted + a.lru[..k],
       usage := a.usage - Charges(a.lru[..k], a.handles))
  }

  lemma {:induction false} ChargesSplit(s: seq<nat>, k: nat, handles: map<nat, Handle>)
    requires k <= |s|
    ensures Charges(s, handles) == Charges(s[..k], handles) + Charges(s[k..], handles)
  {
    if k > 0 {
      ChargesSplit(s[1..], k - 1, handles);
      assert s[..k][1..] == s[1..][..k - 1] && s[k..] == s[1..][k - 1..];
    }
  }

  lemma EvictedFits(a: Shard, k: nat)
    requires ShardInv(a) && k <= |a.lru|
    ensures Charges(a.lru[..k], a.handles) <= a.usage
  {
    ChargesSplit(a.lru, k, a.handles);
  }

  /** One more eviction. */
  lemma EvictedNext(a: Shard, k: nat)
    requires ShardInv(a) && k < |a.lru|
    ensures Charges(a.lru[..k], a.handles) <= a.usage && Charges(a.lru[..k + 1], a.handles) <= a.usage
    ensures var b, e := Evicted(a, k), a.lru[k];
            e in b.handles && b.handles[e].charge <= b.usage && Evicted(a, k + 1) == Evicted(b, 1) && b.lru[0] == e
                && b.lru[..1] == [e]
  {
    EvictedFits(a, k);
    EvictedFits(a, k + 1);
    var e := a.lru[k];
    var b := Evicted(a, k);
    assert a.lru[..k + 1] == a.lru[..k] + [e];
    ChargesAppend(a.lru[..k], e, a.handles);
    assert e in a.lru && e !in a.lru[..k];
    assert b.lru[..1] == [e] && b.lru[1..] == a.lru[k + 1..];
    assert Charges([e], b.handles) == b.handles[e].charge;
    assert Ids(a.lru[..k + 1]) == Ids(a.lru[..k]) + Ids(b.lru[..1]);
    assert a.deleted + a.lru[..k + 1] == a.deleted + a.lru[..k] + [e];
  }

  /** An entry nobody holds leaves the cache, the table aside. */
  lemma FinishEraseOldest(a: Shard)
    requires ShardInv(a) && a.lru != []
    ensures var e := a.lru[0];
            e in a.handles && a.handles[e].refs > 0 && a.handles[e].charge <= a.usage && a.lru[..1] == [e]
                && Charges(a.lru[..1], a.handles) <= a.usage
    ensures FinishErase(a, a.lru[0]) == Evicted(a, 1)
  {
    var e := a.lru[0];
    assert e in a.lru && a.lru[..1] == [e];
    CachedCharge(a, e);
    EvictedFits(a, 1);
    WithoutIs(a.inUse, e);
    assert Charges([e], a.handles) == a.handles[e].charge;
    assert Ids([e]) == {e};
  }

  /** The cached entry that a new one replaces. */
  ghost predicate IsReplaced(a: Shard, key: Key, hash: nat, r: Option<nat>) {
    if r.Some? then r.value in a.handles && a.handles[r.value].inCache && Same(SlotOf(a, r.value), key, hash)
    else forall e :: e in a.handles && a.handles[e].inCache ==> !Same(SlotOf(a, e), key, hash)
  }

  /** The new handle is in, the one it replaces is out. */
  ghost predicate Entered(a: Shard, b: Shard, key: Key, hash: nat, charge: nat, r: Option<nat>) {
    && IsReplaced(a, key, hash, r)
    && if r.None? then b == Cached(a, key, hash, charge)
       else var c := Cached(a, key, hash, charge);
            r.value in c.handles && c.handles[r.value].refs > 0 && c.handles[r.value].charge <= c.usage
                && b == FinishErase(c, r.value)
  }

  /** k evictions end within the capacity or with nothing left to evict, and the last of them was needed. */
  ghost predicate EnoughAfter(a: Shard, b: Shard, capacity: nat, k: nat) {
    && k <= |a.lru| && Charges(a.lru[..k], a.handles) <= a.usage && b == Evicted(a, k)
    && (b.usage <= capacity || b.lru == [])
    && (k > 0 ==> Charges(a.lru[..k - 1], a.handles) <= a.usage && Evicted(a, k - 1).usage > capacity)
  }

  ghost predicate JustEnough(a: Shard, b: Shard, capacity: nat) {
    exists k :: EnoughAfter(a, b, capacity, k)
  }

  ghost predicate Inserted(a: Shard, b: Shard, key: Key, hash: nat, charge: nat, capacity: nat) {
    if capacity > 0 then exists c, r :: Entered(a, c, key, hash, charge, r) && JustEnough(c, b, capacity)
    else JustEnough(Uncounted(a, key, hash, charge), b, capacity)
  }

  // ----- the calls a client makes

  datatype Call =
    | DoInsert(key: Key, hash: nat, charge: nat)
    | DoLookup(key: Key, hash: nat)
    | DoRelease(e: nat)
    | DoErase(key: Key, hash: nat)
    | DoPrune

  /** What a call does to the shard, and the handle it returns. */
  ghost predicate Does(a: Shard, b: Shard, call: Call, r: Option<nat>, capacity: nat) {
    match call
    case DoInsert(key, hash, charge) => r == Some(a.next) && Inserted(a, b, key, hash, charge, capacity)
    case DoLookup(key, hash) => IsReplaced(a, key, hash, r) && b == if r.Some? then Ref(a, r.value) else a
    case DoRelease(e) => r == None && e in a.handles && Outside(a, e) > 0 && a.handles[e].refs > 0 && b == Unref(a, e)
    case DoErase(key, hash) => r == None && Erases(a, b, key, hash)
    case DoPrune => r == None && Charges(a.lru[..|a.lru|], a.handles) <= a.usage && b == Evicted(a, |a.lru|)
  }

  ghost predicate Erases(a: Shard, b: Shard, key: Key, hash: nat) {
    exists r :: IsReplaced(a, key, hash, r) &&
      if r.None? then b == a
      else a.handles[r.value].refs > 0 && a.handles[r.value].charge <= a.usage && b == FinishErase(a, r.value)
  }

  const NO_HANDLES := Shard(0, [], [], map[], [], 0)

  lemma EmptyShard(a: Shard)
    requires a.lru == [] && a.inUse == [] && (forall e :: e !in a.handles) && a.deleted == [] && a.next == 0
        && a.usage == 0
    ensures ShardInv(a) && TableOk(a, {}, None)
  {
    assert NoDup([]);
    assert Charges([], a.handles) == 0;
    hide NoDup, Charges;
  }

  class LruCache {
    const capacity: nat
    const table: HandleTable
    var state: Shard

    ghost predicate Valid()
      reads this, table
    {
      table.Valid() && ShardInv(state) && TableOk(state, table.Slots(), None)
    }

    constructor (capacity: nat)
      ensures Valid() && fresh(table) && state == NO_HANDLES && this.capacity == capacity
    {
      hide ShardInv, TableOk, HandleTable.Valid, HandleTable.Slots;
      this.capacity := capacity;
      table := new HandleTable();
      state := NO_HANDLES;
      new;
      EmptyShard(state);
    }

    /** The handle found gets one more client reference. */
    method Lookup(key: Key, hash: nat) returns (r: Option<nat>)
      requires Valid()
      modifies this
      ensures Valid()
      ensures r.None? <==> forall e :: e in old(state.handles) && old(state.handles)[e].inCache ==>
          !Same(SlotOf(old(state), e), key, hash)
      ensures r.Some? ==>
                && r.value in old(state.handles) && old(state.handles)[r.value].inCache
                && Same(SlotOf(old(state), r.value), key, hash)
      ensures state == if r.Some? then Ref(old(state), r.value) else old(state)
      ensures Does(old(state), state, DoLookup(key, hash), r, capacity)
    {
      var s := table.Lookup(key, hash);
      r := None;
      if s.Some? {
        var e := s.value.id;
        RefKeepsInv(state, e);
        RefTable(state, table.Slots(), e);
        hide ShardInv, Ref;
        state := Ref(state, e);
        r := Some(e);
      }
    }

    /** Gives back a client's reference.  A cached entry that nobody holds any more becomes the newest of its list. */
    method Release(e: nat)
      requires Valid() && Outside(state, e) > 0
      modifies this
      ensures Valid() && old(state.handles)[e].refs > 0 && state == Unref(old(state), e)
      ensures Outside(state, e) == Outside(old(state), e) - 1
      ensures state.lru == old(state.lru) + if old(state.handles)[e].inCache && Outside(state, e) == 0 then [e] else []
      ensures Does(old(state), state, DoRelease(e), None, capacity)
    {
      HasRefs(state, e);
      NotListed(state, e);
      UnrefKeepsInv(state, e);
      UnrefTable(state, table.Slots(), e);
      hide ShardInv;
      state := Unref(state, e);
    }

    /** Ends the cache's interest in a handle whose slot is no longer in the table. */
    method Erased(e: nat)
      requires table.Valid() && ShardInv(state) && TableOk(state, table.Slots(), Some(e)) && e in state.handles
          && state.handles[e].inCache
      modifies this
      ensures Valid() && old(state.handles)[e].refs > 0 && old(state.handles)[e].charge <= old(state.usage)
          && state == FinishErase(old(state), e)
      ensures forall x :: x in old(state.handles) && x != e ==>
          x in state.handles && state.handles[x] == old(state.handles)[x]
      ensures state.handles.Keys <= old(state.handles.Keys) && (e in state.handles ==> !state.handles[e].inCache)
    {
      CachedCharge(state, e);
      HasRefs(state, e);
      FinishEraseKeepsInv(state, e);
      ErasedTable(state, table.Slots(), e);
      hide ShardInv, FinishErase, TableOk;
      state := FinishErase(state, e);
    }

    lemma NotListed(a: Shard, e: nat)
      requires ShardInv(a) && e in a.handles && Outside(a, e) > 0
      ensures e !in a.lru && Without(a.lru, e) == a.lru
    {
      WithoutIs(a.lru, e);
    }

    lemma HasRefs(a: Shard, e: nat)
      requires ShardInv(a) && e in a.handles
      ensures a.handles[e].refs > 0
    {
    }

    method Erase(key: Key, hash: nat)
      requires Valid()
      modifies this, table
      ensures Valid()
      ensures forall e :: e in state.handles && state.handles[e].inCache ==> !Same(SlotOf(state, e), key, hash)
      ensures forall e :: e in old(state.handles) && !Same(SlotOf(old(state), e), key, hash) ==>
          e in state.handles && state.handles[e] == old(state.handles)[e]
      ensures IsReplaced(old(state), key, hash, None) ==> state == old(state)
      ensures forall e :: IsReplaced(old(state), key, hash, Some(e)) ==>
                old(state.handles)[e].refs > 0 && old(state.handles)[e].charge <= old(state.usage)
                    && state == FinishErase(old(state), e)
      ensures Does(old(state), state, DoErase(key, hash), None, capacity)
    {
      hide ShardInv, FinishErase;
      ghost var before := table.Slots();
      var s := table.Remove(key, hash);
      if s.Some? {
        RemovedSlot(state, before, s.value);
        Erased(s.value.id);
      }
    }

    /** The oldest entry that no client holds goes. */
    method EvictOldest()
      requires Valid() && state.lru != []
      modifies this, table
      ensures Valid() && Charges(old(state.lru)[..1], old(state.handles)) <= old(state.usage)
          && state == Evicted(old(state), 1)
    {
      var oldest := state.lru[0];
      OldestCached(state);
      ghost var before := table.Slots();
      assert SlotOf(state, oldest) in before;
      var s := table.Remove(state.handles[oldest].key, state.handles[oldest].hash);
      assert s == Some(SlotOf(state, oldest));
      RemovedSlot(state, before, s.value);
      FinishEraseOldest(state);
      hide ShardInv, TableOk, FinishErase, Evicted;
      Erased(s.value.id);
    }

    lemma OldestCached(a: Shard)
      requires ShardInv(a) && a.lru != []
      ensures a.lru[0] in a.handles && a.handles[a.lru[0]].inCache
    {
      assert a.lru[0] in a.lru;
    }

    /** The new entry is held by the client; entries nobody holds go, oldest first, until usage is within the capacity.
      */
    method Insert(key: Key, hash: nat, charge: nat) returns (e: nat)
      requires Valid()
      modifies this, table
      ensures Valid() && e == old(state.next) && Inserted(old(state), state, key, hash, charge, capacity)
      ensures Does(old(state), state, DoInsert(key, hash, charge), Some(e), capacity)
      ensures state.usage <= capacity || state.lru == []
      ensures e in state.handles && Outside(state, e) == 1
          && state.handles[e] == Handle(key, hash, charge, capacity > 0, if capacity > 0 then 2 else 1)
      ensures forall x :: x in old(state.handles) && Outside(old(state), x) > 0 && !Same(SlotOf(old(state), x), key,
          hash) ==>
                x in state.handles && state.handles[x] == old(state.handles)[x]
    {
      hide ShardInv, TableOk, HandleTable.Valid, HandleTable.Slots, Entered, JustEnough;
      e := state.next;
      ghost var r := None;
      if capacity > 0 {
        r := AddCached(key, hash, charge);
      } else {
        UncountedKeepsInv(state, key, hash, charge);
        Absent(state);
        UncountedTable(state, table.Slots(), key, hash, charge);
        state := Uncounted(state, key, hash, charge);
      }
      ghost var full := state;
      Evict();
      HeldStays(full, state, capacity);
      assert capacity > 0 ==> Entered(old(state), full, key, hash, charge, r);
    }

    /** Entries nobody holds go, oldest first, until usage is within the capacity. */
    method Evict()
      requires Valid()
      modifies this, table
      ensures Valid() && JustEnough(old(state), state, capacity)
    {
      hide ShardInv, TableOk, HandleTable.Valid, HandleTable.Slots, Evicted;
      ghost var full := state;
      ghost var k := 0;
      EvictedNone(full);
      while state.usage > capacity && state.lru != []
        invariant Valid() && k <= |full.lru| && Charges(full.lru[..k], full.handles) <= full.usage
            && state == Evicted(full, k)
        invariant |state.lru| == |full.lru| - k
        invariant k > 0 ==> Charges(full.lru[..k - 1], full.handles) <= full.usage && Evicted(full, k - 1).usage > capacity
        decreases |state.lru|
      {
        EvictedNext(full, k);
        EvictOldest();
        k := k + 1;
        EvictedLength(full, k);
      }
      assert EnoughAfter(full, state, capacity, k);
    }

    lemma EvictedNone(a: Shard)
      ensures Evicted(a, 0) == a
    {
      assert a.lru[..0] == [] && a.lru[0..] == a.lru && a.deleted + [] == a.deleted;
    }

    lemma EvictedLength(a: Shard, k: nat)
      requires k <= |a.lru| && Charges(a.lru[..k], a.handles) <= a.usage
      ensures |Evicted(a, k).lru| == |a.lru| - k
    {
    }

    /** Evictions leave alone what a client holds. */
    lemma HeldStays(a: Shard, b: Shard, capacity: nat)
      requires ShardInv(a) && JustEnough(a, b, capacity)
      ensures forall x :: x in a.handles && Outside(a, x) > 0 ==> x in b.handles && b.handles[x] == a.handles[x]
      ensures b.usage <= capacity || b.lru == []
    {
      HeldNotListed(a);
      hide ShardInv;
      var k: nat :| EnoughAfter(a, b, capacity, k);
      assert forall x :: x in a.lru[..k] ==> x in a.lru;
    }

    lemma Absent(a: Shard)
      requires ShardInv(a)
      ensures a.next !in a.handles
    {
    }

    lemma UncountedTable(a: Shard, slots: set<Slot>, key: Key, hash: nat, charge: nat)
      requires TableOk(a, slots, None) && a.next !in a.handles
      ensures TableOk(Uncounted(a, key, hash, charge), slots, None)
    {
    }

    /** Enters a new handle and drops the one it replaces from the cache. */
    method AddCached(key: Key, hash: nat, charge: nat) returns (ghost r: Option<nat>)
      requires Valid()
      modifies this, table
      ensures Valid() && Entered(old(state), state, key, hash, charge, r)
      ensures old(state.next) in state.handles && state.handles[old(state.next)] == Handle(key, hash, charge, true, 2)
      ensures forall x :: x in old(state.handles) && !Same(SlotOf(old(state), x), key, hash) ==>
          x in state.handles && state.handles[x] == old(state.handles)[x]
    {
      hide ShardInv, HandleTable.Valid, FinishErase;
      Absent(state);
      ghost var slots := table.Slots();
      var s := table.Insert(Slot(key, hash, state.next));
      r := if s.Some? then Some(s.value.id) else None;
      ReplacedSlot(state, slots, key, hash, s);
      CachedKeepsInv(state, key, hash, charge);
      CachedTable(state, slots, key, hash, charge, s);
      hide TableOk;
      state := Cached(state, key, hash, charge);
      if s.Some? { Erased(s.value.id); }
    }

    lemma ReplacedSlot(a: Shard, slots: set<Slot>, key: Key, hash: nat, s: Option<Slot>)
      requires TableOk(a, slots, None)
      requires s.Some? ==> s.value in slots && Same(s.value, key, hash)
      requires s.None? ==> forall t :: t in slots ==> !Same(t, key, hash)
      ensures IsReplaced(a, key, hash, if s.Some? then Some(s.value.id) else None)
    {
    }

    /** Drops every entry that no client holds. */
    method Prune()
      requires Valid()
      modifies this, table
      ensures Valid() && state.lru == [] && Charges(old(state.lru), old(state.handles)) <= old(state.usage)
      ensures state == old(state).(lru := [], handles := old(state.handles) - Ids(old(state.lru)),
          deleted := old(state.deleted) + old(state.lru),
                                   usage := old(state.usage) - Charges(old(state.lru), old(state.handles)))
      ensures Does(old(state), state, DoPrune, None, capacity)
      ensures forall x :: x in old(state.handles) && Outside(old(state), x) > 0 ==>
          x in state.handles && state.handles[x] == old(state.handles)[x]
    {
      hide ShardInv, TableOk, HandleTable.Valid, HandleTable.Slots;
      ghost var full := state;
      ghost var k := 0;
      EvictedNone(full);
      while state.lru != []
        invariant Valid() && k <= |full.lru| && Charges(full.lru[..k], full.handles) <= full.usage
            && state == Evicted(full, k)
        invariant |state.lru| == |full.lru| - k
        decreases |state.lru|
      {
        EvictedNext(full, k);
        EvictOldest();
        k := k + 1;
        EvictedLength(full, k);
      }
      assert full.lru[..k] == full.lru;
      HeldNotListed(full);
    }

    lemma HeldNotListed(a: Shard)
      requires ShardInv(a)
      ensures forall x :: x in a.handles && Outside(a, x) > 0 ==> x !in a.lru
    {
    }
  }
}
