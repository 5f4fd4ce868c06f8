/** The bytewise order and the shortened keys of index blocks. */
module Comparator {
  import opened Coding
  import Block

  predicate Less(a: Bytes, b: Bytes) {
    b != [] && (a == [] || a[0] < b[0] || (a[0] == b[0] && Less(a[1..], b[1..])))
  }

  lemma {:induction false} Asymmetric(a: Bytes, b: Bytes)
    requires Less(a, b)
    ensures !Less(b, a)
  {
    if a != [] && a[0] == b[0] {
      Asymmetric(a[1..], b[1..]);
    }
  }

  lemma {:induction false} Transitive(a: Bytes, b: Bytes, c: Bytes)
    requires Less(a, b) && Less(b, c)
    ensures Less(a, c)
  {
    if a != [] && a[0] == b[0] == c[0] {
      Transitive(a[1..], b[1..], c[1..]);
    }
  }

  lemma {:induction false} Trichotomous(a: Bytes, b: Bytes)
    ensures Less(a, b) || Less(b, a) || a == b
  {
    if a != [] && b != [] && a[0] == b[0] {
      Trichotomous(a[1..], b[1..]);
      if a[1..] == b[1..] { SameTail(a, b); }
    }
  }

  lemma SameTail(a: Bytes, b: Bytes)
    requires a != [] && b != [] && a[0] == b[0] && a[1..] == b[1..]
    ensures a == b
  {
    assert a == [a[0]] + a[1..] && b == [b[0]] + b[1..];
  }

  /** A strict total order, as block iterators need it. */
  lemma BytewiseOrder()
    ensures Block.Order(Less)
  {
    forall a: Bytes, b: Bytes | Less(a, b) ensures !Less(b, a) { Asymmetric(a, b); }
    forall a: Bytes, b: Bytes, c: Bytes | Less(a, b) && Less(b, c) ensures Less(a, c) { Transitive(a, b, c); }
    forall a: Bytes, b: Bytes ensures Less(a, b) || Less(b, a) || a == b { Trichotomous(a, b); }
  }

  /** The first byte that differs decides. */
  lemma {:induction false} FirstDifference(a: Bytes, b: Bytes, n: nat)
    requires n < |a| && n < |b| && a[..n] == b[..n]
    ensures a[n] < b[n] ==> Less(a, b)
    decreases n
  {
    if n > 0 {
      assert a[0] == a[..n][0] == b[0];
      assert a[1..][..n - 1] == a[..n][1..] == b[..n][1..] == b[1..][..n - 1];
      FirstDifference(a[1..], b[1..], n - 1);
    }
  }

  /** If no byte differs the shorter one is less. */
  lemma {:induction false} PrefixLess(a: Bytes, b: Bytes)
    requires a <= b && |a| < |b|
    ensures Less(a, b) && !Less(b, a)
    decreases a
  {
    if a != [] {
      assert a[1..] <= b[1..];
      PrefixLess(a[1..], b[1..]);
    }
  }

  /** n is where the two first differ. */
  predicate Differ(a: Bytes, b: Bytes, n: nat) { n < |a| && n < |b| && a[..n] == b[..n] && a[n] != b[n] }

  /** There is a byte between the first two that differ. */
  predicate Roomy(a: Bytes, b: Bytes, n: nat) { Differ(a, b, n) && (a[n] as int) + 1 < b[n] }

  /** No string strictly between a and b is shorter than r, and none as short is less. */
  ghost predicate LeastBetween(a: Bytes, b: Bytes, r: Bytes) {
    && Less(a, r) && Less(r, b)
    && forall t :: Less(a, t) && Less(t, b) ==> |r| < |t| || (|r| == |t| && !Less(t, r))
  }

  ghost predicate LeastAbove(a: Bytes, r: Bytes) {
    Less(a, r) && forall t :: Less(a, t) ==> |r| < |t| || (|r| == |t| && !Less(t, r))
  }

  /** What lies between two strings begins as they both do. */
  lemma {:induction false} BetweenStarts(a: Bytes, b: Bytes, t: Bytes, n: nat)
    requires n <= |a| && n <= |b| && a[..n] == b[..n] && Less(a, t) && Less(t, b)
    ensures n <= |t| && t[..n] == a[..n]
    decreases n
  {
    if n > 0 {
      assert a[0] == a[..n][0] == b[0];
      assert a[1..][..n - 1] == a[..n][1..] == b[..n][1..] == b[1..][..n - 1];
      BetweenStarts(a[1..], b[1..], t[1..], n - 1);
      assert a[..n] == [a[0]] + a[1..][..n - 1] && t[..n] == [t[0]] + t[1..][..n - 1];
    }
  }

  /** Nothing above a run of 0xff bytes does without it. */
  lemma {:induction false} AboveStarts(a: Bytes, t: Bytes, n: nat)
    requires n <= |a| && (forall i :: 0 <= i < n ==> a[i] == 0xff) && Less(a, t)
    ensures n <= |t| && t[..n] == a[..n]
    decreases n
  {
    if n > 0 {
      AboveStarts(a[1..], t[1..], n - 1);
      assert a[..n] == [a[0]] + a[1..][..n - 1] && t[..n] == [t[0]] + t[1..][..n - 1];
    }
  }

  /** As long as the first n bytes and one more, and above a: that one is higher. */
  lemma {:induction false} LastByteAbove(a: Bytes, t: Bytes, n: nat)
    requires n < |a| && |t| == n + 1 && t[..n] == a[..n] && Less(a, t)
    ensures t[n] > a[n]
    decreases n
  {
    if n > 0 {
      SameBytes(t, a, n);
      assert t[1..][..n - 1] == t[..n][1..] == a[..n][1..] == a[1..][..n - 1];
      LastByteAbove(a[1..], t[1..], n - 1);
    } else {
      NothingBelow(t[1..]);
    }
  }

  lemma NothingBelow(t: Bytes)
    ensures t == [] ==> forall a :: !Less(a, t)
  {
  }

  lemma NotLess(r: Bytes, t: Bytes, n: nat)
    requires |r| == n + 1 == |t| && r[..n] == t[..n] && r[n] <= t[n]
    ensures !Less(t, r)
  {
    if r[n] < t[n] {
      FirstDifference(r, t, n);
      Asymmetric(r, t);
    } else {
      assert r == r[..n] + [r[n]] && t == t[..n] + [t[n]];
      Irreflexive(r);
    }
  }

  lemma {:induction false} Irreflexive(a: Bytes)
    ensures !Less(a, a)
    decreases a
  {
    if a != [] { Irreflexive(a[1..]); }
  }

  /** Above a, with the first n bytes of a: at least n + 1 long, and if no longer then with a higher last byte. */
  lemma NextAbove(a: Bytes, t: Bytes, n: nat)
    requires n < |a| && a[n] < 0xff && n <= |t| && t[..n] == a[..n] && Less(a, t)
    ensures var r := a[..n] + [a[n] + 1]; |r| < |t| || (|r| == |t| && !Less(t, r))
  {
    if |t| == n {
      PrefixLess(t, a);
    } else if |t| == n + 1 {
      LastByteAbove(a, t, n);
      NotLess(a[..n] + [a[n] + 1], t, n);
    }
  }

  lemma SameBytes(a: Bytes, b: Bytes, n: nat)
    requires n <= |a| && n <= |b| && a[..n] == b[..n]
    ensures forall k :: 0 <= k < n ==> a[k] == b[k]
  {
    assert forall k :: 0 <= k < n ==> a[k] == a[..n][k] && b[k] == b[..n][k];
  }

  lemma OneDifference(a: Bytes, b: Bytes, n: nat)
    requires Differ(a, b, n)
    ensures forall m: nat :: Differ(a, b, m) ==> m == n
  {
    SameBytes(a, b, n);
    forall m: nat | Differ(a, b, m) ensures m == n { SameBytes(a, b, m); }
  }

  /** Makes the key the shortest and least string that is above it and below the limit if the first bytes that differ
    leave room in between, and leaves it alone if not. */
  method FindShortestSeparator(start: Bytes, limit: Bytes) returns (r: Bytes)
    ensures r == start <==> forall n: nat :: !Roomy(start, limit, n)
    ensures r != start ==> LeastBetween(start, limit, r)
    ensures forall n: nat :: Roomy(start, limit, n) ==> |r| == n + 1
  {
    r := start;
    var minLength := if |start| < |limit| then |start| else |limit|;
    var diff := 0;
    while diff < minLength && start[diff] == limit[diff]
      invariant diff <= minLength && start[..diff] == limit[..diff]
    {
      diff := diff + 1;
    }
    if diff < minLength {
      OneDifference(start, limit, diff);
      var b := start[diff];
      if b < 0xff && b + 1 < limit[diff] {
        r := start[..diff] + [b + 1];
        assert Roomy(start, limit, diff);
        hide Differ, LeastBetween;
        IsSeparator(start, limit, diff);
      }
    } else {
      NoDifference(start, limit, diff);
    }
  }

  lemma NoDifference(a: Bytes, b: Bytes, n: nat)
    requires (n == |a| || n == |b|) && n <= |a| && n <= |b| && a[..n] == b[..n]
    ensures forall m: nat :: !Differ(a, b, m)
  {
    SameBytes(a, b, n);
  }

  lemma IsSeparator(start: Bytes, limit: Bytes, n: nat)
    requires Roomy(start, limit, n)
    ensures LeastBetween(start, limit, start[..n] + [start[n] + 1]) && start[..n] + [start[n] + 1] != start
  {
    var r := start[..n] + [start[n] + 1];
    assert r[..n] == start[..n] && r[..n] == limit[..n] && r[n] != start[n];
    FirstDifference(start, r, n);
    FirstDifference(r, limit, n);
    forall t | Less(start, t) && Less(t, limit) ensures |r| < |t| || (|r| == |t| && !Less(t, r)) {
      BetweenStarts(start, limit, t, n);
      NextAbove(start, t, n);
    }
  }

  /** Makes the key the shortest and least string above it, unless it is a run of 0xff bytes. */
  method FindShortSuccessor(key: Bytes) returns (r: Bytes)
    ensures r == key <==> forall i :: 0 <= i < |key| ==> key[i] == 0xff
    ensures r != key ==> LeastAbove(key, r)
    ensures r != key ==> 0 < |r| <= |key| && key[|r| - 1] != 0xff && forall k :: 0 <= k < |r| - 1 ==> key[k] == 0xff
  {
    for i := 0 to |key|
      invariant forall k :: 0 <= k < i ==> key[k] == 0xff
    {
      if key[i] != 0xff {
        r := key[..i] + [key[i] + 1];
        IsSuccessor(key, i);
        return;
      }
    }
    r := key;
  }

  lemma IsSuccessor(key: Bytes, n: nat)
    requires n < |key| && key[n] != 0xff && forall k :: 0 <= k < n ==> key[k] == 0xff
    ensures LeastAbove(key, key[..n] + [key[n] + 1]) && key[..n] + [key[n] + 1] != key
  {
    var r := key[..n] + [key[n] + 1];
    assert r[..n] == key[..n] && r[n] == key[n] + 1;
    FirstDifference(key, r, n);
    forall t | Less(key, t) ensures |r| < |t| || (|r| == |t| && !Less(t, r)) {
      AboveStarts(key, t, n);
      NextAbove(key, t, n);
    }
  }

  // ----- internal keys

  const MAX_SEQUENCE: nat := 0xFF_FFFF_FFFF_FFFF
  const TYPE_FOR_SEEK: nat := 1

  function Pack(sequence: nat, kind: nat): nat { sequence * 256 + kind }

  /** A user key and the tag that holds sequence number and type. */
  datatype InternalKey = InternalKey(user: Bytes, tag: nat)

  predicate Before(a: InternalKey, b: InternalKey) {
    Less(a.user, b.user) || (a.user == b.user && a.tag > b.tag)
  }

  /** A shorter user key strictly between the two user keys, with the highest tag, if the user keys leave room for one;
    the key itself if not. */
  method FindShortestInternalSeparator(start: InternalKey, limit: InternalKey) returns (r: InternalKey)
    ensures r == start <==> forall n: nat :: n + 1 < |start.user| ==> !Roomy(start.user, limit.user, n)
    ensures r != start ==>
        r.tag == Pack(MAX_SEQUENCE, TYPE_FOR_SEEK) && |r.user| < |start.user|
        && LeastBetween(start.user, limit.user, r.user)
    ensures Before(start, limit) ==> (r == start || Before(start, r)) && Before(r, limit)
  {
    hide Roomy;
    var tmp := FindShortestSeparator(start.user, limit.user);
    r := start;
    if |tmp| < |start.user| && Less(start.user, tmp) {
      r := InternalKey(tmp, Pack(MAX_SEQUENCE, TYPE_FOR_SEEK));
    }
  }

  method FindShortInternalSuccessor(key: InternalKey) returns (r: InternalKey)
    ensures r == key <==> forall i :: 0 <= i < |key.user| - 1 ==> key.user[i] == 0xff
    ensures r != key ==>
        r.tag == Pack(MAX_SEQUENCE, TYPE_FOR_SEEK) && |r.user| < |key.user| && LeastAbove(key.user, r.user)
    ensures r == key || Before(key, r)
  {
    var tmp := FindShortSuccessor(key.user);
    r := key;
    if |tmp| < |key.user| && Less(key.user, tmp) {
      r := InternalKey(tmp, Pack(MAX_SEQUENCE, TYPE_FOR_SEEK));
    }
  }
}
