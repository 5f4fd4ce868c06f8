/** Data blocks: keys stored as differences, restart points, and an iterator that goes both ways. */
module Block {
  import opened Options
  import opened Coding

  datatype Item = Item(key: Bytes, value: Bytes)

  // ----- the format

  /** An entry that shares so many bytes with the previous key. */
  function Encoded(shared: nat, item: Item): (r: Bytes)
    requires shared <= |item.key|
    ensures |r| >= 3 + |item.key| - shared + |item.value|
  {
    Varint(shared) + Varint(|item.key| - shared) + Varint(|item.value|) + item.key[shared..] + item.value
  }

  /** Where each item of a block is, how much it shares, and which items are restart points. */
  datatype Layout = Layout(items: seq<Item>, offs: seq<nat>, shared: seq<nat>, rs: seq<nat>)

  ghost predicate EntryOk(data: Bytes, l: Layout, i: nat)
    requires |l.offs| == |l.items| + 1 && |l.shared| == |l.items| && i < |l.items|
  {
    && l.shared[i] <= |l.items[i].key| && l.offs[i] < l.offs[i + 1] <= |data|
    && data[l.offs[i]..l.offs[i + 1]] == Encoded(l.shared[i], l.items[i])
    && (l.shared[i] > 0 ==>
       i > 0 && l.shared[i] <= |l.items[i - 1].key| && l.items[i - 1].key[..l.shared[i]] ==
       l.items[i].key[..l.shared[i]])
  }

  ghost predicate Entries(data: Bytes, l: Layout) {
    && |l.offs| == |l.items| + 1 && |l.shared| == |l.items| && l.offs[0] == 0 && l.offs[|l.items|] == |data|
    && forall i :: 0 <= i < |l.items| ==> EntryOk(data, l, i)
  }

  ghost predicate Restarts(restarts: seq<nat>, l: Layout) {
    && |l.offs| == |l.items| + 1 && |l.shared| == |l.items|
    && |restarts| == |l.rs| > 0 && l.rs[0] == 0
    && (forall r :: 0 <= r < |l.rs| ==> l.rs[r] < |l.items| || (r == 0 && l.items == []))
    && (forall r :: 0 <= r < |l.rs| ==> l.rs[r] <= |l.items| && restarts[r] == l.offs[l.rs[r]])
    && (forall r :: 0 <= r < |l.rs| && l.rs[r] < |l.items| ==> l.shared[l.rs[r]] == 0)
    && (forall r, q :: 0 <= r < q < |l.rs| ==> l.rs[r] < l.rs[q])
  }

  function Fixeds(ns: seq<nat>): (r: Bytes)
    ensures |r| == 4 * |ns|
  {
    if ns == [] then [] else Fixeds(ns[..|ns| - 1]) + Fixed32(ns[|ns| - 1])
  }

  function Finished(data: Bytes, restarts: seq<nat>): (r: Bytes)
    ensures |r| == |data| + 4 * |restarts| + 4
  {
    data + Fixeds(restarts) + Fixed32(|restarts|)
  }

  // ----- offsets are in order

  lemma {:induction false} OffsetsGrow(data: Bytes, l: Layout, i: nat, j: nat)
    requires Entries(data, l) && i < j <= |l.items|
    ensures l.offs[i] < l.offs[j] <= |data|
    decreases j - i
  {
    assert EntryOk(data, l, j - 1);
    if i < j - 1 {
      OffsetsGrow(data, l, i, j - 1);
    }
  }

  lemma OffsetOrder(data: Bytes, l: Layout, i: nat, j: nat)
    requires Entries(data, l) && i <= |l.items| && j <= |l.items|
    ensures l.offs[i] < l.offs[j] <==> i < j
    ensures l.offs[i] <= |data|
  {
    if i < j { OffsetsGrow(data, l, i, j); }
    if j < i { OffsetsGrow(data, l, j, i); }
    if i < |l.items| { OffsetsGrow(data, l, i, |l.items|); }
  }

  // ----- the builder

  /** The longest common prefix. */
  ghost predicate SharedPrefix(a: Bytes, b: Bytes, n: nat) {
    n <= |a| && n <= |b| && a[..n] == b[..n] && forall m: nat :: m <= |a| && m <= |b| && a[..m] == b[..m] ==> m <= n
  }

  /** A restart every so many items, and in between each key shares all it can with the one before. */
  ghost predicate Compressed(l: Layout, interval: nat) {
    && |l.shared| == |l.items| && |l.rs| > 0 && l.rs[0] == 0
    && (forall r :: 0 < r < |l.rs| ==> l.rs[r] == l.rs[r - 1] + interval)
    && l.rs[|l.rs| - 1] <= |l.items| <= l.rs[|l.rs| - 1] + interval && (l.items != [] ==> l.rs[|l.rs| - 1] < |l.items|)
    && forall i :: 0 <= i < |l.items| ==> SharesAll(l, i)
  }

  ghost predicate SharesAll(l: Layout, i: nat)
    requires |l.shared| == |l.items| > i
  {
    if i in l.rs then l.shared[i] == 0 else i > 0 && SharedPrefix(l.items[i - 1].key, l.items[i].key, l.shared[i])
  }

  lemma Longest(a: Bytes, b: Bytes, n: nat)
    requires n <= |a| && n <= |b| && a[..n] == b[..n] && (n < |a| && n < |b| ==> a[n] != b[n])
    ensures SharedPrefix(a, b, n)
  {
    forall m: nat | n < m && m <= |a| && m <= |b| ensures a[..m] != b[..m] {
      assert a[..m][n] == a[n] && b[..m][n] == b[n];
    }
  }

  lemma StillCompressed(l: Layout, interval: nat, item: Item, shared: nat, again: bool, l': Layout)
    requires Compressed(l, interval) && interval >= 1
    requires again <==> |l.items| == l.rs[|l.rs| - 1] + interval
    requires if again || l.items == [] then shared == 0
             else SharedPrefix(l.items[|l.items| - 1].key, item.key, shared)
    requires l'.items == l.items + [item] && l'.shared == l.shared + [shared]
    requires l'.rs == if again then l.rs + [|l.items|] else l.rs
    ensures Compressed(l', interval)
  {
    var n := |l.items|;
    RestartsRise(l, interval);
    hide SharedPrefix;
    forall i | 0 <= i < n + 1 ensures SharesAll(l', i) {
      if i < n {
        assert SharesAll(l, i) && (i in l'.rs <==> i in l.rs);
      } else if again {
        assert l'.rs[|l.rs|] == n;
      } else if n == 0 {
        assert l'.rs[0] == n;
      }
    }
  }

  /** No restart lies at the item that comes next, unless it is the first. */
  lemma RestartsRise(l: Layout, interval: nat)
    requires Compressed(l, interval) && interval >= 1
    ensures l.items != [] ==> |l.items| !in l.rs
  {
    forall r | 0 <= r < |l.rs| ensures l.rs[r] <= l.rs[|l.rs| - 1] { Rising(l, interval, r); }
  }

  lemma {:induction false} Rising(l: Layout, interval: nat, r: nat)
    requires Compressed(l, interval) && r < |l.rs|
    ensures l.rs[r] <= l.rs[|l.rs| - 1]
    decreases |l.rs| - r
  {
    if r + 1 < |l.rs| { Rising(l, interval, r + 1); }
  }

  class BlockBuilder {
    const interval: nat
    var buffer: Bytes
    var restarts: seq<nat>
    var counter: nat
    var lastKey: Bytes
    ghost var layout: Layout

    ghost predicate Valid()
      reads this
    {
      && interval >= 1 && counter <= interval
      && Entries(buffer, layout) && Restarts(restarts, layout) && Compressed(layout, interval)
      && lastKey == (if layout.items == [] then [] else layout.items[|layout.items| - 1].key)
      && counter == |layout.items| - layout.rs[|layout.rs| - 1]
    }

    constructor (interval: nat)
      requires interval >= 1
      ensures Valid() && layout.items == [] && this.interval == interval
    {
      this.interval := interval;
      buffer, restarts, counter, lastKey := [], [0], 0, [];
      layout := Layout([], [0], [], [0]);
    }

    /** How much of the key is the same as in the previous one. */
    method SharedLength(key: Bytes) returns (shared: nat)
      ensures shared <= |lastKey| && shared <= |key| && lastKey[..shared] == key[..shared]
      ensures shared < |lastKey| && shared < |key| ==> lastKey[shared] != key[shared]
    {
      var minLength := Min(|lastKey|, |key|);
      shared := 0;
      while shared < minLength && lastKey[shared] == key[shared]
        invariant shared <= minLength && lastKey[..shared] == key[..shared]
      {
        shared := shared + 1;
      }
    }

    method Emit(shared: nat, key: Bytes, value: Bytes)
      requires shared <= |key|
      modifies this`buffer
      ensures buffer == old(buffer) + Encoded(shared, Item(key, value))
    {
      var nonShared := |key| - shared;
      buffer := buffer + Varint(shared) + Varint(nonShared) + Varint(|value|);
      buffer := buffer + key[shared..] + value;
      EncodedParts(old(buffer), shared, Item(key, value));
    }

    /** A restart point is at most interval items back. */
    method Add(key: Bytes, value: Bytes)
      requires Valid()
      modifies this
      ensures Valid() && layout.items == old(layout.items) + [Item(key, value)]
      ensures old(buffer) <= buffer
    {
      hide Entries, Restarts, Encoded, Compressed;
      ghost var before, l, old0, again := buffer, layout, restarts, counter == interval;
      LastRestart(buffer, restarts, l);
      var shared := 0;
      if counter < interval {
        shared := SharedLength(key);
        Longest(lastKey, key, shared);
      } else {
        restarts := restarts + [|buffer|];
        counter := 0;
      }
      Emit(shared, key, value);
      layout := Layout(l.items + [Item(key, value)], l.offs + [|buffer|], l.shared + [shared],
          if again then l.rs + [|l.items|] else l.rs);
      OneMoreItem(before, l, old0, interval, shared, Item(key, value), again, buffer, restarts, layout);
      Rejoined(lastKey, key, shared);
      lastKey := lastKey[..shared] + key[shared..];
      counter := counter + 1;
    }

    method Finish() returns (block: Bytes)
      requires Valid()
      modifies this`buffer
      ensures block == Finished(old(buffer), restarts)
    {
      ghost var data := buffer;
      var i := 0;
      while i < |restarts|
        invariant i <= |restarts| && buffer == data + Fixeds(restarts[..i])
      {
        assert restarts[..i + 1][..i] == restarts[..i];
        buffer := buffer + Fixed32(restarts[i]);
        i := i + 1;
      }
      assert restarts[..i] == restarts;
      buffer := buffer + Fixed32(|restarts|);
      block := buffer;
    }
  }

  lemma Rejoined(a: Bytes, b: Bytes, n: nat)
    requires n <= |a| && n <= |b| && a[..n] == b[..n]
    ensures a[..n] + b[n..] == b
  {
  }

  lemma EncodedParts(before: Bytes, shared: nat, item: Item)
    requires shared <= |item.key|
    ensures before + Varint(shared) + Varint(|item.key| - shared) + Varint(|item.value|) + item.key[shared..]
        + item.value == before + Encoded(shared, item)
  {
  }

  lemma LastRestart(data: Bytes, restarts: seq<nat>, l: Layout)
    requires Entries(data, l) && Restarts(restarts, l)
    ensures |l.rs| > 0 && (l.items != [] ==> l.rs[|l.rs| - 1] < |l.items|) && (l.items == [] ==> l.rs[|l.rs| - 1] == 0)
    ensures |l.offs| == |l.items| + 1 && |l.shared| == |l.items| && l.offs[|l.items|] == |data|
  {
  }

  lemma MoreRestarts(data: Bytes, l: Layout, restarts: seq<nat>, restarts': seq<nat>, again: bool, l': Layout)
    requires Restarts(restarts, l) && l.offs[|l.items|] == |data| && |l'.items| == |l.items| + 1
    requires |l'.offs| == |l.offs| + 1 && l.offs <= l'.offs && |l'.shared| == |l.items| + 1 && l.shared <= l'.shared
    requires restarts' == if again then restarts + [|data|] else restarts
    requires l'.rs == if again then l.rs + [|l.items|] else l.rs
    requires again || l.items == [] ==> l'.shared[|l.items|] == 0
    requires again ==> l.items != []
    ensures Restarts(restarts', l')
  {
    forall r | 0 <= r < |l'.rs| ensures l'.rs[r] < |l'.items| && restarts'[r] == l'.offs[l'.rs[r]]
      && l'.shared[l'.rs[r]] == 0 {
      if r < |l.rs| {
        assert l.rs[r] <= |l.items| && restarts[r] == l.offs[l.rs[r]];
        assert l'.offs[l.rs[r]] == l.offs[l.rs[r]];
      }
    }
  }

  lemma OneMoreItem(data: Bytes, l: Layout, restarts: seq<nat>, interval: nat, shared: nat, item: Item, again: bool,
      data': Bytes, restarts': seq<nat>, l': Layout)
    requires Entries(data, l) && Restarts(restarts, l) && Compressed(l, interval) && interval >= 1
    requires again <==> |l.items| == l.rs[|l.rs| - 1] + interval
    requires if again || l.items == [] then shared == 0
             else SharedPrefix(l.items[|l.items| - 1].key, item.key, shared)
    requires shared <= |item.key| && data' == data + Encoded(shared, item)
    requires restarts' == if again then restarts + [|data|] else restarts
    requires l' == Layout(l.items + [item], l.offs + [|data'|], l.shared + [shared],
                          if again then l.rs + [|l.items|] else l.rs)
    ensures Entries(data', l') && Restarts(restarts', l') && Compressed(l', interval)
  {
    LastRestart(data, restarts, l);
    hide Entries, Restarts, Encoded, Compressed;
    Extended(data, l, shared, item, data', l');
    MoreRestarts(data, l, restarts, restarts', again, l');
    StillCompressed(l, interval, item, shared, again, l');
  }

  lemma Extended(data: Bytes, l: Layout, shared: nat, item: Item, data': Bytes, l': Layout)
    requires Entries(data, l) && shared <= |item.key| && data' == data + Encoded(shared, item)
    requires shared > 0 ==>
        l.items != [] && shared <= |l.items[|l.items| - 1].key|
        && l.items[|l.items| - 1].key[..shared] == item.key[..shared]
    requires l'.items == l.items + [item] && l'.offs == l.offs + [|data'|] && l'.shared == l.shared + [shared]
    ensures Entries(data', l')
  {
    forall i | 0 <= i < |l'.items| ensures EntryOk(data', l', i) {
      if i < |l.items| {
        assert EntryOk(data, l, i);
        assert data'[l.offs[i]..l.offs[i + 1]] == data[l.offs[i]..l.offs[i + 1]];
      }
    }
  }

  // ----- reading the format

  datatype Decoded = Decoded(shared: nat, nonShared: nat, valueLength: nat, delta: nat)

  /** The three lengths at p, and where the key bytes start; nothing past limit is looked at. */
  function DecodeEntry(block: Bytes, p: nat, limit: nat): (r: Option<Decoded>)
    requires p <= limit <= |block|
    ensures r.Some? ==> p < r.value.delta && r.value.delta + r.value.nonShared + r.value.valueLength <= limit
  {
    if limit - p < 3 then None
    else if block[p] < 128 && block[p + 1] < 128 && block[p + 2] < 128 then
      Fits(Decoded(block[p], block[p + 1], block[p + 2], p + 3), limit)
    else SlowDecode(block, p, limit)
  }

  function SlowDecode(block: Bytes, p: nat, limit: nat): (r: Option<Decoded>)
    requires p <= limit <= |block|
    ensures r.Some? ==> p < r.value.delta && r.value.delta + r.value.nonShared + r.value.valueLength <= limit
  {
    var a := GetVarint32(block[p..limit]);
    if a.None? then None else
    var b := GetVarint32(block[p + a.value.1..limit]);
    if b.None? then None else
    var c := GetVarint32(block[p + a.value.1 + b.value.1..limit]);
    if c.None? then None else
    Fits(Decoded(a.value.0, b.value.0, c.value.0, p + a.value.1 + b.value.1 + c.value.1), limit)
  }

  function Fits(d: Decoded, limit: nat): (r: Option<Decoded>)
    ensures r.Some? <==> d.delta + d.nonShared + d.valueLength <= limit
    ensures r.Some? ==> r.value == d
  {
    if limit < d.delta + d.nonShared + d.valueLength then None else Some(d)
  }

  lemma OneByteVarint(v: nat, rest: Bytes)
    ensures var s := Varint(v) + rest; if s[0] < 128 then v == s[0] && |Varint(v)| == 1 else v >= 128
  {
  }

  /** The lengths of an entry read back, by the one-byte path exactly when all three are below 128. */
  lemma DecodeEncoded(block: Bytes, p: nat, limit: nat, shared: nat, item: Item)
    requires p <= limit <= |block| < TWO32 && shared <= |item.key| < TWO32
    requires Encoded(shared, item) <= block[p..limit]
    ensures var d := DecodeEntry(block, p, limit);
        d.Some? && d.value.shared == shared && d.value.nonShared == |item.key| - shared
        && d.value.valueLength == |item.value|
    ensures var d := DecodeEntry(block, p, limit).value;
        d.delta + d.nonShared + d.valueLength == p + |Encoded(shared, item)|
    ensures var d := DecodeEntry(block, p, limit).value;
        block[d.delta..d.delta + d.nonShared] == item.key[shared..]
        && block[d.delta + d.nonShared..][..|item.value|] == item.value
  {
    var e := Encoded(shared, item);
    var x, y, z := shared, |item.key| - shared, |item.value|;
    var a, b, c := Varint(x), Varint(y), Varint(z);
    var tail := item.key[shared..] + item.value;
    var rest := block[p + |e|..limit];
    FourParts(block, p, limit, a, b, c, item.key[shared..], item.value, rest);
    hide Encoded, Varint;
    ThreeLengths(block, p, limit, x, y, z, tail + rest);
  }

  lemma SlowLengths(block: Bytes, p: nat, limit: nat, x: nat, y: nat, z: nat, t: Bytes)
    requires p <= limit <= |block| && x < TWO32 && y < TWO32 && z < TWO32 && y + z <= |t|
    requires block[p..limit] == Varint(x) + (Varint(y) + (Varint(z) + t))
    requires block[p + |Varint(x)|..limit] == Varint(y) + (Varint(z) + t)
    requires block[p + |Varint(x)| + |Varint(y)|..limit] == Varint(z) + t
    ensures SlowDecode(block, p, limit) == Some(Decoded(x, y, z, p + |Varint(x)| + |Varint(y)| + |Varint(z)|))
  {
    var a, b, c := Varint(x), Varint(y), Varint(z);
    hide Varint, GetVarint32;
    Varint32RoundTrip(x, b + (c + t));
    Varint32RoundTrip(y, c + t);
    Varint32RoundTrip(z, t);
    assert p + |a| + |b| + |c| + |t| == limit;
  }

  lemma ThreeLengths(block: Bytes, p: nat, limit: nat, x: nat, y: nat, z: nat, t: Bytes)
    requires p <= limit <= |block| && x < TWO32 && y < TWO32 && z < TWO32 && y + z <= |t|
    requires block[p..limit] == Varint(x) + (Varint(y) + (Varint(z) + t))
    requires block[p + |Varint(x)|..limit] == Varint(y) + (Varint(z) + t)
    requires block[p + |Varint(x)| + |Varint(y)|..limit] == Varint(z) + t
    ensures DecodeEntry(block, p, limit) == Some(Decoded(x, y, z, p + |Varint(x)| + |Varint(y)| + |Varint(z)|))
  {
    var a, b, c := Varint(x), Varint(y), Varint(z);
    SlowLengths(block, p, limit, x, y, z, t);
    OneByteVarint(x, b + (c + t));
    OneByteVarint(y, c + t);
    OneByteVarint(z, t);
    hide Varint, SlowDecode;
    assert block[p] == block[p..limit][0];
    if |a| == 1 {
      assert block[p + 1] == block[p + |a|..limit][0];
      if |b| == 1 {
        assert block[p + 2] == block[p + |a| + |b|..limit][0];
      }
    }
    assert p + |a| + |b| + |c| + |t| == limit;
  }

  lemma FourParts(block: Bytes, p: nat, limit: nat, a: Bytes, b: Bytes, c: Bytes, k: Bytes, v: Bytes, rest: Bytes)
    requires p <= limit <= |block| && a + b + c + k + v <= block[p..limit]
    requires rest == block[p + |a + b + c + k + v|..limit]
    ensures block[p..limit] == a + (b + (c + ((k + v) + rest)))
    ensures block[p + |a|..limit] == b + (c + ((k + v) + rest))
    ensures block[p + |a| + |b|..limit] == c + ((k + v) + rest)
    ensures block[p + |a| + |b| + |c|..limit] == (k + v) + rest
    ensures block[p + |a| + |b| + |c|..p + |a| + |b| + |c| + |k|] == k
    ensures block[p + |a| + |b| + |c| + |k|..][..|v|] == v
  {
    var w := block[p..limit];
    assert w == (a + b + c + k + v) + rest by {
      assert w == w[..|a + b + c + k + v|] + w[|a + b + c + k + v|..];
    }
    assert w == a + (b + (c + ((k + v) + rest)));
    Dropped(block, p, limit, a, b + (c + ((k + v) + rest)));
    Dropped(block, p + |a|, limit, b, c + ((k + v) + rest));
    Dropped(block, p + |a| + |b|, limit, c, (k + v) + rest);
    var q := p + |a| + |b| + |c|;
    assert block[q..limit][..|k|] == k && block[q..limit][|k|..|k| + |v|] == v;
    assert block[q..q + |k|] == block[q..limit][..|k|];
    SliceOfSlice(block, q, limit, |k|, |k| + |v|);
    SliceOfSlice(block, q + |k|, |block|, 0, |v|);
  }

  lemma Dropped(block: Bytes, p: nat, limit: nat, a: Bytes, b: Bytes)
    requires p <= limit <= |block| && block[p..limit] == a + b
    ensures p + |a| <= limit && block[p + |a|..limit] == b
  {
    assert block[p..limit][|a|..] == b;
  }

  // ----- restart array

  function RestartAt(block: Bytes, restarts: nat, i: nat): nat
    requires restarts + 4 * i + 4 <= |block|
  {
    UnFixed(block[restarts + 4 * i..restarts + 4 * i + 4])
  }

  lemma {:induction false} FixedsAt(ns: seq<nat>, i: nat)
    requires i < |ns|
    ensures Fixeds(ns)[4 * i..4 * i + 4] == Fixed32(ns[i])
  {
    var n := |ns| - 1;
    if i < n {
      FixedsAt(ns[..n], i);
      assert Fixeds(ns)[4 * i..4 * i + 4] == Fixeds(ns[..n])[4 * i..4 * i + 4];
    }
  }

  /** The restart array of a finished block reads back. */
  lemma RestartRead(data: Bytes, ns: seq<nat>, i: nat)
    requires i < |ns| && ns[i] < TWO32
    ensures RestartAt(Finished(data, ns), |data|, i) == ns[i]
  {
    hide Fixeds, Fixed32;
    var block := Finished(data, ns);
    FixedsAt(ns, i);
    var f := Fixeds(ns);
    assert block[|data|..|data| + |f|] == f;
    SliceOfSlice(block, |data|, |data| + |f|, 4 * i, 4 * i + 4);
    Fixed32RoundTrip(ns[i]);
  }

  lemma CountRead(data: Bytes, ns: seq<nat>)
    requires |ns| < TWO32
    ensures var b := Finished(data, ns); UnFixed(b[|b| - 4..]) == |ns|
  {
    hide Fixeds, Fixed32;
    var block := Finished(data, ns);
    assert block[|block| - 4..] == Fixed32(|ns|);
    Fixed32RoundTrip(|ns|);
  }

  // ----- the iterator

  /** A strict total order on keys. */
  ghost predicate Order(lt: (Bytes, Bytes) -> bool) {
    && (forall a, b :: lt(a, b) ==> !lt(b, a))
    && (forall a, b, c :: lt(a, b) && lt(b, c) ==> lt(a, c))
    && (forall a, b :: lt(a, b) || lt(b, a) || a == b)
  }

  ghost predicate Increasing(lt: (Bytes, Bytes) -> bool, items: seq<Item>) {
    forall i, j :: 0 <= i < j < |items| ==> lt(items[i].key, items[j].key)
  }

  /** The first item at or after the target, found one by one. */
  function SeekIndex(lt: (Bytes, Bytes) -> bool, items: seq<Item>, target: Bytes): (k: nat)
    ensures k <= |items| && (forall i :: 0 <= i < k ==> lt(items[i].key, target))
    ensures k < |items| ==> !lt(items[k].key, target)
    decreases items
  {
    if items == [] || !lt(items[0].key, target) then 0 else 1 + SeekIndex(lt, items[1..], target)
  }

  class Iter {
    const lt: (Bytes, Bytes) -> bool
    const block: Bytes
    const restarts: nat           // offset of the restart array
    const numRestarts: nat
    var current: nat              // offset of the current entry; restarts when not valid
    var restartIndex: nat
    var key: Bytes
    var valueAt: nat              // the value slice
    var valueLength: nat
    ghost const layout: Layout
    ghost var pos: nat            // index of the current item; the number of items when not valid

    ghost predicate Formed() {
      && restarts + 4 * numRestarts <= |block| < TWO32 && |layout.rs| == numRestarts > 0
      && |layout.offs| == |layout.items| + 1 && |layout.shared| == |layout.items|
      && Entries(block[..restarts], layout)
      && Restarts(seq(numRestarts, i requires 0 <= i < numRestarts => RestartAt(block, restarts, i)), layout)
    }

    /** ParseNextKey would read item i. */
    ghost predicate Ready(i: nat)
      reads this
    {
      && Formed() && i <= |layout.items| && valueAt + valueLength == layout.offs[i]
      && (i < |layout.items| ==>
            && layout.shared[i] <= |key| && layout.shared[i] <= |layout.items[i].key|
            && key[..layout.shared[i]] == layout.items[i].key[..layout.shared[i]])
      && restartIndex < numRestarts && layout.rs[restartIndex] <= i
    }

    ghost predicate Valid()
      reads this
    {
      && Formed() && pos <= |layout.items|
      && (if pos == |layout.items| then current == restarts else
            && current == layout.offs[pos] && key == layout.items[pos].key
            && valueAt + valueLength == layout.offs[pos + 1] <= |block|
            && block[valueAt..valueAt + valueLength] == layout.items[pos].value
            && restartIndex < numRestarts && layout.rs[restartIndex] <= pos)
    }

    /** Opens a finished block. */
    constructor (lt: (Bytes, Bytes) -> bool, block: Bytes, ghost data: Bytes, ghost ns: seq<nat>, ghost layout: Layout)
      requires block == Finished(data, ns) && |block| < TWO32
      requires Entries(data, layout) && Restarts(ns, layout)
      ensures Valid() && pos == |layout.items| && this.layout == layout && this.lt == lt
    {
      CountRead(data, ns);
      ReadRestarts(data, ns, layout);
      var n := UnFixed(block[|block| - 4..]);
      this.lt, this.block, this.layout := lt, block, layout;
      numRestarts := n;
      restarts := |block| - (1 + n) * 4;
      current := |block| - (1 + n) * 4;
      restartIndex := n;
      key, valueAt, valueLength := [], 0, 0;
      pos := |layout.items|;
      new;
      assert block[..restarts] == data;
      assert seq(numRestarts, i requires 0 <= i < numRestarts => RestartAt(block, restarts, i)) == ns;
    }

    function NextEntryOffset(): nat
      reads this
    {
      valueAt + valueLength
    }

    function GetRestartPoint(i: nat): (r: nat)
      requires Formed() && i < numRestarts
      ensures r == layout.offs[layout.rs[i]] <= restarts
    {
      assert seq(numRestarts, j requires 0 <= j < numRestarts => RestartAt(block, restarts, j))[i] ==
          RestartAt(block, restarts, i);
      OffsetOrder(block[..restarts], layout, layout.rs[i], |layout.items|);
      RestartAt(block, restarts, i)
    }

    method SeekToRestartPoint(i: nat)
      requires Formed() && i < numRestarts
      modifies this
      ensures Ready(layout.rs[i]) && pos == old(pos) && restartIndex == i
    {
      key := [];
      restartIndex := i;
      valueAt := GetRestartPoint(i);
      valueLength := 0;
    }

    /** Moves to the entry after the value slice. */
    method ParseNextKey(ghost i: nat) returns (more: bool)
      requires Ready(i)
      modifies this
      ensures Valid() && pos == i && (more <==> i < |layout.items|)
      ensures more ==> Ready(i + 1) && current == layout.offs[i]
    {
      hide Restarts, Entries, DecodeEntry, RestartAt;
      current := NextEntryOffset();
      pos := i;
      Compare(i, |layout.items|);
      DataEnd();
      if current >= restarts {
        current := restarts;
        restartIndex := numRestarts;
        return false;
      }
      EntryDecodes(block, restarts, layout, i);
      var d := DecodeEntry(block, current, restarts);
      if d.None? || |key| < d.value.shared {
        assert false;          // a malformed entry: not in a block that was built
      }
      KeyJoined(key, block[d.value.delta..d.value.delta + d.value.nonShared], layout.items[i].key, d.value.shared);
      key := key[..d.value.shared] + block[d.value.delta..d.value.delta + d.value.nonShared];
      valueAt, valueLength := d.value.delta + d.value.nonShared, d.value.valueLength;
      NextShares(block[..restarts], layout, i);
      AdvanceRestart(i);
      more := true;
    }

    method AdvanceRestart(ghost i: nat)
      requires Formed() && i < |layout.items| && current == layout.offs[i]
      requires restartIndex < numRestarts && layout.rs[restartIndex] <= i
      modifies this`restartIndex
      ensures restartIndex < numRestarts && layout.rs[restartIndex] <= i
    {
      while restartIndex + 1 < numRestarts && GetRestartPoint(restartIndex + 1) < current
        invariant restartIndex < numRestarts && layout.rs[restartIndex] <= i
        decreases numRestarts - restartIndex
      {
        RestartItem(restartIndex + 1);
        OffsetOrder(block[..restarts], layout, layout.rs[restartIndex + 1], i);
        restartIndex := restartIndex + 1;
      }
    }

    method Next()
      requires Valid() && pos < |layout.items|
      modifies this
      ensures Valid() && pos == old(pos) + 1
    {
      NextShares(block[..restarts], layout, pos);
      var more := ParseNextKey(pos + 1);
    }

    /** Back to the last restart point before the current entry, then forward to just before it. */
    method Prev()
      requires Valid() && pos < |layout.items|
      modifies this
      ensures Valid() && pos == if old(pos) == 0 then |layout.items| else old(pos) - 1
    {
      hide Entries, Restarts;
      var original := current;
      ghost var i := pos;
      while GetRestartPoint(restartIndex) >= original
        invariant restartIndex < numRestarts && Formed() && original == layout.offs[i] && pos == i
        decreases restartIndex
      {
        if restartIndex == 0 {
          FirstRestart(i);
          current := restarts;
          restartIndex := numRestarts;
          pos := |layout.items|;
          return;
        }
        restartIndex := restartIndex - 1;
      }
      SeekToRestartPoint(restartIndex);
      ghost var k := layout.rs[restartIndex];
      Compare(k, i);
      while true
        invariant Ready(k) && k < i < |layout.items| && original == layout.offs[i]
        decreases i - k
      {
        var more := ParseNextKey(k);
        Compare(k + 1, i);
        if !more || NextEntryOffset() >= original {
          break;
        }
        k := k + 1;
      }
    }

    lemma FirstRestart(i: nat)
      requires Formed() && i < |layout.items| && GetRestartPoint(0) >= layout.offs[i]
      ensures i == 0
    {
      Compare(0, i);
    }

    lemma Compare(i: nat, j: nat)
      requires Formed() && i <= |layout.items| && j <= |layout.items|
      ensures |layout.offs| == |layout.items| + 1 && (layout.offs[i] < layout.offs[j] <==> i < j)
    {
      OffsetOrder(block[..restarts], layout, i, j);
    }

    method SeekToFirst()
      requires Valid()
      modifies this
      ensures Valid() && pos == 0
    {
      SeekToRestartPoint(0);
      var more := ParseNextKey(0);
    }

    method SeekToLast()
      requires Valid()
      modifies this
      ensures Valid() && pos == if layout.items == [] then 0 else |layout.items| - 1
    {
      hide Entries, Restarts;
      SeekToRestartPoint(numRestarts - 1);
      ghost var k := layout.rs[numRestarts - 1];
      RestartItem(numRestarts - 1);
      while true
        invariant Ready(k) && (k < |layout.items| || layout.items == [])
        decreases |layout.items| - k
      {
        var more := ParseNextKey(k);
        if !more { break; }
        Compare(k + 1, |layout.items|);
        DataEnd();
        if NextEntryOffset() >= restarts { break; }
        k := k + 1;
      }
    }

    lemma DataEnd()
      requires Formed()
      ensures |layout.offs| == |layout.items| + 1 && layout.offs[|layout.items|] == restarts
    {
    }

    /** Binary search over the restart points, then item by item: the same as searching all items one by one. */
    method Seek(target: Bytes)
      requires Valid() && Order(lt) && Increasing(lt, layout.items)
      modifies this
      ensures Valid() && pos == SeekIndex(lt, layout.items, target)
    {
      hide Entries, Restarts, Order, Increasing;
      var left, right := 0, numRestarts - 1;
      while left < right
        invariant left <= right < numRestarts && Valid()
        invariant left > 0 ==> RestartBelow(left, target)
      {
        var mid := (left + right + 1) / 2;
        var regionOffset := GetRestartPoint(mid);
        RestartItem(mid);
        EntryDecodes(block, restarts, layout, layout.rs[mid]);
        var d := DecodeEntry(block, regionOffset, restarts);
        if d.None? || d.value.shared != 0 {
          assert false;          // a malformed entry: not in a block that was built
        }
        var midKey := block[d.value.delta..d.value.delta + d.value.nonShared];
        if lt(midKey, target) {
          left := mid;
        } else {
          right := mid - 1;
        }
      }
      SeekToRestartPoint(left);
      ghost var k := layout.rs[left];
      RestartItem(left);
      if left > 0 { BelowRestart(left, target); }
      while true
        invariant Ready(k) && forall i :: 0 <= i < k ==> lt(layout.items[i].key, target)
        decreases |layout.items| - k
      {
        var more := ParseNextKey(k);
        if !more || !lt(key, target) {
          SeekUnique(lt, layout.items, target, k);
          return;
        }
        k := k + 1;
      }
    }

    ghost predicate RestartBelow(r: nat, target: Bytes)
      requires Formed() && 0 < r < numRestarts
    {
      RestartItem(r);
      lt(layout.items[layout.rs[r]].key, target)
    }

    lemma RestartItem(r: nat)
      requires Formed() && r < numRestarts
      ensures layout.rs[r] <= |layout.items| && layout.rs[0] == 0 && (layout.items == [] ==> r == 0)
      ensures r > 0 ==> layout.rs[r] < |layout.items| && layout.shared[layout.rs[r]] == 0
      ensures GetRestartPoint(r) == layout.offs[layout.rs[r]]
    {
    }

    lemma BelowRestart(r: nat, target: Bytes)
      requires Formed() && Order(lt) && Increasing(lt, layout.items) && 0 < r < numRestarts && RestartBelow(r, target)
      ensures layout.rs[r] < |layout.items| && forall i :: 0 <= i < layout.rs[r] ==> lt(layout.items[i].key, target)
    {
      RestartItem(r);
    }
  }

  lemma {:induction false} SeekUnique(lt: (Bytes, Bytes) -> bool, items: seq<Item>, target: Bytes, m: nat)
    requires m <= |items| && (forall i :: 0 <= i < m ==> lt(items[i].key, target))
        && (m < |items| ==> !lt(items[m].key, target))
    ensures SeekIndex(lt, items, target) == m
  {
  }

  lemma EntryDecodes(block: Bytes, restarts: nat, l: Layout, i: nat)
    requires restarts <= |block| < TWO32 && Entries(block[..restarts], l) && i < |l.items|
    ensures l.offs[i] < l.offs[i + 1] <= restarts
    ensures var d := DecodeEntry(block, l.offs[i], restarts);
        d.Some? && d.value.shared == l.shared[i] <= |l.items[i].key|
    ensures var d := DecodeEntry(block, l.offs[i], restarts).value;
        d.delta + d.nonShared + d.valueLength == l.offs[i + 1]
    ensures var d := DecodeEntry(block, l.offs[i], restarts).value;
            block[d.delta..d.delta + d.nonShared] == l.items[i].key[l.shared[i]..] &&
            block[d.delta + d.nonShared..l.offs[i + 1]] == l.items[i].value
  {
    var p, q := l.offs[i], l.offs[i + 1];
    var data := block[..restarts];
    assert EntryOk(data, l, i);
    var e := Encoded(l.shared[i], l.items[i]);
    assert data[p..q] == block[p..q] == e;
    assert |e| == q - p;
    SliceOfSlice(block, p, restarts, 0, q - p);
    assert e == block[p..restarts][..q - p];
    KeyLength(data, l, i);
    hide Encoded;
    DecodeEncoded(block, p, restarts, l.shared[i], l.items[i]);
    var d := DecodeEntry(block, p, restarts).value;
    SliceOfSlice(block, d.delta + d.nonShared, |block|, 0, |l.items[i].value|);
  }

  /** A key is no longer than the entries up to its own. */
  lemma {:induction false} KeyLength(data: Bytes, l: Layout, i: nat)
    requires Entries(data, l) && i < |l.items|
    ensures |l.items[i].key| <= l.offs[i + 1]
    decreases i
  {
    assert EntryOk(data, l, i);
    if i > 0 {
      assert EntryOk(data, l, i - 1);
      KeyLength(data, l, i - 1);
    }
  }

  lemma KeyJoined(before: Bytes, delta: Bytes, key: Bytes, shared: nat)
    requires shared <= |before| && shared <= |key| && before[..shared] == key[..shared] && delta == key[shared..]
    ensures before[..shared] + delta == key
  {
  }

  lemma NextShares(data: Bytes, l: Layout, i: nat)
    requires Entries(data, l) && i < |l.items|
    ensures i + 1 < |l.items| ==>
        l.shared[i + 1] <= |l.items[i].key| && l.shared[i + 1] <= |l.items[i + 1].key|
        && l.items[i].key[..l.shared[i + 1]] == l.items[i + 1].key[..l.shared[i + 1]]
  {
    if i + 1 < |l.items| {
      assert EntryOk(data, l, i + 1);
    }
  }

  lemma ReadRestarts(data: Bytes, ns: seq<nat>, l: Layout)
    requires |Finished(data, ns)| < TWO32 && Entries(data, l) && Restarts(ns, l)
    ensures forall i :: 0 <= i < |ns| ==> RestartAt(Finished(data, ns), |data|, i) == ns[i]
  {
    forall i | 0 <= i < |ns| ensures RestartAt(Finished(data, ns), |data|, i) == ns[i] {
      OffsetOrder(data, l, l.rs[i], |l.items|);
      RestartRead(data, ns, i);
    }
  }
}
