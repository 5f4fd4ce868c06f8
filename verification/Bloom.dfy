/** The Bloom filter of a list of keys: bits set by double hashing, and the test for a key. */
module Bloom {
  import opened Coding

  // ----- bits of a byte

  /** x & (1 << b) is not zero. */
  predicate Bit(x: nat, b: nat) {
    if b == 0 then x % 2 == 1 else Bit(x / 2, b - 1)
  }

  /** x | (1 << b) */
  function WithBit(x: nat, b: nat): nat {
    if b == 0 then x - x % 2 + 1 else x % 2 + 2 * WithBit(x / 2, b - 1)
  }

  lemma {:induction false} BitSet(x: nat, b: nat, c: nat)
    ensures Bit(WithBit(x, b), c) <==> c == b || Bit(x, c)
    decreases b + c
  {
    if b > 0 && c > 0 {
      BitSet(x / 2, b - 1, c - 1);
      assert WithBit(x, b) / 2 == WithBit(x / 2, b - 1);
    } else if c > 0 {
      assert WithBit(x, 0) / 2 == x / 2;
    }
  }

  lemma Halves(x: nat, b: nat, n: nat)
    requires b < n && x < Power2(n)
    ensures Power2(n) == 2 * Power2(n - 1) && x / 2 < Power2(n - 1)
    ensures WithBit(x, b) == if b == 0 then x / 2 * 2 + 1 else x % 2 + 2 * WithBit(x / 2, b - 1)
  {
  }

  lemma {:induction false} WithBitBound(x: nat, b: nat, n: nat)
    requires b < n && x < Power2(n)
    ensures WithBit(x, b) < Power2(n)
  {
    hide WithBit, Power2;
    Halves(x, b, n);
    if b > 0 {
      WithBitBound(x / 2, b - 1, n - 1);
    }
  }

  function Power2(n: nat): (r: nat)
    ensures r > 0
  {
    if n == 0 then 1 else 2 * Power2(n - 1)
  }

  lemma ByteBound(x: Byte, b: nat)
    requires b < 8
    ensures WithBit(x, b) < 256
  {
    assert Power2(8) == 256 by { assert Power2(4) == 16; }
    WithBitBound(x, b, 8);
  }

  // ----- bits of an array of bytes

  predicate BitAt(a: Bytes, pos: nat)
    requires pos < 8 * |a|
  {
    Bit(a[pos / 8], pos % 8)
  }

  function WithBitAt(a: Bytes, pos: nat): (r: Bytes)
    requires pos < 8 * |a|
    ensures |r| == |a|
  {
    ByteBound(a[pos / 8], pos % 8);
    a[pos / 8 := WithBit(a[pos / 8], pos % 8)]
  }

  lemma BitAtSet(a: Bytes, pos: nat, q: nat)
    requires pos < 8 * |a| && q < 8 * |a|
    ensures BitAt(WithBitAt(a, pos), q) <==> q == pos || BitAt(a, q)
  {
    if q / 8 == pos / 8 {
      BitSet(a[pos / 8], pos % 8, q % 8);
    }
  }

  // ----- double hashing

  type Hash = Bytes -> nat

  /** The hash rotated right by 17 bits. */
  function Delta(h: nat): nat { h / 0x2_0000 + h % 0x2_0000 * 0x8000 }

  /** The j-th value of the sequence, in 32 bits. */
  function Probe(h: nat, j: nat): nat {
    if j == 0 then h else (Probe(h, j - 1) + Delta(h)) % TWO32
  }

  lemma DeltaRotates(h: nat)
    requires h < TWO32
    ensures Delta(h) < TWO32 && Delta(h) % 0x8000 == h / 0x2_0000 && Delta(h) / 0x8000 == h % 0x2_0000
  {
  }

  lemma ModSum(a: nat, d: nat)
    ensures (a % TWO32 + d) % TWO32 == (a + d) % TWO32
  {
  }

  /** Double hashing: each probe is one step further on. */
  lemma {:induction false} ProbeIs(h: nat, j: nat)
    requires h < TWO32
    ensures Probe(h, j) == (h + j * Delta(h)) % TWO32
  {
    hide Delta;
    if j > 0 {
      ProbeIs(h, j - 1);
      ModSum(h + (j - 1) * Delta(h), Delta(h));
      assert h + (j - 1) * Delta(h) + Delta(h) == h + j * Delta(h);
    }
  }

  /** The bits of the first j probes are set. */
  function Filled(a: Bytes, h: nat, j: nat): (r: Bytes)
    requires a != []
    ensures |r| == |a|
  {
    if j == 0 then a else
      var b := Filled(a, h, j - 1);
      WithBitAt(b, Probe(h, j - 1) % (8 * |b|))
  }

  function FilledAll(a: Bytes, keys: seq<Bytes>, hash: Hash, k: nat): (r: Bytes)
    requires a != []
    ensures |r| == |a|
  {
    if keys == [] then a else Filled(FilledAll(a, keys[..|keys| - 1], hash, k), hash(keys[|keys| - 1]) % TWO32, k)
  }

  /** Number of probes: 0.69 a bit and key, rounded down, between 1 and 30. */
  function Probes(bitsPerKey: nat): (k: nat)
    ensures 1 <= k <= 30
  {
    var k := bitsPerKey * 69 / 100;
    if k < 1 then 1 else if k > 30 then 30 else k
  }

  function Size(n: nat, bitsPerKey: nat): (bytes: nat)
    ensures bytes >= 8
  {
    var bits := n * bitsPerKey;
    ((if bits < 64 then 64 else bits) + 7) / 8
  }

  function Filter(keys: seq<Bytes>, bitsPerKey: nat, hash: Hash): Bytes {
    FilledAll(Zeros(Size(|keys|, bitsPerKey)), keys, hash, Probes(bitsPerKey)) + [Probes(bitsPerKey)]
  }

  /** Appends the filter of the keys to dst. */
  method CreateFilter(keys: seq<Bytes>, bitsPerKey: nat, hash: Hash, dst: Bytes) returns (r: Bytes)
    ensures r == dst + Filter(keys, bitsPerKey, hash)
  {
    var k := Probes(bitsPerKey);
    var bits := |keys| * bitsPerKey;
    if bits < 64 { bits := 64; }
    var bytes := (bits + 7) / 8;
    bits := bytes * 8;
    var array_ := Zeros(bytes);
    assert keys[..0] == [];
    for i := 0 to |keys|
      invariant |array_| == bytes && array_ == FilledAll(Zeros(bytes), keys[..i], hash, k)
    {
      assert keys[..i + 1][..i] == keys[..i];
      var h := hash(keys[i]) % TWO32;
      var delta := Delta(h);
      var x := h;
      ghost var before := array_;
      for j := 0 to k
        invariant |array_| == bytes && array_ == Filled(before, h, j) && x == Probe(h, j)
      {
        array_ := WithBitAt(array_, x % bits);
        x := (x + delta) % TWO32;
      }
    }
    assert keys[..|keys|] == keys;
    r := dst + (array_ + [k]);
  }

  predicate Hit(a: Bytes, h: nat, j: nat)
    requires a != []
  {
    BitAt(a, Probe(h, j) % (8 * |a|))
  }

  /** The test: too short says no, an unknown number of probes says yes, else all probed bits must be set. */
  ghost predicate MayMatch(key: Bytes, filter: Bytes, hash: Hash) {
    && |filter| >= 2
    && var k, a := filter[|filter| - 1], filter[..|filter| - 1];
       (k > 30 || forall j: nat :: j < k ==> Hit(a, hash(key) % TWO32, j))
  }

  method KeyMayMatch(key: Bytes, filter: Bytes, hash: Hash) returns (r: bool)
    ensures r == MayMatch(key, filter, hash)
  {
    hide Hit, BitAt, Delta;
    var len := |filter|;
    if len < 2 { return false; }
    var a, k := filter[..len - 1], filter[len - 1];
    if k > 30 { return true; }
    var h := hash(key) % TWO32;
    var delta := Delta(h);
    var x := h;
    for j := 0 to k
      invariant x == Probe(h, j)
      invariant forall i: nat :: i < j ==> Hit(a, h, i)
    {
      HitIs(a, h, j);
      var bits := |a| * 8;
      if !BitAt(a, x % bits) { return false; }
      x := (x + delta) % TWO32;
    }
    r := true;
  }

  lemma HitIs(a: Bytes, h: nat, j: nat)
    requires a != []
    ensures Hit(a, h, j) == BitAt(a, Probe(h, j) % (|a| * 8))
  {
  }

  // ----- no key of the filter is ever denied

  lemma {:induction false} FilledKeeps(a: Bytes, h: nat, j: nat, q: nat)
    requires a != [] && q < 8 * |a| && BitAt(a, q)
    ensures BitAt(Filled(a, h, j), q)
    decreases j
  {
    if j > 0 {
      FilledKeeps(a, h, j - 1, q);
      BitAtSet(Filled(a, h, j - 1), Probe(h, j - 1) % (8 * |a|), q);
    }
  }

  lemma {:induction false} FilledSets(a: Bytes, h: nat, j: nat, i: nat)
    requires a != [] && i < j
    ensures BitAt(Filled(a, h, j), Probe(h, i) % (8 * |a|))
    decreases j
  {
    var b := Filled(a, h, j - 1);
    BitAtSet(b, Probe(h, j - 1) % (8 * |a|), Probe(h, i) % (8 * |a|));
    if i < j - 1 {
      FilledSets(a, h, j - 1, i);
    }
  }

  lemma {:induction false} FilledAllSets(a: Bytes, keys: seq<Bytes>, hash: Hash, k: nat, n: nat, i: nat)
    requires a != [] && n < |keys| && i < k
    ensures BitAt(FilledAll(a, keys, hash, k), Probe(hash(keys[n]) % TWO32, i) % (8 * |a|))
    decreases keys
  {
    var m := |keys| - 1;
    if n == m {
      FilledSets(FilledAll(a, keys[..m], hash, k), hash(keys[m]) % TWO32, k, i);
    } else {
      FilledAllSets(a, keys[..m], hash, k, n, i);
      FilledKeeps(FilledAll(a, keys[..m], hash, k), hash(keys[m]) % TWO32, k,
          Probe(hash(keys[n]) % TWO32, i) % (8 * |a|));
    }
  }

  /** A key the filter was made of always may match. */
  lemma NeverDenied(keys: seq<Bytes>, bitsPerKey: nat, hash: Hash, key: Bytes)
    requires key in keys
    ensures MayMatch(key, Filter(keys, bitsPerKey, hash), hash)
  {
    var k := Probes(bitsPerKey);
    var a := FilledAll(Zeros(Size(|keys|, bitsPerKey)), keys, hash, k);
    var f := Filter(keys, bitsPerKey, hash);
    assert f[..|f| - 1] == a && f[|f| - 1] == k;
    var n :| 0 <= n < |keys| && keys[n] == key;
    forall j | 0 <= j < k ensures BitAt(a, Probe(hash(key) % TWO32, j) % (8 * |a|)) {
      FilledAllSets(Zeros(Size(|keys|, bitsPerKey)), keys, hash, k, n, j);
    }
  }

  // ----- and a key is denied only for a bit that no key of the filter set

  lemma ZerosClear(n: nat, q: nat)
    requires q < 8 * n
    ensures !BitAt(Zeros(n), q)
  {
    NoBits(q % 8);
  }

  lemma {:induction false} NoBits(b: nat)
    ensures !Bit(0, b)
  {
    if b > 0 { NoBits(b - 1); }
  }

  ghost predicate Probed(h: nat, k: nat, bits: nat, q: nat)
    requires bits > 0
  {
    exists i: nat :: i < k && Probe(h, i) % bits == q
  }

  lemma {:induction false} FilledIff(a: Bytes, h: nat, k: nat, q: nat)
    requires a != [] && q < 8 * |a|
    ensures BitAt(Filled(a, h, k), q) <==> BitAt(a, q) || Probed(h, k, 8 * |a|, q)
    decreases k
  {
    hide BitAt, WithBitAt, Probe;
    if k > 0 {
      FilledIff(a, h, k - 1, q);
      BitAtSet(Filled(a, h, k - 1), Probe(h, k - 1) % (8 * |a|), q);
      if Probed(h, k, 8 * |a|, q) && !Probed(h, k - 1, 8 * |a|, q) {
        var i: nat :| i < k && Probe(h, i) % (8 * |a|) == q;
        assert i == k - 1;
      }
    }
  }

  ghost predicate ProbedByOne(keys: seq<Bytes>, hash: Hash, k: nat, bits: nat, q: nat)
    requires bits > 0
  {
    exists n :: 0 <= n < |keys| && Probed(hash(keys[n]) % TWO32, k, bits, q)
  }

  lemma {:induction false} FilledAllIff(a: Bytes, keys: seq<Bytes>, hash: Hash, k: nat, q: nat)
    requires a != [] && q < 8 * |a|
    ensures BitAt(FilledAll(a, keys, hash, k), q) <==> BitAt(a, q) || ProbedByOne(keys, hash, k, 8 * |a|, q)
    decreases keys
  {
    hide BitAt, Filled, Probed;
    if keys != [] {
      var m := |keys| - 1;
      FilledAllIff(a, keys[..m], hash, k, q);
      FilledIff(FilledAll(a, keys[..m], hash, k), hash(keys[m]) % TWO32, k, q);
      if ProbedByOne(keys[..m], hash, k, 8 * |a|, q) {
        var n :| 0 <= n < m && Probed(hash(keys[..m][n]) % TWO32, k, 8 * |a|, q);
        assert keys[..m][n] == keys[n];
      }
      if n :| 0 <= n < |keys| && Probed(hash(keys[n]) % TWO32, k, 8 * |a|, q) {
        if n < m { assert keys[..m][n] == keys[n]; }
      }
    }
  }

  /** The j-th probe of a key hits a bit that some key of the filter probes. */
  ghost predicate Shared(keys: seq<Bytes>, hash: Hash, k: nat, bits: nat, h: nat, j: nat)
    requires bits > 0
  {
    ProbedByOne(keys, hash, k, bits, Probe(h, j) % bits)
  }

  lemma HitIsShared(keys: seq<Bytes>, hash: Hash, k: nat, n: nat, h: nat, j: nat)
    requires n > 0
    ensures Hit(FilledAll(Zeros(n), keys, hash, k), h, j) <==> Shared(keys, hash, k, 8 * n, h, j)
  {
    FilledAllIff(Zeros(n), keys, hash, k, Probe(h, j) % (8 * n));
    ZerosClear(n, Probe(h, j) % (8 * n));
    hide BitAt, FilledAll, ProbedByOne, Probe;
  }

  /** A key may match exactly when each of its probes hits a bit that some key of the filter probes. */
  lemma MatchesExactly(keys: seq<Bytes>, bitsPerKey: nat, hash: Hash, key: Bytes)
    ensures var k, bits := Probes(bitsPerKey), 8 * Size(|keys|, bitsPerKey);
            MayMatch(key, Filter(keys, bitsPerKey, hash), hash) <==>
              forall j: nat :: j < k ==> Shared(keys, hash, k, bits, hash(key) % TWO32, j)
  {
    var k, n, h := Probes(bitsPerKey), Size(|keys|, bitsPerKey), hash(key) % TWO32;
    var a := FilledAll(Zeros(n), keys, hash, k);
    var f := Filter(keys, bitsPerKey, hash);
    assert f[..|f| - 1] == a && f[|f| - 1] == k;
    hide Hit, FilledAll, Shared, Probes, Size, Filter;
    forall j: nat | j < k ensures Hit(a, h, j) <==> Shared(keys, hash, k, 8 * n, h, j) {
      HitIsShared(keys, hash, k, n, h, j);
    }
  }
}
