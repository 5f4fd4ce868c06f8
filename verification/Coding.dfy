/** Fixed-width and variable-width integers on bytes. */
module Coding {
  import opened Options

  type Byte = b: int | 0 <= b < 256

  type Bytes = seq<Byte>

  const TWO32: nat := 0x1_0000_0000
  const TWO64: nat := 0x1_0000_0000_0000_0000

  lemma SliceOfSlice(s: Bytes, a: nat, b: nat, i: nat, j: nat)
    requires a <= b <= |s| && i <= j <= b - a
    ensures s[a..b][i..j] == s[a + i..a + j]
  {
    assert forall k :: 0 <= k < j - i ==> s[a..b][i..j][k] == s[a + i..a + j][k];
  }

  function Min(a: nat, b: nat): nat { if a < b then a else b }

  lemma Assoc(a: Bytes, b: Bytes, c: Bytes)
    ensures a + b + c == a + (b + c)
  {
  }

  function Zeros(n: nat): (r: Bytes)
    ensures |r| == n
  {
    seq(n, _ => 0)
  }

  // ----- fixed width, little endian

  function Fixed(v: nat, width: nat): (r: Bytes)
    ensures |r| == width
  {
    if width == 0 then [] else [v % 256] + Fixed(v / 256, width - 1)
  }

  function UnFixed(b: Bytes): nat {
    if b == [] then 0 else b[0] + 256 * UnFixed(b[1..])
  }

  function Pow256(n: nat): nat { if n == 0 then 1 else 256 * Pow256(n - 1) }

  lemma {:induction false} FixedRoundTrip(v: nat, width: nat)
    requires v < Pow256(width)
    ensures UnFixed(Fixed(v, width)) == v
  {
    if width > 0 {
      FixedRoundTrip(v / 256, width - 1);
      assert Fixed(v, width)[1..] == Fixed(v / 256, width - 1);
    }
  }

  function Fixed32(v: nat): (r: Bytes)
    ensures |r| == 4
  {
    Fixed(v, 4)
  }

  function Fixed64(v: nat): (r: Bytes)
    ensures |r| == 8
  {
    Fixed(v, 8)
  }

  lemma Fixed32RoundTrip(v: nat)
    requires v < TWO32
    ensures UnFixed(Fixed32(v)) == v
  {
    assert Pow256(4) == TWO32 by {
      assert Pow256(2) == 0x1_0000;
    }
    FixedRoundTrip(v, 4);
  }

  lemma Fixed64RoundTrip(v: nat)
    requires v < TWO64
    ensures UnFixed(Fixed64(v)) == v
  {
    assert Pow256(8) == TWO64 by {
      assert Pow256(2) == 0x1_0000;
      assert Pow256(4) == 0x1_0000_0000;
      assert Pow256(6) == 0x1_0000_0000_0000;
    }
    FixedRoundTrip(v, 8);
  }

  // ----- variable width: seven bits a byte, low bits first, high bit set on all but the last

  function Varint(v: nat): (r: Bytes)
    ensures r != []
  {
    if v < 128 then [v] else [128 + v % 128] + Varint(v / 128)
  }

  lemma {:induction false} VarintBytes(v: nat)
    ensures var r := Varint(v); r[|r| - 1] < 128 && forall i :: 0 <= i < |r| - 1 ==> r[i] >= 128
  {
    if v >= 128 {
      VarintBytes(v / 128);
    }
  }

  lemma VarintStep(v: nat)
    requires v >= 128
    ensures Varint(v) == [128 + v % 128] + Varint(v / 128)
  {
  }

  /** EncodeVarint64 and the widening branches of EncodeVarint32 write exactly this. */
  method EncodeVarint64(v: nat) returns (dst: Bytes)
    ensures dst == Varint(v)
  {
    dst := [];
    var x := v;
    while x >= 128
      invariant dst + Varint(x) == Varint(v)
      decreases x
    {
      hide Varint;
      VarintStep(x);
      assert dst + ([128 + x % 128] + Varint(x / 128)) == (dst + [128 + x % 128]) + Varint(x / 128);
      dst := dst + [128 + x % 128];
      x := x / 128;
    }
    dst := dst + [x];
  }

  method EncodeVarint32(v: nat) returns (dst: Bytes)
    requires v < TWO32
    ensures dst == Varint(v)
  {
    if v < 0x80 {
      dst := [v];
    } else if v < 0x4000 {
      Two(v);
      dst := [v % 128 + 128, v / 0x80];
    } else if v < 0x20_0000 {
      Three(v);
      dst := [v % 128 + 128, v / 0x80 % 128 + 128, v / 0x4000];
    } else if v < 0x1000_0000 {
      Four(v);
      dst := [v % 128 + 128, v / 0x80 % 128 + 128, v / 0x4000 % 128 + 128, v / 0x20_0000];
    } else {
      Five(v);
      dst := [v % 128 + 128, v / 0x80 % 128 + 128, v / 0x4000 % 128 + 128, v / 0x20_0000 % 128 + 128, v / 0x1000_0000];
    }
  }

  lemma Two(v: nat)
    requires 0x80 <= v < 0x4000
    ensures Varint(v) == [v % 128 + 128, v / 0x80]
  {
  }

  lemma Three(v: nat)
    requires 0x4000 <= v < 0x20_0000
    ensures Varint(v) == [v % 128 + 128, v / 0x80 % 128 + 128, v / 0x4000]
  {
    Two(v / 128);
    assert v / 128 / 128 == v / 0x4000;
  }

  lemma Four(v: nat)
    requires 0x20_0000 <= v < 0x1000_0000
    ensures Varint(v) == [v % 128 + 128, v / 0x80 % 128 + 128, v / 0x4000 % 128 + 128, v / 0x20_0000]
  {
    Three(v / 128);
    assert v / 128 / 0x80 == v / 0x4000 && v / 128 / 0x4000 == v / 0x20_0000;
  }

  lemma Five(v: nat)
    requires 0x1000_0000 <= v < TWO32
    ensures Varint(v) == [v % 128 + 128, v / 0x80 % 128 + 128, v / 0x4000 % 128 + 128, v / 0x20_0000 % 128
        + 128, v / 0x1000_0000]
  {
    Four(v / 128);
    assert v / 128 / 0x80 == v / 0x4000 && v / 128 / 0x4000 == v / 0x20_0000 && v / 128 / 0x20_0000 == v / 0x1000_0000;
  }

  /** Value and length read from the front of the input; at most limit bytes are looked at. */
  function GetVarint(input: Bytes, limit: nat): (r: Option<(nat, nat)>)
    ensures r.Some? ==> 0 < r.value.1 <= |input| && r.value.1 <= limit
    decreases limit
  {
    if limit == 0 || input == [] then None
    else if input[0] < 128 then Some((input[0], 1))
    else
      var rest := GetVarint(input[1..], limit - 1);
      if rest.None? then None else Some((input[0] - 128 + 128 * rest.value.0, rest.value.1 + 1))
  }

  lemma {:induction false} VarintLimit(v: nat, n: nat)
    requires v < Pow128(n) && n >= 1
    ensures |Varint(v)| <= n
    decreases n
  {
    if v >= 128 {
      assert n > 1;
      VarintLimit(v / 128, n - 1);
    }
  }

  /** A varint fails exactly when none of the bytes it may have is its last. */
  lemma {:induction false} NoVarintIff(input: Bytes, limit: nat)
    ensures GetVarint(input, limit) == None <==> forall i :: 0 <= i < limit && i < |input| ==> input[i] >= 128
    decreases limit
  {
    if limit > 0 && input != [] {
      NoVarintIff(input[1..], limit - 1);
      if input[0] >= 128 {
        assert forall i :: 1 <= i < limit && i < |input| ==> input[1..][i - 1] == input[i];
        if forall i :: 0 <= i < limit && i < |input| ==> input[i] >= 128 {
          forall i | 0 <= i < limit - 1 && i < |input| - 1 ensures input[1..][i] >= 128 { assert input[i + 1] >= 128; }
        }
        if forall i :: 0 <= i < limit - 1 && i < |input| - 1 ==> input[1..][i] >= 128 {
          forall i | 0 <= i < limit && i < |input| ensures input[i] >= 128 {
            if i > 0 { assert input[1..][i - 1] >= 128; }
          }
        }
      }
    }
  }

  function Pow128(n: nat): nat { if n == 0 then 1 else 128 * Pow128(n - 1) }

  lemma {:induction false} VarintRoundTrip(v: nat, tail: Bytes, limit: nat)
    requires |Varint(v)| <= limit
    ensures GetVarint(Varint(v) + tail, limit) == Some((v, |Varint(v)|))
    decreases v
  {
    var input := Varint(v) + tail;
    if v >= 128 {
      VarintRoundTrip(v / 128, tail, limit - 1);
      assert input[1..] == Varint(v / 128) + tail;
    }
  }

  /** A 32-bit value always reads back through the five-byte limit of GetVarint32. */
  lemma Varint32RoundTrip(v: nat, tail: Bytes)
    requires v < TWO32
    ensures |Varint(v)| <= 5 && GetVarint32(Varint(v) + tail) == Some((v, |Varint(v)|))
  {
    assert Pow128(5) == 0x8_0000_0000 by { assert Pow128(3) == 0x20_0000; }
    VarintLimit(v, 5);
    VarintRoundTrip(v, tail, 5);
  }

  lemma Varint64RoundTrip(v: nat, tail: Bytes)
    requires v < TWO64
    ensures |Varint(v)| <= 10 && GetVarint64(Varint(v) + tail) == Some((v, |Varint(v)|))
  {
    assert Pow128(10) == 0x40_0000_0000_0000_0000 by {
      assert Pow128(3) == 0x20_0000;
      assert Pow128(5) == 0x8_0000_0000;
      assert Pow128(8) == 0x100_0000_0000_0000;
    }
    VarintLimit(v, 10);
    VarintRoundTrip(v, tail, 10);
  }

  /** At most five bytes; bits above the 32nd are lost. */
  function GetVarint32(input: Bytes): (r: Option<(nat, nat)>)
    ensures r.Some? ==> r.value.0 < TWO32 && 0 < r.value.1 <= |input|
  {
    var r := GetVarint(input, 5);
    if r.None? then None else Some((r.value.0 % TWO32, r.value.1))
  }

  /** At most ten bytes; bits above the 64th are lost. */
  function GetVarint64(input: Bytes): (r: Option<(nat, nat)>)
    ensures r.Some? ==> r.value.0 < TWO64 && 0 < r.value.1 <= |input|
  {
    var r := GetVarint(input, 10);
    if r.None? then None else Some((r.value.0 % TWO64, r.value.1))
  }

  // ----- what is read does not depend on what follows

  /** The same value, and the rest with b behind it. */
  predicate Stays<T(==)>(r: Option<(T, Bytes)>, s: Option<(T, Bytes)>, b: Bytes) {
    r.Some? ==> s == Some((r.value.0, r.value.1 + b))
  }

  lemma {:induction false} GetVarintStays(a: Bytes, b: Bytes, limit: nat)
    ensures GetVarint(a, limit).Some? ==> GetVarint(a + b, limit) == GetVarint(a, limit)
    decreases limit
  {
    if limit > 0 && a != [] {
      assert (a + b)[1..] == a[1..] + b;
      GetVarintStays(a[1..], b, limit - 1);
    }
  }

  // ----- length-prefixed strings

  function Prefixed(s: Bytes): Bytes { Varint(|s|) + s }

  /** The string and the rest of the input. */
  function GetPrefixed(input: Bytes): (r: Option<(Bytes, Bytes)>)
    ensures r.Some? ==> |r.value.1| < |input|
  {
    var len := GetVarint32(input);
    if len.None? || |input| - len.value.1 < len.value.0 then None
    else
      var rest := input[len.value.1..];
      Some((rest[..len.value.0], rest[len.value.0..]))
  }

  lemma PrefixedRoundTrip(s: Bytes, tail: Bytes)
    requires |s| < TWO32
    ensures GetPrefixed(Prefixed(s) + tail) == Some((s, tail))
  {
    Varint32RoundTrip(|s|, s + tail);
    assert Prefixed(s) + tail == Varint(|s|) + (s + tail);
  }
}
