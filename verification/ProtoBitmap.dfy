/** The bitmap of required fields seen: 64 bits in two 32-bit words. */
module ProtoBitmap {
  import opened Coding
  import opened Bloom
  import opened ProtoDecode

  ghost predicate Holds(w: seq<nat>, seen: set<nat>) {
    && |w| == 2 && w[0] < TWO32 && w[1] < TWO32
    && forall r: nat :: r < MAX_REQUIRED ==> (Bit(w[r / 32], r % 32) <==> r in seen)
  }

  lemma WordBound(x: nat, b: nat)
    requires x < TWO32 && b < 32
    ensures WithBit(x, b) < TWO32
  {
    Power32();
    WithBitBound(x, b, 32);
  }

  lemma Power32()
    ensures Power2(32) == TWO32
  {
    assert Power2(8) == 0x100;
    assert Power2(16) == 0x1_0000;
    assert Power2(24) == 0x100_0000;
  }

  method SetSeen(words: array<nat>, r: nat, ghost seen: set<nat>)
    requires r < MAX_REQUIRED && Holds(words[..], seen)
    modifies words
    ensures Holds(words[..], seen + {r})
  {
    hide WithBit, Bit;
    WordBound(words[r / 32], r % 32);
    forall q: nat | q < MAX_REQUIRED && q / 32 == r / 32
      ensures Bit(WithBit(words[r / 32], r % 32), q % 32) <==> q == r || Bit(words[q / 32], q % 32)
    {
      BitSet(words[r / 32], r % 32, q % 32);
    }
    words[r / 32] := WithBit(words[r / 32], r % 32);
  }

  ghost predicate OnlyLow(x: nat, n: nat, width: nat) {
    forall b: nat :: b < width ==> (Bit(x, b) <==> b < n)
  }

  lemma OnlyLowStep(x: nat, n: nat, width: nat)
    requires width > 0
    ensures OnlyLow(x, n, width) <==> (x % 2 == 1 <==> n > 0) && OnlyLow(x / 2, if n > 0 then n - 1 else 0, width - 1)
  {
    assert Bit(x, 0) <==> x % 2 == 1;
    if OnlyLow(x, n, width) {
      forall b: nat | b < width - 1 ensures Bit(x / 2, b) <==> b < if n > 0 then n - 1 else 0 {
        assert Bit(x, b + 1) <==> b + 1 < n;
      }
    }
    if (x % 2 == 1 <==> n > 0) && OnlyLow(x / 2, if n > 0 then n - 1 else 0, width - 1) {
      forall b: nat | b < width ensures Bit(x, b) <==> b < n {
        if b > 0 {
          assert Bit(x, b) <==> Bit(x / 2, b - 1);
        }
      }
    }
  }

  /** The n low bits are set and no other exactly when the word equals 2^n - 1. */
  lemma {:induction false} LowBits(x: nat, n: nat, width: nat)
    requires x < Power2(width) && n <= width
    ensures x == Power2(n) - 1 <==> OnlyLow(x, n, width)
    decreases width
  {
    hide OnlyLow;
    if width > 0 {
      OnlyLowStep(x, n, width);
      LowBits(x / 2, if n > 0 then n - 1 else 0, width - 1);
    } else {
      AllLow(x, n);
    }
  }

  lemma AllLow(x: nat, n: nat)
    ensures OnlyLow(x, n, 0)
  {
  }

  lemma WordsSeen(w: seq<nat>, count: nat, seen: set<nat>)
    requires Holds(w, seen) && count <= MAX_REQUIRED && forall r :: r in seen ==> r < count
    ensures OnlyLow(w[0], Min(count, 32), 32) && OnlyLow(w[1], Min(count, 64) - Min(count, 32), 32)
      <==> forall r: nat :: r < count ==> r in seen
  {
    hide Bit;
    if forall r: nat :: r < count ==> r in seen {
      forall b: nat | b < 32 ensures Bit(w[0], b) <==> b < count {
        assert Bit(w[b / 32], b % 32) <==> b in seen;
      }
      forall b: nat | b < 32 ensures Bit(w[1], b) <==> b < count - Min(count, 32) {
        assert Bit(w[(b + 32) / 32], (b + 32) % 32) <==> b + 32 in seen;
      }
    }
    if OnlyLow(w[0], Min(count, 32), 32) && OnlyLow(w[1], Min(count, 64) - Min(count, 32), 32) {
      forall r: nat | r < count ensures r in seen {
        assert Bit(w[r / 32], r % 32);
      }
    }
  }

  lemma NoneHigh(w: seq<nat>, seen: set<nat>)
    requires Holds(w, seen) && forall r :: r in seen ==> r < 32
    ensures OnlyLow(w[1], 0, 32)
  {
    hide Bit;
    forall b: nat | b < 32 ensures !Bit(w[1], b) {
      assert Bit(w[(b + 32) / 32], (b + 32) % 32) <==> b + 32 in seen;
    }
  }

  /** Whole words are compared with all ones, the last one with a shifted mask. */
  method CheckSeen(words: array<nat>, required: nat, ghost seen: set<nat>) returns (ok: bool)
    requires Holds(words[..], seen) && forall r :: r in seen ==> r < required && r < MAX_REQUIRED
    ensures ok <==> forall r: nat :: r < required && r < MAX_REQUIRED ==> r in seen
  {
    hide Power2, Bit, OnlyLow;
    var count := Min(required, MAX_REQUIRED);
    Power32();
    ghost var low, high: nat := Min(count, 32), count - Min(count, 32);
    LowBits(words[0], low, 32);
    LowBits(words[1], high, 32);
    WordsSeen(words[..], count, seen);
    if count <= 32 {
      NoneHigh(words[..], seen);
    }
    var i := 0;
    while i < count / 32
      invariant i <= count / 32
      invariant forall k :: 0 <= k < i ==> words[k] == TWO32 - 1
    {
      if words[i] != TWO32 - 1 {
        ok := false;
        return;
      }
      i := i + 1;
    }
    if count % 32 != 0 && words[count / 32] != Power2(count % 32) - 1 {
      ok := false;
      return;
    }
    ok := true;
  }
}
