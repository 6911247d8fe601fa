/** The branch-free base-2 logarithm of bpf/headers/bits.bpf.h and its exactness.
    Machine words are integers with explicit ranges; `>>` is division by a power
    of two and `|` is defined bit by bit. */
module Bits {
  const TWO_64: int := 0x1_0000_0000_0000_0000

  type U32 = x: int | 0 <= x < 0x1_0000_0000
  type U64 = x: int | 0 <= x < 0x1_0000_0000_0000_0000

  function Pow2(n: nat): (p: nat)
    ensures p >= 1
  {
    if n == 0 then 1 else 2 * Pow2(n - 1)
  }

  /** Reference definition: how often v can be halved before reaching 1. */
  function FloorLog2(v: nat): (k: nat)
    requires v >= 1
  {
    if v == 1 then 0 else 1 + FloorLog2(v / 2)
  }

  /** v >> n for an unsigned word, one bit at a time. */
  function Shr(v: nat, n: nat): (r: nat) {
    if n == 0 then v else Shr(v / 2, n - 1)
  }

  /** a | b, one bit at a time. */
  function Or(a: nat, b: nat): (r: nat)
    decreases a + b
  {
    if a == 0 then b
    else if b == 0 then a
    else (if a % 2 == 1 || b % 2 == 1 then 1 else 0) + 2 * Or(a / 2, b / 2)
  }

  lemma {:induction false} Pow2Monotone(m: nat, n: nat)
    requires m <= n
    ensures Pow2(m) <= Pow2(n)
    decreases n
  {
    if m < n {
      Pow2Monotone(m, n - 1);
    }
  }

  lemma {:induction false} FloorLog2Bounds(v: nat)
    requires v >= 1
    ensures Pow2(FloorLog2(v)) <= v < Pow2(FloorLog2(v) + 1)
  {
    if v > 1 {
      FloorLog2Bounds(v / 2);
    }
  }

  lemma FloorLog2Unique(v: nat, k: nat)
    requires Pow2(k) <= v < Pow2(k + 1)
    ensures k == FloorLog2(v)
  {
    FloorLog2Bounds(v);
    if k < FloorLog2(v) {
      Pow2Monotone(k + 1, FloorLog2(v));
    } else if k > FloorLog2(v) {
      Pow2Monotone(FloorLog2(v) + 1, k);
    }
  }

  lemma FloorLog2Monotone(v: nat, w: nat)
    requires 1 <= v <= w
    ensures FloorLog2(v) <= FloorLog2(w)
  {
    FloorLog2Bounds(v);
    FloorLog2Bounds(w);
    if FloorLog2(w) < FloorLog2(v) {
      Pow2Monotone(FloorLog2(w) + 1, FloorLog2(v));
    }
  }

  /** Shifting a word that has a bit at or above n takes exactly n off its logarithm. */
  lemma {:induction false} ShiftLog(v: nat, n: nat)
    requires v >= Pow2(n)
    ensures Shr(v, n) >= 1
    ensures FloorLog2(v) == n + FloorLog2(Shr(v, n))
    decreases n
  {
    if n > 0 {
      ShiftLog(v / 2, n - 1);
    }
  }

  lemma {:induction false} ShiftRange(v: nat, m: nat, n: nat)
    requires v < Pow2(m + n)
    ensures Shr(v, n) < Pow2(m)
    decreases n
  {
    if n > 0 {
      ShiftRange(v / 2, m, n - 1);
    }
  }

  lemma {:induction false} ShiftedOut(v: nat, n: nat)
    ensures Shr(v, n) == 0 <==> v < Pow2(n)
    decreases n
  {
    if n > 0 {
      ShiftedOut(v / 2, n - 1);
    }
  }

  lemma LastBit(v: nat)
    requires v < Pow2(2)
    ensures Shr(v, 1) < Pow2(1)
    ensures Shr(v, 1) == if v == 0 then 0 else FloorLog2(v)
  {
    assert Shr(v, 1) == v / 2;
  }

  /** The low n bits of r are clear. */
  predicate LowClear(r: nat, n: nat) {
    n == 0 || (r % 2 == 0 && LowClear(r / 2, n - 1))
  }

  /** OR into clear low bits is addition. */
  lemma {:induction false} OrAdds(r: nat, low: nat, n: nat)
    requires LowClear(r, n) && low < Pow2(n)
    ensures Or(r, low) == r + low
    decreases n
  {
    if n > 0 && r > 0 && low > 0 {
      OrAdds(r / 2, low / 2, n - 1);
    }
  }

  lemma {:induction false} ClearAdds(r: nat, s: nat, n: nat)
    requires LowClear(r, n + 1) && LowClear(s, n)
    ensures LowClear(r, n) && LowClear(r + s, n)
    decreases n
  {
    if n > 0 {
      ClearAdds(r / 2, s / 2, n - 1);
      assert (r + s) / 2 == r / 2 + s / 2;
    }
  }

  /** One line of log2: `shift = (v > 2^half - 1) << k; v >>= shift; r |= shift`, with half = 2^k. */
  method ShiftStep(v: nat, r: nat, half: nat, ghost bits: nat) returns (v': nat, r': nat)
    requires v < Pow2(half + half)
    requires half < Pow2(bits + 1) && LowClear(r, bits + 1) && LowClear(half, bits)
    ensures v' < Pow2(half)
    ensures v >= 1 ==> v' >= 1 && r' + FloorLog2(v') == r + FloorLog2(v)
    ensures v == 0 ==> v' == 0 && r' == r
    ensures (r' == r || r' == r + half) && LowClear(r', bits)
  {
    var shift := if v > Pow2(half) - 1 then half else 0;
    ClearAdds(r, half, bits);
    if v > Pow2(half) - 1 {
      ShiftLog(v, half);
      ShiftRange(v, half, half);
    }
    v' := Shr(v, shift);
    OrAdds(r, shift, bits + 1);
    r' := Or(r, shift);
  }

  lemma WordPowers()
    ensures Pow2(32) == 0x1_0000_0000 && Pow2(64) == TWO_64
  {
    assert Pow2(8) == 0x100;
    assert Pow2(16) == 0x1_0000;
    assert Pow2(24) == 0x100_0000;
    assert Pow2(32) == 0x1_0000_0000;
    assert Pow2(40) == 0x100_0000_0000;
    assert Pow2(48) == 0x1_0000_0000_0000;
    assert Pow2(56) == 0x100_0000_0000_0000;
  }

  /** The shift by sixteen. */
  method FirstShift(word: U32) returns (v: nat, r: nat)
    ensures v < Pow2(16) && r <= 16 && LowClear(r, 4)
    ensures if word == 0 then v == r == 0 else v >= 1 && r + FloorLog2(v) == FloorLog2(word)
  {
    WordPowers();
    assert 16 < Pow2(5) && LowClear(0, 5) && LowClear(16, 4);
    v, r := ShiftStep(word, 0, 16, 4);
  }

  /** The shifts by eight, by four, by two and by one. */
  method OtherShifts(v: nat, r: nat) returns (r': nat)
    requires v < Pow2(16) && r <= 16 && LowClear(r, 4)
    ensures r' == if v == 0 then r else r + FloorLog2(v)
    ensures r' < 32
  {
    assert 8 < Pow2(4) && LowClear(8, 3);
    var v1, r1 := ShiftStep(v, r, 8, 3);
    assert 4 < Pow2(3) && LowClear(4, 2);
    var v2, r2 := ShiftStep(v1, r1, 4, 2);
    assert 2 < Pow2(2) && LowClear(2, 1);
    var v3, r3 := ShiftStep(v2, r2, 2, 1);
    LastBit(v3);
    OrAdds(r3, Shr(v3, 1), 1);
    r' := Or(r3, Shr(v3, 1));
  }

  /** log2(v): five conditional shifts, no loop. Zero maps to zero. */
  method Log2(word: U32) returns (r: nat)
    ensures word >= 1 ==> r == FloorLog2(word)
    ensures word == 0 ==> r == 0
    ensures r < 32
  {
    var v: nat;
    v, r := FirstShift(word);
    r := OtherShifts(v, r);
  }

  /** log2l(v): the high word decides which half is measured. */
  method Log2l(v: U64) returns (r: nat)
    ensures v >= 1 ==> r == FloorLog2(v)
    ensures v == 0 ==> r == 0
    ensures r < 64
  {
    WordPowers();
    ShiftRange(v, 32, 32);
    ShiftedOut(v, 32);
    var hi: U32 := Shr(v, 32);
    if hi != 0 {
      ShiftLog(v, 32);
      var h := Log2(hi);
      r := h + 32;
    } else {
      r := Log2(v);
    }
  }

  /** The two words of Log2l fix the result completely: no other number brackets v. */
  lemma FloorLog2IsFloor(v: nat, k: nat)
    requires v >= 1
    ensures k == FloorLog2(v) <==> Pow2(k) <= v < Pow2(k + 1)
  {
    FloorLog2Bounds(v);
    if Pow2(k) <= v < Pow2(k + 1) {
      FloorLog2Unique(v, k);
    }
  }
}
