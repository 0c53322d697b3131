/** Power-of-two sizes: the rounding, the compile-time check, and masking as reduction. */
module Pow2 {
  import opened Memory

  function Pow(k: nat): (r: nat)
    ensures 1 <= r
  {
    if k == 0 then 1 else 2 * Pow(k - 1)
  }

  ghost predicate IsPow2(n: nat) {
    exists k: nat :: n == Pow(k)
  }

  /** Bits of `std::size_t`. */
  const WORD: nat := 64

  /** Bitwise and. */
  function And(x: nat, y: nat): nat {
    if x == 0 || y == 0 then 0
    else (x % 2) * (y % 2) + 2 * And(x / 2, y / 2)
  }

  lemma {:induction false} AndSelf(x: nat)
    ensures And(x, x) == x
  {
    if x != 0 {
      AndSelf(x / 2);
    }
  }

  /** `size - 1` in a word of `WORD` bits. */
  function Pred(size: nat): nat {
    if size == 0 then Pow(WORD) - 1 else size - 1
  }

  /** `(size & (size - 1)) == 0` admits exactly the powers of two, and 0. */
  lemma {:induction false} PowerOfTwoCheck(size: nat)
    ensures And(size, Pred(size)) == 0 <==> size == 0 || IsPow2(size)
  {
    if size == 1 {
      assert size == Pow(0);
    } else if size % 2 == 1 {
      AndSelf(size / 2);
      assert (size - 1) / 2 == size / 2;
      forall k: nat ensures size != Pow(k) {}
    } else if size != 0 {
      var half := size / 2;
      PowerOfTwoCheck(half);
      assert (size - 1) / 2 == half - 1;
      if k: nat :| half == Pow(k) {
        assert size == Pow(k + 1);
      }
      if k: nat :| size == Pow(k) {
        assert k != 0 && half == Pow(k - 1);
      }
    }
  }

  lemma DoubleProduct(p: nat, q: nat)
    ensures (2 * p) * q == 2 * (p * q)
  {
  }

  lemma {:induction false} AndLowBits(x: nat, k: nat) returns (q: nat)
    ensures And(x, Pow(k) - 1) < Pow(k)
    ensures x == Pow(k) * q + And(x, Pow(k) - 1)
  {
    if k == 0 {
      q := x;
    } else if x == 0 {
      q := 0;
    } else {
      q := AndLowBits(x / 2, k - 1);
      var p := Pow(k - 1);
      var r := And(x / 2, p - 1);
      AndDouble(x, p);
      DoubleProduct(p, q);
    }
  }

  lemma AndDouble(x: nat, p: nat)
    requires 1 <= p
    ensures And(x, 2 * p - 1) == x % 2 + 2 * And(x / 2, p - 1)
  {
    assert (2 * p - 1) % 2 == 1 && (2 * p - 1) / 2 == p - 1;
  }

  lemma {:induction false} CellOfMultiple(n: nat, q: nat, r: nat)
    requires r < n
    ensures CellOf(n * q + r, n) == r
  {
    if q != 0 {
      CellOfMultiple(n, q - 1, r);
      assert n * q + r - n == n * (q - 1) + r;
    }
  }

  /** Masking with `size - 1` is reduction modulo `size` when `size` is a power of two. */
  lemma MaskIsCell(x: nat, n: nat)
    requires IsPow2(n)
    ensures n >= 1 && And(x, n - 1) == CellOf(x, n)
  {
    var k: nat :| n == Pow(k);
    var q := AndLowBits(x, k);
    CellOfMultiple(n, q, And(x, n - 1));
  }

  /** Leading zero bits of `x` in a word of `width` bits. */
  function LeadingZeros(x: nat, width: nat): (z: nat)
    requires 0 < x < Pow(width)
    ensures z < width && Pow(width - z - 1) <= x < Pow(width - z)
    decreases width
  {
    if Pow(width - 1) <= x then 0 else 1 + LeadingZeros(x, width - 1)
  }

  lemma {:induction false} PowMono(j: nat, k: nat)
    requires j < k
    ensures 2 * Pow(j) <= Pow(k)
    decreases k
  {
    if j < k - 1 {
      PowMono(j, k - 1);
    }
  }

  /** `_round_up_pow2`: the least power of two at or above `v`, and 1 for 0.  A larger `v` would
      shift by the full word width. */
  function RoundUpPow2(v: nat): (r: nat)
    requires v <= Pow(WORD - 1)
    ensures IsPow2(r) && v <= r <= Pow(WORD - 1)
    ensures forall k: nat :: v <= Pow(k) ==> r <= Pow(k)
  {
    if v <= 1 then
      assert Pow(0) == 1;
      PowMono(0, WORD - 1);
      1
    else
      PowMono(WORD - 1, WORD);
      var shift := WORD - LeadingZeros(v - 1, WORD);
      ShiftIsLeast(v, shift);
      Pow(shift)
  }

  lemma ShiftIsLeast(v: nat, shift: nat)
    requires 1 < v <= Pow(WORD - 1) && 0 < shift <= WORD
    requires Pow(shift - 1) <= v - 1 < Pow(shift)
    ensures shift <= WORD - 1 && Pow(shift) <= Pow(WORD - 1)
    ensures forall k: nat :: v <= Pow(k) ==> Pow(shift) <= Pow(k)
  {
    forall k: nat | v <= Pow(k) ensures Pow(shift) <= Pow(k) {
      if k < shift - 1 {
        PowMono(k, shift - 1);
      } else if shift < k {
        PowMono(shift, k);
      }
    }
  }
}
