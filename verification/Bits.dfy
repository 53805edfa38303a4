/**
 Bit masks and residues, as the rings and checksums use them: a bitwise AND with
 `2^k - 1` on unsigned words, and the little modular arithmetic that follows.
 */
module Bits {

  type Byte = b: int | 0 <= b < 256

  const WORD32: nat := 0x1_0000_0000

  function Pow2(k: nat): (r: nat)
    ensures 0 < r
  {
    if k == 0 then 1 else 2 * Pow2(k - 1)
  }

  /** Bitwise AND of two unsigned words, bit by bit. */
  function And(x: nat, y: nat): nat {
    if x == 0 || y == 0 then 0
    else (if x % 2 == 1 && y % 2 == 1 then 1 else 0) + 2 * And(x / 2, y / 2)
  }

  /** Unsigned 32-bit subtraction, which wraps. */
  function Sub32(x: nat, y: nat): nat
    requires x < WORD32 && y < WORD32
  {
    (x - y + WORD32) % WORD32
  }

  lemma MultipleApart(d: int, n: int)
    requires 0 < n
    ensures d >= 1 ==> d * n >= n
    ensures d <= -1 ==> d * n <= -n
  {
    if d >= 1 {
      assert (d - 1) * n >= 0;
    } else if d <= -1 {
      assert (d + 1) * n <= 0;
    }
  }

  lemma DivModUnique(x: int, q: int, r: int, n: nat)
    requires 0 < n && 0 <= r < n && x == q * n + r
    ensures x % n == r && x / n == q
  {
    var d := x / n - q;
    assert x == (x / n) * n + x % n;
    assert d * n == r - x % n;
    MultipleApart(d, n);
  }

  lemma ModDouble(x: nat, m: nat)
    requires 0 < m
    ensures x % (2 * m) == x % 2 + 2 * (x / 2 % m)
  {
    var q, r := x / 2 / m, x / 2 % m;
    assert x / 2 == q * m + r;
    assert x == q * (2 * m) + (2 * r + x % 2);
    DivModUnique(x, q, 2 * r + x % 2, 2 * m);
  }

  lemma AndOdd(x: nat, y: nat)
    ensures And(x, 2 * y + 1) == x % 2 + 2 * And(x / 2, y)
  {
    assert (2 * y + 1) / 2 == y;
  }

  /** Masking with 2^k - 1 keeps the residue modulo 2^k. */
  lemma {:induction false} AndMaskIsMod(x: nat, k: nat)
    ensures And(x, Pow2(k) - 1) == x % Pow2(k)
  {
    hide And;
    if k == 0 {
      AndZero(x);
    } else {
      var m := Pow2(k - 1);
      AndMaskIsMod(x / 2, k - 1);
      ModDouble(x, m);
      AndOdd(x, m - 1);
    }
  }

  lemma AndZero(x: nat)
    ensures And(x, 0) == 0
  {
  }

  lemma ModAddMod(a: int, b: int, n: nat)
    requires 0 < n
    ensures (a % n + b) % n == (a + b) % n
  {
    var x := a % n + b;
    assert a + b == (a / n + x / n) * n + x % n by {
      assert a == (a / n) * n + a % n;
      assert x == (x / n) * n + x % n;
    }
    DivModUnique(a + b, a / n + x / n, x % n, n);
  }

  lemma ModSubMod(a: int, b: int, n: nat)
    requires 0 < n
    ensures (a % n - b % n) % n == (a - b) % n
  {
    ModAddMod(a, -(b % n), n);
    assert (a % n + -(b % n)) % n == (a - b % n) % n;
    var x := a - b % n;
    assert a - b == (x / n - b / n) * n + x % n by {
      assert b == (b / n) * n + b % n;
      assert x == (x / n) * n + x % n;
    }
    DivModUnique(a - b, x / n - b / n, x % n, n);
  }

  /** Two counters less than n apart share a slot only when they are equal. */
  lemma ModInjective(i: int, j: int, n: nat)
    requires 0 < n && i <= j < i + n && i % n == j % n
    ensures i == j
  {
    var d := j / n - i / n;
    assert j - i == d * n by {
      assert i == (i / n) * n + i % n;
      assert j == (j / n) * n + j % n;
    }
    MultipleApart(d, n);
  }

  lemma {:induction false} Pow2Divides(k: nat, w: nat)
    requires k <= w
    ensures Pow2(w) % Pow2(k) == 0
    decreases w
  {
    if k == w {
      DivModUnique(Pow2(w), 1, 0, Pow2(k));
    } else {
      Pow2Divides(k, w - 1);
      var q := Pow2(w - 1) / Pow2(k);
      assert Pow2(w) == (2 * q) * Pow2(k);
      DivModUnique(Pow2(w), 2 * q, 0, Pow2(k));
    }
  }

  lemma Pow2Is32()
    ensures Pow2(32) == WORD32
  {
    assert Pow2(8) == 256;
    assert Pow2(16) == 65536;
    assert Pow2(24) == 16777216;
  }

  lemma RingSizeDivides(k: nat) returns (c: nat)
    requires k <= 32
    ensures c * Pow2(k) == WORD32 && Pow2(k) <= WORD32
  {
    Pow2Is32();
    Pow2Divides(k, 32);
    c := WORD32 / Pow2(k);
    assert c * Pow2(k) == WORD32;
    assert c > 0;
  }

  lemma WrapKeepsResidue(x: nat, y: nat, c: nat, n: nat)
    requires 0 < n <= WORD32 && c * n == WORD32 && x < n && y < n
    ensures Sub32(x, y) % n == (x - y) % n
  {
    var d := x - y;
    if d >= 0 {
      DivModUnique(d + WORD32, 1, d, WORD32);
    } else {
      var w := d + WORD32;
      DivModUnique(w, 0, w, WORD32);
      assert d == (d / n) * n + d % n;
      assert w == (d / n + c) * n + d % n;
      DivModUnique(w, d / n + c, d % n, n);
    }
  }

  lemma MaskedResidues(a: nat, b: nat, c: nat, k: nat)
    requires c * Pow2(k) == WORD32 && Pow2(k) <= WORD32 && b <= a < b + Pow2(k)
    ensures And(Sub32(a % Pow2(k), b % Pow2(k)), Pow2(k) - 1) == a - b
  {
    var n := Pow2(k);
    WrapKeepsResidue(a % n, b % n, c, n);
    ModSubMod(a, b, n);
    DivModUnique(a - b, 0, a - b, n);
    AndMaskIsMod(Sub32(a % n, b % n), k);
  }

  // ----- slots of a ring of n

  /** The slot of the i-th item ever put into a ring of n slots. */
  function Slot(i: nat, n: nat): (r: nat)
    requires 0 < n
    ensures r < n
  {
    if i < n then i else Slot(i - n, n)
  }

  lemma {:induction false} SlotIsMod(i: nat, n: nat)
    requires 0 < n
    ensures Slot(i, n) == i % n
  {
    if i < n {
      DivModUnique(i, 0, i, n);
    } else {
      SlotIsMod(i - n, n);
      var j := i - n;
      assert i == (j / n + 1) * n + j % n;
      DivModUnique(i, j / n + 1, j % n, n);
    }
  }

  /** Counters less than n apart occupy different slots. */
  lemma SlotInjective(i: nat, j: nat, n: nat)
    requires 0 < n && i <= j < i + n && Slot(i, n) == Slot(j, n)
    ensures i == j
  {
    SlotIsMod(i, n);
    SlotIsMod(j, n);
    ModInjective(i, j, n);
  }

  /** Masking an advanced index gives the slot of the advanced counter. */
  lemma MaskedSlot(base: nat, i: nat, k: nat)
    ensures And(Slot(base, Pow2(k)) + i, Pow2(k) - 1) == Slot(base + i, Pow2(k))
  {
    var n := Pow2(k);
    AndMaskIsMod(Slot(base, n) + i, k);
    SlotIsMod(base, n);
    SlotIsMod(base + i, n);
    ModAddMod(base, i, n);
  }

  /** The wrapped 32-bit difference of two indices, masked, is the distance between the counters. */
  lemma MaskedDistance(a: nat, b: nat, k: nat)
    requires k <= 32 && b <= a < b + Pow2(k)
    ensures Slot(a, Pow2(k)) < WORD32 && Slot(b, Pow2(k)) < WORD32
    ensures And(Sub32(Slot(a, Pow2(k)), Slot(b, Pow2(k))), Pow2(k) - 1) == a - b
  {
    var n := Pow2(k);
    var c := RingSizeDivides(k);
    SlotIsMod(a, n);
    SlotIsMod(b, n);
    MaskedResidues(a, b, c, k);
  }
}
