/** Fixed-width unsigned arithmetic on unbounded integers: shifts and bitwise operations as their
    numeric meaning. */
module Bits {

  function Pow2(n: nat): (r: nat)
    ensures r > 0
  {
    if n == 0 then 1 else 2 * Pow2(n - 1)
  }

  function And(x: nat, y: nat): nat {
    if x == 0 || y == 0 then 0 else 2 * And(x / 2, y / 2) + if x % 2 == 1 && y % 2 == 1 then 1 else 0
  }

  function Or(x: nat, y: nat): nat {
    if x == 0 && y == 0 then 0 else 2 * Or(x / 2, y / 2) + if x % 2 == 1 || y % 2 == 1 then 1 else 0
  }

  /** Bit `i`, counted from the least significant. */
  function Bit(x: nat, i: nat): nat { x / Pow2(i) % 2 }

  /** All `w` bits set. */
  function Max(w: nat): nat { Pow2(w) - 1 }

  /** The complement in `w` bits. */
  function Not(x: nat, w: nat): nat
    requires x < Pow2(w)
  {
    Max(w) - x
  }

  /** A left shift in `w` bits: what is shifted out is lost. */
  function Shl(x: nat, k: nat, w: nat): (r: nat)
    ensures r < Pow2(w)
  {
    x * Pow2(k) % Pow2(w)
  }

  lemma {:induction false} Pow2Adds(a: nat, b: nat)
    ensures Pow2(a + b) == Pow2(a) * Pow2(b)
  {
    if a > 0 { Pow2Adds(a - 1, b); }
  }

  lemma Pow2Grows(a: nat, b: nat)
    requires a < b
    ensures 2 * Pow2(a) <= Pow2(b)
    decreases b
  {
    if a < b - 1 { Pow2Grows(a, b - 1); }
  }

  lemma Pow2Injective(a: nat, b: nat)
    requires Pow2(a) == Pow2(b)
    ensures a == b
  {
    if a < b { Pow2Grows(a, b); }
    if b < a { Pow2Grows(b, a); }
  }

  /** The top `w - k` of `w` bits. */
  function TopMask(k: nat, w: nat): (r: nat)
    requires k <= w
    ensures r < Pow2(w)
  {
    if k < w then Pow2Grows(k, w); Pow2(w) - Pow2(k) else 0
  }

  lemma MultipleGrows(c: int, m: int)
    requires m > 0
    ensures (c >= 1 ==> c * m >= m) && (c <= -1 ==> c * m <= -m)
  {
  }

  lemma SmallMultiple(c: int, m: int)
    requires m > 0 && -m < c * m < m
    ensures c == 0
  {
    MultipleGrows(c, m);
  }

  lemma ModUnique(x: nat, m: nat, q: nat, r: nat)
    requires m > 0 && x == q * m + r && r < m
    ensures x % m == r && x / m == q
  {
    var d, e := x / m, x % m;
    assert x == d * m + e;
    assert (d - q) * m == d * m - q * m;
    SmallMultiple(d - q, m);
  }

  lemma ShiftedOnes(p: nat, q: nat)
    requires 0 < q <= p
    ensures (p - 1) * q == (q - 1) * p + (p - q)
  {
  }

  /** Shifting all ones left by `k` leaves the top `w - k` bits. */
  lemma ShlMax(k: nat, w: nat)
    requires k < w
    ensures Shl(Max(w), k, w) == TopMask(k, w)
  {
    var p, q := Pow2(w), Pow2(k);
    Pow2Grows(k, w);
    ShiftedOnes(p, q);
    ModUnique((p - 1) * q, p, q - 1, p - q);
  }

  lemma {:induction false} AndMax(x: nat, w: nat)
    requires x < Pow2(w)
    ensures And(x, Max(w)) == x
  {
    if x > 0 && w > 0 {
      AndMax(x / 2, w - 1);
      assert Max(w) == 2 * Max(w - 1) + 1;
    }
  }

  /** Halving the dividend halves the remainder by an even modulus. */
  lemma HalfMod(x: nat, m: nat)
    requires m > 0
    ensures x % (2 * m) == 2 * (x / 2 % m) + x % 2
    ensures x / (2 * m) == x / 2 / m
  {
    var h := x / 2;
    var q := h / m;
    assert h == q * m + h % m;
    assert x == q * (2 * m) + (2 * (h % m) + x % 2);
    ModUnique(x, 2 * m, q, 2 * (h % m) + x % 2);
  }

  lemma TopMaskHalves(k: nat, w: nat)
    requires 0 < k <= w
    ensures TopMask(k, w) == 2 * TopMask(k - 1, w - 1)
  {
    assert Pow2(w) == 2 * Pow2(w - 1) && Pow2(k) == 2 * Pow2(k - 1);
  }

  /** Masking with the top bits clears the low `k`. */
  lemma {:induction false} AndMask(x: nat, k: nat, w: nat)
    requires x < Pow2(w) && k <= w
    ensures And(x, TopMask(k, w)) == x - x % Pow2(k)
  {
    if k == 0 {
      AndMax(x, w);
      assert TopMask(0, w) == Max(w);
    } else {
      HalfMod(x, Pow2(k - 1));
      AndMask(x / 2, k - 1, w - 1);
      TopMaskHalves(k, w);
    }
  }

  /** Setting the low `k` bits of a multiple of `2^k` adds them. */
  lemma {:induction false} OrLow(x: nat, k: nat)
    requires x % Pow2(k) == 0
    ensures Or(x, Max(k)) == x + Max(k)
  {
    if k == 0 {
      OrZero(x);
    } else {
      HalfMod(x, Pow2(k - 1));
      OrLow(x / 2, k - 1);
      var m := Max(k - 1);
      assert Max(k) == 2 * m + 1 && Pow2(k) == 2 * Pow2(k - 1);
      hide Max, Pow2, Or;
      OrOdd(x, m);
    }
  }

  lemma OrOdd(x: nat, m: nat)
    ensures Or(x, 2 * m + 1) == 2 * Or(x / 2, m) + 1
  {
  }

  lemma {:induction false} OrZero(x: nat)
    ensures Or(x, 0) == x
  {
    if x > 0 { OrZero(x / 2); }
  }

  lemma {:induction false} DivPow2(x: nat, i: nat)
    ensures x / Pow2(i + 1) == x / Pow2(i) / 2
  {
    if i == 0 {
      assert Pow2(1) == 2;
    } else {
      HalfMod(x, Pow2(i));
      HalfMod(x, Pow2(i - 1));
      DivPow2(x / 2, i - 1);
    }
  }

  /** Two words have the same quotient by `2^k` exactly when all their bits from `k` up agree. */
  lemma {:induction false} TopBitsAgree(x: nat, y: nat, k: nat, w: nat)
    requires x < Pow2(w) && y < Pow2(w) && k <= w
    ensures x / Pow2(k) == y / Pow2(k) <==> forall i :: k <= i < w ==> Bit(x, i) == Bit(y, i)
    decreases w - k
  {
    if k == w {
      ModUnique(x, Pow2(w), 0, x);
      ModUnique(y, Pow2(w), 0, y);
    } else {
      TopBitsAgree(x, y, k + 1, w);
      DivPow2(x, k);
      DivPow2(y, k);
      assert x / Pow2(k) == y / Pow2(k) <==> x / Pow2(k + 1) == y / Pow2(k + 1) && Bit(x, k) == Bit(y, k);
    }
  }
}
