/**
 * Fixed-width unsigned values (`U<N>` of the `common` crate).
 *
 * An N-bit value is a `nat` below `Pow2(N)`. Every operation re-truncates its
 * result into the width it is taken at, so nothing ever overflows. Bitwise AND
 * and OR are defined bit by bit on natural numbers; the lemmas at the end of
 * the module say what the masks used by the splitter actually compute.
 */
module FixedWidth {

  /** 2 to the power n. */
  function Pow2(n: nat): (r: nat)
    ensures r >= 1
  {
    if n == 0 then 1 else 2 * Pow2(n - 1)
  }

  /** Keeps the low `width` bits of `v`: `U::from` and `change_bits`. */
  function Truncate(v: nat, width: nat): (r: nat)
    ensures r < Pow2(width)
    ensures v < Pow2(width) ==> r == v
  {
    if v < Pow2(width) then DivModUnique(v, Pow2(width), 0, v); v % Pow2(width)
    else v % Pow2(width)
  }

  /** The largest value of the width: every bit set (`U::max`). */
  function Max(width: nat): (r: nat)
    ensures r < Pow2(width) && r + 1 == Pow2(width)
  {
    Pow2(width) - 1
  }

  /** Left shift inside a `width`-bit value: the bits pushed past the top are lost. */
  function Shl(v: nat, k: nat, width: nat): (r: nat)
    ensures r < Pow2(width)
  {
    Truncate(v * Pow2(k), width)
  }

  /** Right shift: the low `k` bits are lost. */
  function Shr(v: nat, k: nat): (r: nat)
    ensures r <= v
  {
    DivBounds(v, Pow2(k));
    v / Pow2(k)
  }

  /** Bitwise AND, bit by bit from the least significant end. */
  function And(a: nat, b: nat): (r: nat)
    ensures r <= a && r <= b
    decreases a
  {
    if a == 0 || b == 0 then 0
    else 2 * And(a / 2, b / 2) + (if a % 2 == 1 && b % 2 == 1 then 1 else 0)
  }

  /** Bitwise OR, bit by bit from the least significant end. */
  function Or(a: nat, b: nat): (r: nat)
    ensures a <= r && b <= r && r <= a + b
    decreases a + b
  {
    if a == 0 then b
    else if b == 0 then a
    else 2 * Or(a / 2, b / 2) + (if a % 2 == 1 || b % 2 == 1 then 1 else 0)
  }

  // ---------------------------------------------------------------------
  // Arithmetic facts about powers of two
  // ---------------------------------------------------------------------

  lemma {:induction false} Pow2Add(a: nat, b: nat)
    ensures Pow2(a + b) == Pow2(a) * Pow2(b)
  {
    if a > 0 {
      Pow2Add(a - 1, b);
      assert Pow2(a + b) == 2 * Pow2(a - 1 + b);
    }
  }

  lemma {:induction false} Pow2Monotone(a: nat, b: nat)
    requires a <= b
    ensures Pow2(a) <= Pow2(b)
  {
    if a < b {
      Pow2Monotone(a, b - 1);
    }
  }

  /** Division and remainder are determined by any decomposition `a == d * q + r` with `0 <= r < d`. */
  lemma DivModUnique(a: int, d: int, q: int, r: int)
    requires d > 0 && 0 <= r < d && a == d * q + r
    ensures a / d == q && a % d == r
  {
    var q0, r0 := a / d, a % d;
    assert a == d * q0 + r0;
    assert d * (q - q0) == r0 - r;
    if q0 < q {
      MulAtLeast(d, q - q0);
    } else if q0 > q {
      MulAtLeast(d, q0 - q);
    }
  }

  /** Quotient and remainder put back together give the dividend. */
  lemma DivModParts(c: nat, d: nat)
    requires d > 0
    ensures (c / d) * d + c % d == c && c % d < d
  {
  }

  /** The quotient of a natural by a positive divisor is a natural no larger than it. */
  lemma DivBounds(a: nat, d: nat)
    requires d > 0
    ensures 0 <= a / d <= a
  {
    var q := a / d;
    assert a == d * q + a % d;
    if q < 0 {
      MulAtLeast(d, -q);
    } else if q > a {
      MulAtLeast(q, d);
    }
  }

  lemma MulAtLeast(d: int, k: int)
    requires d > 0 && k >= 1
    ensures d * k >= d
  {
    assert d * k == d * (k - 1) + d;
    assert d * (k - 1) >= 0;
  }

  /** A value below `Pow2(n + m)` has fewer than `Pow2(m)` multiples of `Pow2(n)`. */
  lemma DivBelow(c: nat, n: nat, m: nat)
    requires c < Pow2(n + m)
    ensures c / Pow2(n) < Pow2(m)
  {
    Pow2Add(n, m);
    var p, q := Pow2(n), c / Pow2(n);
    assert c == p * q + c % p;
    if q >= Pow2(m) {
      MulMonotone(p, Pow2(m), q);
    }
  }

  lemma MulMonotone(p: nat, x: nat, y: nat)
    requires x <= y
    ensures p * x <= p * y
  {
    assert p * y == p * x + p * (y - x);
  }

  /** Putting `hi` above the low `n` bits of `lo` stays below `Pow2(n + m)`. */
  lemma JoinBelow(hi: nat, lo: nat, n: nat, m: nat)
    requires hi < Pow2(m) && lo < Pow2(n)
    ensures hi * Pow2(n) + lo < Pow2(n + m)
  {
    Pow2Add(n, m);
    MulMonotone(Pow2(n), hi, Pow2(m) - 1);
    assert Pow2(n) * (Pow2(m) - 1) == Pow2(n) * Pow2(m) - Pow2(n);
  }

  /** Splitting a value at bit n and joining the halves gives it back. */
  lemma SplitJoin(hi: nat, lo: nat, n: nat)
    requires lo < Pow2(n)
    ensures (hi * Pow2(n) + lo) % Pow2(n) == lo
    ensures (hi * Pow2(n) + lo) / Pow2(n) == hi
  {
    DivModUnique(hi * Pow2(n) + lo, Pow2(n), hi, lo);
  }

  /** Halving commutes with taking the remainder by an even power of two. */
  lemma HalfMod(a: nat, n: nat)
    requires n > 0
    ensures a % Pow2(n) == 2 * ((a / 2) % Pow2(n - 1)) + a % 2
  {
    HalfDivMod(a, n);
  }

  /** Halving commutes with dividing by an even power of two. */
  lemma HalfDiv(a: nat, n: nat)
    requires n > 0
    ensures a / Pow2(n) == (a / 2) / Pow2(n - 1)
  {
    HalfDivMod(a, n);
  }

  lemma HalfDivMod(a: nat, n: nat)
    requires n > 0
    ensures a % Pow2(n) == 2 * ((a / 2) % Pow2(n - 1)) + a % 2
    ensures a / Pow2(n) == (a / 2) / Pow2(n - 1)
  {
    var p := Pow2(n - 1);
    var q := a / 2;
    var s, r := q / p, q % p;
    assert q == p * s + r;
    assert a == 2 * q + a % 2;
    assert a == (2 * p) * s + (2 * r + a % 2);
    DivModUnique(a, 2 * p, s, 2 * r + a % 2);
  }

  // ---------------------------------------------------------------------
  // What the masks compute
  // ---------------------------------------------------------------------

  lemma MaxHalf(n: nat)
    requires n > 0
    ensures Max(n) / 2 == Max(n - 1) && Max(n) % 2 == 1
  {
    assert Pow2(n) == 2 * Pow2(n - 1);
  }

  lemma AndOdd(a: nat, b: nat)
    requires a > 0 && b % 2 == 1
    ensures And(a, b) == 2 * And(a / 2, b / 2) + a % 2
  {
  }

  lemma AndEven(a: nat, b: nat)
    requires a > 0 && b % 2 == 0
    ensures And(a, b) == 2 * And(a / 2, b / 2)
  {
  }

  /** AND with `Max(n)` keeps exactly the low n bits. */
  lemma {:induction false} AndLowMask(a: nat, n: nat)
    ensures And(a, Max(n)) == a % Pow2(n)
  {
    if n == 0 {
      assert Max(0) == 0;
    } else if a == 0 {
      assert And(0, Max(n)) == 0;
    } else {
      var h, bit := a / 2, a % 2;
      MaxHalf(n);
      AndOdd(a, Max(n));
      assert And(a, Max(n)) == 2 * And(h, Max(n - 1)) + bit;
      AndLowMask(h, n - 1);
      HalfMod(a, n);
      assert a % Pow2(n) == 2 * (h % Pow2(n - 1)) + bit;
    }
  }

  /**
   * Truncation keeps exactly the low `width` bits: it is AND with the
   * all-ones value of the width, and what it drops is a multiple of
   * `Pow2(width)`.
   */
  lemma TruncateKeepsLowBits(v: nat, width: nat)
    ensures Truncate(v, width) == And(v, Max(width))
    ensures (v / Pow2(width)) * Pow2(width) + Truncate(v, width) == v
  {
    AndLowMask(v, width);
    DivModParts(v, Pow2(width));
  }

  /** The mask of the bits from position n up to, not including, position w. */
  function HighBits(n: nat, w: nat): (r: nat)
    requires n <= w
    ensures r + Pow2(n) == Pow2(w)
  {
    Pow2Monotone(n, w);
    Pow2(w) - Pow2(n)
  }

  lemma HighBitsHalf(n: nat, w: nat)
    requires 0 < n <= w
    ensures HighBits(n, w) / 2 == HighBits(n - 1, w - 1) && HighBits(n, w) % 2 == 0
  {
    assert Pow2(n) == 2 * Pow2(n - 1);
    assert Pow2(w) == 2 * Pow2(w - 1);
  }

  lemma HalfBelow(a: nat, w: nat)
    requires w > 0 && a < Pow2(w)
    ensures a / 2 < Pow2(w - 1)
  {
  }

  lemma DoubleMul(q: nat, n: nat)
    requires n > 0
    ensures 2 * (q * Pow2(n - 1)) == q * Pow2(n)
  {
  }

  /** AND with the bits from n up to w clears the low n bits of a w-bit value. */
  lemma {:induction false} AndHighMask(a: nat, n: nat, w: nat)
    requires n <= w && a < Pow2(w)
    ensures And(a, HighBits(n, w)) == (a / Pow2(n)) * Pow2(n)
    decreases n, 1
  {
    if n == 0 {
      AndHighMaskNone(a, w);
    } else if n == w {
      DivModUnique(a, Pow2(n), 0, a);
    } else if a > 0 {
      AndHighMaskStep(a, n, w);
    }
  }

  lemma AndHighMaskNone(a: nat, w: nat)
    requires a < Pow2(w)
    ensures And(a, HighBits(0, w)) == (a / Pow2(0)) * Pow2(0)
  {
    assert HighBits(0, w) == Max(w) && Pow2(0) == 1;
    AndLowMask(a, w);
    DivModUnique(a, Pow2(w), 0, a);
  }

  lemma {:induction false} AndHighMaskStep(a: nat, n: nat, w: nat)
    requires 0 < n < w && 0 < a < Pow2(w)
    ensures And(a, HighBits(n, w)) == (a / Pow2(n)) * Pow2(n)
    decreases n, 0
  {
    var b, b' := HighBits(n, w), HighBits(n - 1, w - 1);
    var h := a / 2;
    var q := h / Pow2(n - 1);
    assert And(a, b) == 2 * And(h, b') by {
      HighBitsHalf(n, w);
      AndEven(a, b);
    }
    assert And(h, b') == q * Pow2(n - 1) by {
      HalfBelow(a, w);
      AndHighMask(h, n - 1, w - 1);
    }
    assert q == a / Pow2(n) by {
      HalfDiv(a, n);
    }
    assert 2 * (q * Pow2(n - 1)) == q * Pow2(n) by {
      DoubleMul(q, n);
    }
  }

  /** OR of a multiple of `Pow2(n)` with a value below `Pow2(n)` is their sum. */
  lemma {:induction false} OrDisjoint(k: nat, lo: nat, n: nat)
    requires lo < Pow2(n)
    ensures Or(k * Pow2(n), lo) == k * Pow2(n) + lo
  {
    if n > 0 && k > 0 && lo > 0 {
      var p := Pow2(n - 1);
      assert k * Pow2(n) == 2 * (k * p);
      OrDisjoint(k, lo / 2, n - 1);
    }
  }

  lemma {:induction false} OrCommutes(a: nat, b: nat)
    ensures Or(a, b) == Or(b, a)
    decreases a + b
  {
    if a > 0 && b > 0 {
      OrCommutes(a / 2, b / 2);
    }
  }

  /** OR of two w-bit values is a w-bit value. */
  lemma {:induction false} OrBelow(a: nat, b: nat, w: nat)
    requires a < Pow2(w) && b < Pow2(w)
    ensures Or(a, b) < Pow2(w)
  {
    if a > 0 && b > 0 {
      OrBelow(a / 2, b / 2, w - 1);
    }
  }

  /** `max() << n` at width w is the mask of the bits from n up to w. */
  lemma ShlMaxIsHighMask(n: nat, w: nat)
    requires n <= w
    ensures Shl(Max(w), n, w) == HighBits(n, w)
  {
    Pow2Monotone(n, w);
    var p, q := Pow2(w), Pow2(n);
    assert (p - 1) * q == p * (q - 1) + (p - q);
    DivModUnique((p - 1) * q, p, q - 1, p - q);
  }

  /** `max() >> m` at width n + m is the mask of the low n bits. */
  lemma ShrMaxIsLowMask(n: nat, m: nat)
    ensures Shr(Max(n + m), m) == Max(n)
  {
    Pow2Add(n, m);
    var p, q := Pow2(n), Pow2(m);
    assert p * q - 1 == q * (p - 1) + (q - 1);
    DivModUnique(p * q - 1, q, p - 1, q - 1);
  }
}
