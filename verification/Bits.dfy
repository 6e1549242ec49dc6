/** Unsigned bit-vector arithmetic over natural numbers: a value of width `w` is
    a number below `Pow2(w)`.  The laws below are the ones the expression
    rewriter relies on. */
module Bits {

  function Pow2(n: nat): (p: nat)
    ensures p >= 1
    ensures n >= 1 ==> p >= 2
  {
    if n == 0 then 1 else 2 * Pow2(n - 1)
  }

  lemma {:induction false} Pow2Add(m: nat, n: nat)
    ensures Pow2(m + n) == Pow2(m) * Pow2(n)
  {
    if m == 0 {
    } else {
      Pow2Add(m - 1, n);
      MulAssoc(2, Pow2(m - 1), Pow2(n));
    }
  }

  lemma {:induction false} Pow2Monotonic(m: nat, n: nat)
    requires m <= n
    ensures Pow2(m) <= Pow2(n)
  {
    if m == n {
    } else {
      Pow2Monotonic(m, n - 1);
    }
  }

  lemma {:induction false} PowersOfTwo()
    ensures Pow2(0) == 1 && Pow2(1) == 2 && Pow2(8) == 256
  {
    assert Pow2(4) == 16;
    Pow2Add(4, 4);
  }

  // ---------------------------------------------------------------- division

  lemma {:induction false} MulAssoc(x: int, y: int, z: int)
    ensures x * (y * z) == (x * y) * z
  {
  }

  lemma {:induction false} MulBelow(hi: nat, lo: nat, m: nat, n: nat)
    requires hi < m && lo < n
    ensures hi * n + lo < m * n
  {
    assert hi * n <= (m - 1) * n;
  }

  lemma {:induction false} MulAtLeast(k: int, m: int)
    requires k >= 1 && m >= 0
    ensures k * m >= m
  {
  }

  /** Quotient and remainder are determined by the division equation. */
  lemma {:induction false} DivModUnique(x: int, m: nat, q: int, r: int)
    requires m > 0 && 0 <= r < m && x == q * m + r
    ensures x / m == q && x % m == r
  {
    var q', r' := x / m, x % m;
    assert x == q' * m + r';
    assert (q - q') * m == r' - r;
    if q > q' {
      MulAtLeast(q - q', m);
    } else if q < q' {
      assert (q' - q) * m == r - r';
      MulAtLeast(q' - q, m);
    }
  }

  lemma {:induction false} DivModSmall(x: int, m: nat)
    requires 0 <= x < m
    ensures x / m == 0 && x % m == x
  {
    DivModUnique(x, m, 0, x);
  }

  /** Adding a multiple of the modulus does not change the remainder. */
  lemma {:induction false} ModShift(x: int, k: int, m: nat)
    requires m > 0
    ensures (x + k * m) % m == x % m
  {
    var q, r := x / m, x % m;
    assert x + k * m == (q + k) * m + r by { assert x == q * m + r; }
    DivModUnique(x + k * m, m, q + k, r);
  }

  lemma {:induction false} ModAdd(x: int, y: int, m: nat)
    requires m > 0
    ensures (x % m + y) % m == (x + y) % m
    ensures (y + x % m) % m == (y + x) % m
  {
    assert x == (x / m) * m + x % m;
    ModShift(x % m + y, x / m, m);
  }

  lemma {:induction false} ModSub(x: int, y: int, m: nat)
    requires m > 0
    ensures (y - x % m) % m == (y - x) % m
    ensures (x % m - y) % m == (x - y) % m
  {
    assert x == (x / m) * m + x % m;
    ModShift(y - x % m, -(x / m), m);
    ModShift(x % m - y, x / m, m);
  }

  /** Two-digit expansions: `x` has quotient `q`, middle digit `d` and last digit `r`. */
  lemma {:induction false} TwoDigits(q: int, d: nat, r: nat, m: nat, n: nat)
    requires d < n && r < m
    ensures 0 <= d * m + r < m * n
    ensures (q * n + d) * m + r == q * (m * n) + (d * m + r)
  {
    MulBelow(d, r, n, m);
    assert (q * n) * m == q * (m * n);
  }

  /** Dividing and reducing step by step. */
  lemma {:induction false} DivDiv(x: int, m: nat, n: nat)
    requires m > 0 && n > 0
    ensures m * n > 0
    ensures x / m / n == x / (m * n)
    ensures (x % (m * n)) / m == (x / m) % n
    ensures (x % (m * n)) % m == x % m
    ensures m * ((x / m) % n) + x % m == x % (m * n)
  {
    MulAtLeast(n, m);
    var q, r := x / m, x % m;
    var q', d := q / n, q % n;
    DivModDef(x, m);
    DivModDef(q, n);
    TwoDigits(q', d, r, m, n);
    DivModUnique(x, m * n, q', d * m + r);
    DivModUnique(d * m + r, m, d, r);
  }

  lemma {:induction false} DivModDef(x: int, m: nat)
    requires m > 0
    ensures x == (x / m) * m + x % m && 0 <= x % m < m
  {
  }

  // ---------------------------------------------------- wrap-around arithmetic

  /** The `w`-bit value congruent to `x`. */
  function Wrap(x: int, w: nat): (r: nat)
    ensures r < Pow2(w)
  {
    x % Pow2(w)
  }

  lemma {:induction false} WrapSmall(x: nat, w: nat)
    requires x < Pow2(w)
    ensures Wrap(x, w) == x
  {
    DivModSmall(x, Pow2(w));
  }

  lemma {:induction false} WrapAdd(x: int, y: int, w: nat)
    ensures Wrap(Wrap(x, w) + y, w) == Wrap(x + y, w)
  {
    ModAdd(x, y, Pow2(w));
  }

  lemma {:induction false} WrapSub(x: int, y: int, w: nat)
    ensures Wrap(y - Wrap(x, w), w) == Wrap(y - x, w)
  {
    ModSub(x, y, Pow2(w));
  }

  // ------------------------------------------------------ concat and extract

  function ConcatBits(hi: nat, lo: nat, lowWidth: nat): (r: nat) {
    hi * Pow2(lowWidth) + lo
  }

  function ExtractBits(x: nat, off: nat, w: nat): (r: nat)
    ensures r < Pow2(w)
  {
    (x / Pow2(off)) % Pow2(w)
  }

  lemma {:induction false} ConcatRange(hi: nat, lo: nat, wh: nat, wl: nat)
    requires hi < Pow2(wh) && lo < Pow2(wl)
    ensures ConcatBits(hi, lo, wl) < Pow2(wh + wl)
  {
    Pow2Add(wh, wl);
    MulBelow(hi, lo, Pow2(wh), Pow2(wl));
  }

  lemma {:induction false} ExtractWhole(x: nat, w: nat)
    requires x < Pow2(w)
    ensures ExtractBits(x, 0, w) == x
  {
    DivModSmall(x, Pow2(w));
    assert Pow2(0) == 1;
  }

  /** Extracting above the low part of a concatenation only sees the high part. */
  lemma {:induction false} ExtractHigh(hi: nat, lo: nat, wl: nat, off: nat, w: nat)
    requires lo < Pow2(wl) && off >= wl
    ensures ExtractBits(ConcatBits(hi, lo, wl), off, w) == ExtractBits(hi, off - wl, w)
  {
    Pow2Add(wl, off - wl);
    DivDiv(ConcatBits(hi, lo, wl), Pow2(wl), Pow2(off - wl));
    DivModUnique(ConcatBits(hi, lo, wl), Pow2(wl), hi, lo);
  }

  /** Extracting within the low part of a concatenation only sees the low part. */
  lemma {:induction false} ExtractLow(hi: nat, lo: nat, wl: nat, off: nat, w: nat)
    requires lo < Pow2(wl) && off + w <= wl
    ensures ExtractBits(ConcatBits(hi, lo, wl), off, w) == ExtractBits(lo, off, w)
  {
    var rest := wl - off - w;
    Pow2Add(off, w + rest);
    Pow2Add(w, rest);
    LowDigits(hi, lo, Pow2(off), Pow2(w), Pow2(rest));
  }

  lemma {:induction false} LowDigits(hi: nat, lo: nat, a: nat, b: nat, c: nat)
    requires a > 0 && b > 0 && c > 0 && lo < a * (b * c)
    ensures ((hi * (a * (b * c)) + lo) / a) % b == (lo / a) % b
  {
    var x, m := hi * (a * (b * c)) + lo, a * (b * c);
    MulAtLeast(c, b);
    DivModUnique(x, m, hi, lo);
    DivDiv(x, a, b * c);
    DivDiv(x / a, b, c);
  }

  /** Splitting an extract at bit `k`. */
  lemma {:induction false} ExtractSplit(x: nat, off: nat, k: nat, w: nat)
    requires k <= w
    ensures ExtractBits(x, off, w) == ConcatBits(ExtractBits(x, off + k, w - k), ExtractBits(x, off, k), k)
  {
    Pow2Add(off, k);
    Pow2Add(k, w - k);
    SplitAt(x, Pow2(off), Pow2(k), Pow2(w - k));
  }

  lemma {:induction false} SplitAt(x: nat, a: nat, b: nat, c: nat)
    requires a > 0 && b > 0 && c > 0
    ensures a * b > 0 && b * c > 0
    ensures (x / a) % (b * c) == ((x / (a * b)) % c) * b + (x / a) % b
  {
    DivDiv(x, a, b);
    DivDiv(x / a, b, c);
  }

  /** An extract across the boundary of a concatenation is the concatenation of
      an extract of each side. */
  lemma {:induction false} ExtractStraddle(hi: nat, lo: nat, wl: nat, off: nat, w: nat)
    requires lo < Pow2(wl) && off < wl < off + w
    ensures ExtractBits(ConcatBits(hi, lo, wl), off, w)
         == ConcatBits(ExtractBits(hi, 0, w - wl + off), ExtractBits(lo, off, wl - off), wl - off)
  {
    var c := ConcatBits(hi, lo, wl);
    ExtractSplit(c, off, wl - off, w);
    ExtractHigh(hi, lo, wl, wl, w - wl + off);
    ExtractLow(hi, lo, wl, off, wl - off);
  }

  // ------------------------------------------------------- signs and bitwise

  /** Two's complement reading of a `w`-bit value. */
  function Signed(x: nat, w: nat): (s: int) {
    if w == 0 || x < Pow2(w - 1) then x else x - Pow2(w)
  }

  function SignExtend(x: nat, from: nat, to: nat): (r: nat)
    ensures r < Pow2(to)
  {
    Wrap(Signed(x, from), to)
  }

  lemma {:induction false} SignExtendTruncates(x: nat, from: nat, to: nat)
    requires 0 < from <= to && x < Pow2(from)
    ensures Wrap(SignExtend(x, from, to), from) == x
  {
    Pow2Add(from, to - from);
    var m, s := Pow2(from), Signed(x, from);
    ModMod(s, m, Pow2(to - from));
    if s == x {
      DivModSmall(x, m);
    } else {
      DivModUnique(s, m, -1, x);
    }
  }

  lemma {:induction false} ModMod(s: int, m: nat, n: nat)
    requires m > 0 && n > 0
    ensures m * n > 0
    ensures (s % (m * n)) % m == s % m
  {
    MulAtLeast(n, m);
    var k := s / (m * n);
    DivModDef(s, m * n);
    MulAssoc(k, n, m);
    assert n * m == m * n;
    ModShift(s, -(k * n), m);
  }

  function BitAnd(x: nat, y: nat, w: nat): (r: nat)
    ensures r < Pow2(w)
  {
    if w == 0 then 0 else (x % 2) * (y % 2) + 2 * BitAnd(x / 2, y / 2, w - 1)
  }

  function BitOr(x: nat, y: nat, w: nat): (r: nat)
    ensures r < Pow2(w)
  {
    if w == 0 then 0 else
      (if x % 2 == 1 || y % 2 == 1 then 1 else 0) + 2 * BitOr(x / 2, y / 2, w - 1)
  }

  function BitXor(x: nat, y: nat, w: nat): (r: nat)
    ensures r < Pow2(w)
  {
    if w == 0 then 0 else
      (if x % 2 != y % 2 then 1 else 0) + 2 * BitXor(x / 2, y / 2, w - 1)
  }

  lemma {:induction false} BitwiseUnits(x: nat, w: nat)
    requires x < Pow2(w)
    ensures BitAnd(x, Pow2(w) - 1, w) == x && BitAnd(x, 0, w) == 0
    ensures BitOr(x, 0, w) == x && BitOr(x, Pow2(w) - 1, w) == Pow2(w) - 1
    ensures BitXor(0, x, w) == x
  {
    if w == 0 {
    } else {
      assert (Pow2(w) - 1) / 2 == Pow2(w - 1) - 1;
      BitwiseUnits(x / 2, w - 1);
    }
  }

  lemma {:induction false} BitwiseCommutes(x: nat, y: nat, w: nat)
    ensures BitAnd(x, y, w) == BitAnd(y, x, w)
    ensures BitOr(x, y, w) == BitOr(y, x, w)
    ensures BitXor(x, y, w) == BitXor(y, x, w)
  {
    if w == 0 {
    } else {
      BitwiseCommutes(x / 2, y / 2, w - 1);
    }
  }
}
