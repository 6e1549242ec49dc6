/** What the operators of the expression language mean, bit by bit or by the arithmetic
    laws that determine them, independently of how they are computed. */
module Operators {
  import opened Bits
  import opened Exprs

  /** Bit `i` of a number in two's complement. */
  predicate Bit(x: int, i: nat) {
    x / Pow2(i) % 2 == 1
  }

  // ------------------------------------------------------------- bits of numbers

  lemma {:induction false} BitOfHalf(x: int, i: nat)
    ensures Bit(x, i + 1) == Bit(x / 2, i)
    ensures Bit(x, 0) == (x % 2 == 1)
  {
    DivDiv(x, 2, Pow2(i));
    assert Pow2(0) == 1;
  }

  /** Bits are those of the quotient by a power of two. */
  lemma {:induction false} BitOfQuotient(x: int, k: nat, i: nat)
    ensures Bit(x / Pow2(k), i) == Bit(x, k + i)
  {
    Pow2Add(k, i);
    DivDiv(x, Pow2(k), Pow2(i));
  }

  lemma {:induction false} EvenDigit(x: int, c: int, m: nat, n: nat)
    requires m > 0
    ensures (x + c * (m * (2 * n))) / m % 2 == x / m % 2
  {
    var q, k := x / m, c * (2 * n);
    DivModDef(x, m);
    assert c * (m * (2 * n)) == k * m by {
      MulAssoc(c, 2 * n, m);
      assert m * (2 * n) == (2 * n) * m;
    }
    MulAssoc(c, n, 2);
    assert x + c * (m * (2 * n)) == (q + k) * m + x % m;
    DivModUnique(x + c * (m * (2 * n)), m, q + k, x % m);
    ModShift(q, c * n, 2);
  }

  /** Adding a multiple of a higher power of two keeps the bit. */
  lemma {:induction false} BitBelow(x: int, c: int, w: nat, i: nat)
    requires i < w
    ensures Bit(x + c * Pow2(w), i) == Bit(x, i)
  {
    Pow2Add(i, w - i);
    EvenDigit(x, c, Pow2(i), Pow2(w - i - 1));
  }

  lemma {:induction false} BitOfWrap(x: int, w: nat, i: nat)
    requires i < w
    ensures Bit(Wrap(x, w), i) == Bit(x, i)
  {
    DivModDef(x, Pow2(w));
    BitBelow(Wrap(x, w), x / Pow2(w), w, i);
  }

  lemma {:induction false} BitOfProduct(x: nat, y: nat, i: nat)
    ensures Bit(x * Pow2(y), i) == (y <= i && Bit(x, i - y))
  {
    if y <= i {
      BitOfQuotient(x * Pow2(y), y, i - y);
      DivModUnique(x * Pow2(y), Pow2(y), x, 0);
    } else {
      BitBelow(0, x, y, i);
      assert 0 / Pow2(i) == 0;
    }
  }

  lemma {:induction false} BitOfComplement(x: int, i: nat)
    ensures Bit(-1 - x, i) == !Bit(x, i)
  {
    var m := Pow2(i);
    var q, r := x / m, x % m;
    DivModDef(x, m);
    assert -1 - x == (-1 - q) * m + (m - 1 - r);
    DivModUnique(-1 - x, m, -1 - q, m - 1 - r);
  }

  lemma {:induction false} BitBeyond(x: nat, w: nat, i: nat)
    requires x < Pow2(w) && w <= i
    ensures !Bit(x, i)
  {
    Pow2Monotonic(w, i);
    DivModSmall(x, Pow2(i));
  }

  lemma {:induction false} TopBit(x: nat, w: nat)
    requires 0 < w && x < Pow2(w)
    ensures Bit(x, w - 1) <==> x >= Pow2(w - 1)
  {
    var m := Pow2(w - 1);
    if x < m { DivModSmall(x, m); } else { DivModUnique(x, m, 1, x - m); }
  }

  /** The bits of a number are its own below its width, and its sign from there on. */
  lemma {:induction false} BitOfSigned(x: nat, w: nat, i: nat)
    requires 0 < w && x < Pow2(w)
    ensures Bit(Signed(x, w), i) == Bit(x, if i < w then i else w - 1)
  {
    TopBit(x, w);
    if i < w {
      if x >= Pow2(w - 1) { BitBelow(x, -1, w, i); }
    } else {
      Pow2Monotonic(w, i);
      if x < Pow2(w - 1) { BitBeyond(x, w, i); } else { DivModUnique(x - Pow2(w), Pow2(i), -1, Pow2(i) + x - Pow2(w)); }
    }
  }

  lemma {:induction false} BitOfSum(b: nat, x: nat, i: nat)
    requires b < 2
    ensures Bit(b + 2 * x, i) == if i == 0 then b == 1 else Bit(x, i - 1)
  {
    DivModUnique(b + 2 * x, 2, x, b);
    if i == 0 { BitOfHalf(b + 2 * x, 0); } else { BitOfHalf(b + 2 * x, i - 1); }
  }

  lemma {:induction false} BitwiseStep(x: nat, y: nat, w: nat) returns (b: nat, c: nat, d: nat)
    requires w > 0
    ensures b < 2 && BitAnd(x, y, w) == b + 2 * BitAnd(x / 2, y / 2, w - 1) && (b == 1 <==> x % 2 == 1 && y % 2 == 1)
    ensures c < 2 && BitOr(x, y, w) == c + 2 * BitOr(x / 2, y / 2, w - 1) && (c == 1 <==> x % 2 == 1 || y % 2 == 1)
    ensures d < 2 && BitXor(x, y, w) == d + 2 * BitXor(x / 2, y / 2, w - 1) && (d == 1 <==> x % 2 != y % 2)
  {
    b := (x % 2) * (y % 2);
    c := if x % 2 == 1 || y % 2 == 1 then 1 else 0;
    d := if x % 2 != y % 2 then 1 else 0;
  }

  lemma {:induction false} BitOfBitwise(x: nat, y: nat, w: nat, i: nat)
    requires i < w
    ensures Bit(BitAnd(x, y, w), i) == (Bit(x, i) && Bit(y, i))
    ensures Bit(BitOr(x, y, w), i) == (Bit(x, i) || Bit(y, i))
    ensures Bit(BitXor(x, y, w), i) == (Bit(x, i) != Bit(y, i))
  {
    hide Bit, BitAnd, BitOr, BitXor;
    var p, q := x / 2, y / 2;
    var b, c, d := BitwiseStep(x, y, w);
    BitOfSum(b, BitAnd(p, q, w - 1), i);
    BitOfSum(c, BitOr(p, q, w - 1), i);
    BitOfSum(d, BitXor(p, q, w - 1), i);
    if i == 0 {
      BitOfHalf(x, 0);
      BitOfHalf(y, 0);
    } else {
      BitOfHalf(x, i - 1);
      BitOfHalf(y, i - 1);
      BitOfBitwise(p, q, w - 1, i - 1);
    }
  }

  // ------------------------------------------------------------- signed numbers

  /** The two's complement reading is the one number of the signed range that is congruent
      to the value. */
  lemma {:induction false} SignedMeaning(x: nat, w: nat, s: int)
    requires 0 < w && x < Pow2(w)
    ensures 0 <= Signed(x, w) + Pow2(w - 1) < Pow2(w)
    ensures Wrap(Signed(x, w), w) == x
    ensures 0 <= s + Pow2(w - 1) < Pow2(w) && Wrap(s, w) == x ==> Signed(x, w) == s
  {
    WrapOfSigned(x, w);
    if 0 <= s + Pow2(w - 1) < Pow2(w) && Wrap(s, w) == x {
      if s >= 0 { DivModSmall(s, Pow2(w)); } else { DivModUnique(s, Pow2(w), -1, s + Pow2(w)); }
    }
  }

  lemma {:induction false} WrapOfSigned(x: nat, w: nat)
    requires x < Pow2(w)
    ensures Wrap(Signed(x, w), w) == x
  {
    if Signed(x, w) == x { DivModSmall(x, Pow2(w)); } else { DivModUnique(x - Pow2(w), Pow2(w), -1, x); }
  }

  /** A sign extension repeats the highest bit of its argument. */
  lemma {:induction false} SignExtendBits(x: nat, from: nat, to: nat, i: nat)
    requires 0 < from && x < Pow2(from) && i < to
    ensures Bit(SignExtend(x, from, to), i) == Bit(x, if i < from then i else from - 1)
  {
    BitOfWrap(Signed(x, from), to, i);
    BitOfSigned(x, from, i);
  }

  function Abs(x: int): (r: nat)
    ensures r == x || r == -x
  {
    if x < 0 then -x else x
  }

  /** Division that truncates: the remainder is smaller than the divisor and has the sign
      of the dividend. */
  lemma {:induction false} TruncDivMeaning(x: int, y: int)
    requires y != 0
    ensures var q := TruncDiv(x, y); var r := x - q * y;
            && Abs(r) < Abs(y) && (r > 0 ==> x > 0) && (r < 0 ==> x < 0)
            && Abs(q) <= Abs(x) && (Abs(y) >= 2 && x != 0 ==> Abs(q) < Abs(x)) && (y == 1 ==> q == x) && (y == -1 ==> q == -x)
  {
    var n := Abs(x);
    var k, r := n / y, n % y;
    assert n == y * k + r && 0 <= r < Abs(y);
    MulSign(y, k, n, r);
  }

  lemma {:induction false} MulSign(y: int, k: int, n: nat, r: nat)
    requires y != 0 && n == y * k + r && r < Abs(y)
    ensures Abs(k) <= n && (Abs(y) >= 2 && n > 0 ==> Abs(k) < n)
    ensures k * y == y * k && (-k) * y == -(y * k)
  {
    var a: int, b: int := Abs(y), Abs(k);
    assert y * k == a * b || y * k == -(a * b);
    if b > 0 { MulAtLeast(b, a); MulAtLeast(a, b); }
    if a >= 2 && b > 0 { MulAtLeast(a - 1, b); assert a * b == (a - 1) * b + b; }
  }

  /** Signed quotient `q` and remainder `r` of `s` by `t`: they give the dividend back, and the
      remainder is smaller than the divisor and has the sign of the dividend. */
  predicate Divides(s: int, t: int, q: int, r: int) {
    s == q * t + r && Abs(r) < Abs(t) && (r > 0 ==> s > 0) && (r < 0 ==> s < 0)
  }

  /** Signed division, except that the one quotient outside the signed range wraps. */
  lemma {:induction false} SignedDivision(x: nat, y: nat, w: nat)
    requires 0 < w && 0 < y < Pow2(w) && x < Pow2(w)
    ensures if Signed(x, w) + Pow2(w - 1) == 0 && Signed(y, w) == -1 then SDivBits(x, y, w) == x && SRemBits(x, y, w) == 0
            else Divides(Signed(x, w), Signed(y, w), Signed(SDivBits(x, y, w), w), Signed(SRemBits(x, y, w), w))
  {
    var s, t := Signed(x, w), Signed(y, w);
    SignedMeaning(x, w, s);
    SignedMeaning(y, w, t);
    assert t != 0;
    var q := TruncDiv(s, t);
    var r := s - t * q;
    TruncDivMeaning(s, t);
    assert t * q == q * t;
    assert SDivBits(x, y, w) == Wrap(q, w) && SRemBits(x, y, w) == Wrap(r, w);
    hide Signed, TruncDiv, SDivBits, SRemBits;
    if s + Pow2(w - 1) == 0 && t == -1 {
      assert q == -s && r == 0;
      WrapNegated(s, x, w);
    } else {
      QuotientInRange(s, t, q, r, w);
      SignedMeaning(Wrap(r, w), w, r);
      SignedMeaning(Wrap(q, w), w, q);
    }
  }

  lemma {:induction false} WrapNegated(s: int, x: nat, w: nat)
    requires w > 0 && s + Pow2(w - 1) == 0 && Wrap(s, w) == x
    ensures Wrap(-s, w) == x && Wrap(0, w) == 0
  {
    DivModSmall(-s, Pow2(w));
    DivModSmall(0, Pow2(w));
    DivModUnique(s, Pow2(w), -1, Pow2(w - 1));
  }

  lemma {:induction false} QuotientInRange(s: int, t: int, q: int, r: int, w: nat)
    requires w > 0 && t != 0 && !(s + Pow2(w - 1) == 0 && t == -1)
    requires 0 <= s + Pow2(w - 1) < Pow2(w) && 0 <= t + Pow2(w - 1) < Pow2(w)
    requires q == TruncDiv(s, t) && r == s - q * t
    ensures 0 <= q + Pow2(w - 1) < Pow2(w)
    ensures Divides(s, t, q, r)
    ensures 0 <= r + Pow2(w - 1) < Pow2(w)
  {
    TruncDivMeaning(s, t);
    assert Pow2(w) == 2 * Pow2(w - 1);
    hide TruncDiv, Pow2;
  }

  // ---------------------------------------------------------- bits of expressions

  /** Bit `i` of an expression's value, for every operator that works on bits. */
  ghost predicate BitMeans(e: Expr, a: Assignment, i: nat)
    requires Wf(e)
  {
    var b := Bit(Eval(e, a), i);
    match e
    case Select(c, t, f) => b == if Eval(c, a) == 1 then Bit(Eval(t, a), i) else Bit(Eval(f, a), i)
    case Concat(l, r) => b == if i < Width(r) then Bit(Eval(r, a), i) else Bit(Eval(l, a), i - Width(r))
    case Extract(s, off, _) => b == Bit(Eval(s, a), off + i)
    case ZExt(s, _) => b == (i < Width(s) && Bit(Eval(s, a), i))
    case SExt(s, _) => b == Bit(Eval(s, a), if i < Width(s) then i else Width(s) - 1)
    case Not(s) => b == !Bit(Eval(s, a), i)
    case Binary(k, l, r) => BinaryBit(k, Eval(l, a), Eval(r, a), Width(l), b, i)
    case _ => true
  }

  predicate BinaryBit(k: Kind, x: nat, y: nat, w: nat, b: bool, i: nat)
    requires w > 0
  {
    match k
    case And => b == (Bit(x, i) && Bit(y, i))
    case Or => b == (Bit(x, i) || Bit(y, i))
    case Xor => b == (Bit(x, i) != Bit(y, i))
    case Shl => b == (y <= i && Bit(x, i - y))
    case LShr => b == (y + i < w && Bit(x, y + i))
    case AShr => b == Bit(x, if y + i < w then y + i else w - 1)
    case _ => true
  }

  lemma {:induction false} ShiftBits(x: nat, y: nat, w: nat, i: nat)
    requires i < w && x < Pow2(w)
    ensures BinaryBit(Shl, x, y, w, Bit(ShlBits(x, y, w), i), i)
    ensures BinaryBit(LShr, x, y, w, Bit(LShrBits(x, y, w), i), i)
    ensures BinaryBit(AShr, x, y, w, Bit(AShrBits(x, y, w), i), i)
  {
    var s := Signed(x, w);
    DivModSmall(0, Pow2(i));
    BitOfProduct(x, y, i);
    BitOfWrap(x * Pow2(y), w, i);
    BitOfQuotient(x, y, i);
    if y + i >= w { BitBeyond(x, w, y + i); }
    BitOfQuotient(s, y, i);
    BitOfWrap(s / Pow2(y), w, i);
    BitOfSigned(x, w, y + i);
    BitOfComplement(0, i);
    BitOfWrap(-1, w, i);
    DivModUnique(-1, Pow2(w), -1, Pow2(w) - 1);
    TopBit(x, w);
    hide Bit, Pow2, Wrap;
  }

  /** What each bit of an expression is, under every assignment. */
  lemma {:induction false} BitMeaning(e: Expr, a: Assignment, i: nat)
    requires Wf(e) && i < Width(e)
    ensures BitMeans(e, a, i)
  {
    hide Bit, Pow2, Wrap, BitAnd, BitOr, BitXor, ShlBits, LShrBits, AShrBits, Signed;
    match e
    case Concat(l, r) => BitOfJoined(Eval(l, a), Eval(r, a), Width(r), i);
    case Extract(s, off, w) => BitOfExtract(Eval(s, a), off, w, i);
    case ZExt(s, _) => if i >= Width(s) { BitBeyond(Eval(s, a), Width(s), i); }
    case SExt(s, w) => SignExtendBits(Eval(s, a), Width(s), w, i);
    case Not(s) =>
      BitOfComplement(Eval(s, a), i);
      BitOfWrap(-1 - Eval(s, a), Width(s), i);
    case Binary(k, l, r) =>
      if !IsCompare(k) {
        BitOfBitwise(Eval(l, a), Eval(r, a), Width(l), i);
        ShiftBits(Eval(l, a), Eval(r, a), Width(l), i);
      }
    case _ =>
  }

  lemma {:induction false} BitOfJoined(hi: nat, lo: nat, wl: nat, i: nat)
    requires lo < Pow2(wl)
    ensures Bit(ConcatBits(hi, lo, wl), i) == if i < wl then Bit(lo, i) else Bit(hi, i - wl)
  {
    if i < wl {
      BitBelow(lo, hi, wl, i);
    } else {
      BitOfQuotient(ConcatBits(hi, lo, wl), wl, i - wl);
      DivModUnique(ConcatBits(hi, lo, wl), Pow2(wl), hi, lo);
    }
  }

  lemma {:induction false} BitOfExtract(x: nat, off: nat, w: nat, i: nat)
    requires i < w
    ensures Bit(ExtractBits(x, off, w), i) == Bit(x, off + i)
  {
    BitOfWrap(x / Pow2(off), w, i);
    BitOfQuotient(x, off, i);
  }

  /** Two numbers with the same bits below a width both fit are equal, so the bits say it all. */
  lemma {:induction false} BitsDetermine(x: nat, y: nat, w: nat)
    requires x < Pow2(w) && y < Pow2(w) && forall i :: 0 <= i < w ==> Bit(x, i) == Bit(y, i)
    ensures x == y
  {
    if w == 0 {
    } else {
      forall i | 0 <= i < w - 1 ensures Bit(x / 2, i) == Bit(y / 2, i) {
        BitOfHalf(x, i);
        BitOfHalf(y, i);
        assert Bit(x, i + 1) == Bit(y, i + 1);
      }
      BitsDetermine(x / 2, y / 2, w - 1);
      BitOfHalf(x, 0);
      BitOfHalf(y, 0);
      assert Bit(x, 0) == Bit(y, 0);
    }
  }

  // ---------------------------------------------------- arithmetic of expressions

  /** The signed order of two values is the unsigned order of the values with their top bits
      flipped. */
  function Flip(x: nat, w: nat): (r: int)
    requires w > 0
  {
    if Bit(x, w - 1) then x - Pow2(w - 1) else x + Pow2(w - 1)
  }

  /** The value `v` of an arithmetic operator or a comparison. */
  ghost predicate Computes(k: Kind, x: nat, y: nat, w: nat, v: nat)
    requires w > 0
  {
    match k
    case Add => v == if x + y < Pow2(w) then x + y else x + y - Pow2(w)
    case Sub => v == if x >= y then x - y else x - y + Pow2(w)
    case Mul => v < Pow2(w) && exists c :: x * y == c * Pow2(w) + v
    case UDiv => y != 0 ==> v * y <= x < v * y + y
    case URem => y != 0 ==> v < y && exists q :: x == q * y + v
    case SDiv => y != 0 ==> if Signed(x, w) + Pow2(w - 1) == 0 && Signed(y, w) == -1 then v == x
      else exists r :: Divides(Signed(x, w), Signed(y, w), Signed(v, w), r)
    case SRem => y != 0 ==> if Signed(x, w) + Pow2(w - 1) == 0 && Signed(y, w) == -1 then v == 0
      else exists q :: Divides(Signed(x, w), Signed(y, w), q, Signed(v, w))
    case Eq => v == B2N(x == y)
    case Ne => v == B2N(x != y)
    case Ult => v == B2N(x < y)
    case Ule => v == B2N(x <= y)
    case Ugt => v == B2N(y < x)
    case Uge => v == B2N(y <= x)
    case Slt => v == B2N(Flip(x, w) < Flip(y, w))
    case Sle => v == B2N(Flip(x, w) <= Flip(y, w))
    case Sgt => v == B2N(Flip(y, w) < Flip(x, w))
    case Sge => v == B2N(Flip(y, w) <= Flip(x, w))
    case _ => true
  }

  lemma {:induction false} FlipMeans(x: nat, w: nat)
    requires w > 0 && x < Pow2(w)
    ensures Flip(x, w) == Signed(x, w) + Pow2(w - 1)
  {
    TopBit(x, w);
  }

  lemma {:induction false} SumComputes(x: nat, y: nat, w: nat)
    requires w > 0 && x < Pow2(w) && y < Pow2(w)
    ensures Computes(Add, x, y, w, Wrap(x + y, w)) && Computes(Sub, x, y, w, Wrap(x - y, w))
    ensures Computes(Mul, x, y, w, Wrap(x * y, w))
  {
    var m := Pow2(w);
    DivModDef(x * y, m);
    if x + y < m { DivModSmall(x + y, m); } else { DivModUnique(x + y, m, 1, x + y - m); }
    if x >= y { DivModSmall(x - y, m); } else { DivModUnique(x - y, m, -1, x - y + m); }
    assert x * y == (x * y) / m * m + Wrap(x * y, w);
  }

  lemma {:induction false} QuotientComputes(x: nat, y: nat, w: nat)
    requires w > 0 && x < Pow2(w) && y < Pow2(w)
    ensures Computes(UDiv, x, y, w, UDivBits(x, y)) && Computes(URem, x, y, w, URemBits(x, y))
    ensures Computes(SDiv, x, y, w, SDivBits(x, y, w)) && Computes(SRem, x, y, w, SRemBits(x, y, w))
  {
    if y > 0 {
      DivModDef(x, y);
      assert x == x / y * y + URemBits(x, y);
      SignedDivision(x, y, w);
      hide Signed, SDivBits, SRemBits, Divides, Pow2;
    }
  }

  lemma {:induction false} CompareComputes(k: Kind, x: nat, y: nat, w: nat)
    requires w > 0 && x < Pow2(w) && y < Pow2(w) && IsCompare(k)
    ensures Computes(k, x, y, w, Apply(k, x, y, w))
  {
    FlipMeans(x, w);
    FlipMeans(y, w);
    hide Flip, Signed, Pow2;
  }

  lemma {:induction false} OperatorComputes(k: Kind, x: nat, y: nat, w: nat)
    requires w > 0 && x < Pow2(w) && y < Pow2(w) && !IsCompare(k)
    ensures Computes(k, x, y, w, Apply(k, x, y, w))
  {
    SumComputes(x, y, w);
    QuotientComputes(x, y, w);
    OnlyBits(k, x, y, w, Apply(k, x, y, w));
    hide Computes;
  }

  lemma {:induction false} OnlyBits(k: Kind, x: nat, y: nat, w: nat, v: nat)
    requires w > 0
    ensures k.And? || k.Or? || k.Xor? || k.Shl? || k.LShr? || k.AShr? ==> Computes(k, x, y, w, v)
  { }

  /** What every arithmetic operator and comparison computes, under every assignment. */
  lemma {:induction false} ArithmeticMeaning(k: Kind, l: Expr, r: Expr, a: Assignment)
    requires Wf(Binary(k, l, r))
    ensures Computes(k, Eval(l, a), Eval(r, a), Width(l), Eval(Binary(k, l, r), a))
  {
    hide Computes, Apply, Pow2;
    if IsCompare(k) {
      CompareComputes(k, Eval(l, a), Eval(r, a), Width(l));
    } else {
      OperatorComputes(k, Eval(l, a), Eval(r, a), Width(l));
    }
  }
}
