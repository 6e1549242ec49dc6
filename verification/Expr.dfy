/** Symbolic expressions, their well-formedness, and their value under an
    assignment of bytes to array cells. */
module Exprs {
  import opened Bits

  type Byte = x: nat | x < 256

  /** An array.  `constantValues` is empty for a symbolic array, and otherwise
      holds one byte per index. */
  datatype Array = Array(name: string, size: nat, constantValues: seq<Byte>)

  predicate IsConstantArray(root: Array) {
    root.constantValues != []
  }

  predicate WfArray(root: Array) {
    IsConstantArray(root) ==> |root.constantValues| == root.size
  }

  const DOMAIN: nat := 32
  const RANGE: nat := 8

  datatype Kind =
    | Add | Sub | Mul | UDiv | SDiv | URem | SRem
    | And | Or | Xor | Shl | LShr | AShr
    | Eq | Ne | Ult | Ule | Ugt | Uge | Slt | Sle | Sgt | Sge

  predicate IsCompare(kind: Kind) {
    match kind
    case Eq | Ne | Ult | Ule | Ugt | Uge | Slt | Sle | Sgt | Sge => true
    case _ => false
  }

  datatype Expr =
    | Constant(value: nat, width: nat)
    | NotOptimized(src: Expr)
    | Read(root: Array, updates: Updates, index: Expr)
    | Select(cond: Expr, thn: Expr, els: Expr)
    | Concat(left: Expr, right: Expr)
    | Extract(src: Expr, offset: nat, width: nat)
    | ZExt(src: Expr, width: nat)
    | SExt(src: Expr, width: nat)
    | Not(src: Expr)
    | Binary(kind: Kind, left: Expr, right: Expr)

  /** A chain of array writes, the most recent one first. */
  datatype Updates = Done | Update(index: Expr, value: Expr, next: Updates)

  function Bool(b: bool): (e: Expr) {
    Constant(if b then 1 else 0, 1)
  }

  function Width(e: Expr): (w: nat) {
    match e
    case Constant(_, w) => w
    case NotOptimized(s) => Width(s)
    case Read(_, _, _) => RANGE
    case Select(_, t, _) => Width(t)
    case Concat(l, r) => Width(l) + Width(r)
    case Extract(_, _, w) => w
    case ZExt(_, w) => w
    case SExt(_, w) => w
    case Not(s) => Width(s)
    case Binary(k, l, _) => if IsCompare(k) then 1 else Width(l)
  }

  predicate Wf(e: Expr)
    ensures Wf(e) ==> Width(e) > 0
  {
    match e
    case Constant(v, w) => w > 0 && v < Pow2(w)
    case NotOptimized(s) => Wf(s)
    case Read(root, us, i) => WfArray(root) && WfUpdates(us) && Wf(i) && Width(i) == DOMAIN
    case Select(c, t, f) => Wf(c) && Wf(t) && Wf(f) && Width(c) == 1 && Width(t) == Width(f)
    case Concat(l, r) => Wf(l) && Wf(r)
    case Extract(s, off, w) => Wf(s) && 0 < w < Width(s) && off + w <= Width(s)
    case ZExt(s, w) => Wf(s) && Width(s) < w
    case SExt(s, w) => Wf(s) && Width(s) < w
    case Not(s) => Wf(s)
    case Binary(_, l, r) => Wf(l) && Wf(r) && Width(l) == Width(r)
  }

  predicate WfUpdates(us: Updates) {
    match us
    case Done => true
    case Update(i, v, next) =>
      Wf(i) && Width(i) == DOMAIN && Wf(v) && Width(v) == RANGE && WfUpdates(next)
  }

  // ---------------------------------------------------------------- semantics

  /** An assignment fixes every cell of every symbolic array. */
  type Assignment = (Array, nat) -> Byte

  function TruncDiv(x: int, y: int): (q: int)
    requires y != 0
  {
    if x >= 0 then x / y else -((-x) / y)
  }

  function B2N(b: bool): (n: nat) { if b then 1 else 0 }

  function UDivBits(x: nat, y: nat): (r: nat)
    ensures r <= x
  {
    if y == 0 then x else UDivBound(x, y); x / y
  }

  function URemBits(x: nat, y: nat): (r: nat)
    ensures y != 0 ==> r < y
    ensures y == 0 ==> r == 0
  {
    if y == 0 then 0 else x % y
  }

  function SDivBits(x: nat, y: nat, w: nat): (r: nat)
    ensures x < Pow2(w) ==> r < Pow2(w)
  {
    if Signed(y, w) == 0 then x else Wrap(TruncDiv(Signed(x, w), Signed(y, w)), w)
  }

  function SRemBits(x: nat, y: nat, w: nat): (r: nat)
    ensures r < Pow2(w)
  {
    if Signed(y, w) == 0 then 0
    else Wrap(Signed(x, w) - Signed(y, w) * TruncDiv(Signed(x, w), Signed(y, w)), w)
  }

  function ShlBits(x: nat, y: nat, w: nat): (r: nat)
    ensures r < Pow2(w)
  {
    if y >= w then 0 else Wrap(x * Pow2(y), w)
  }

  function LShrBits(x: nat, y: nat, w: nat): (r: nat)
    ensures r <= x
  {
    if y >= w then 0 else UDivBits(x, Pow2(y))
  }

  function AShrBits(x: nat, y: nat, w: nat): (r: nat)
    ensures r < Pow2(w)
  {
    if y < w then Wrap(Signed(x, w) / Pow2(y), w)
    else if Signed(x, w) >= 0 then 0 else Pow2(w) - 1
  }

  /** The value of a binary operator on two `w`-bit values.  Division by zero is
      never reached by the interpreter; the values chosen here for it are the ones
      the one-bit special cases of the constructors produce. */
  function Apply(k: Kind, x: nat, y: nat, w: nat): (r: nat)
    ensures x < Pow2(w) && y < Pow2(w) && w > 0 ==> r < Pow2(if IsCompare(k) then 1 else w)
  {
    match k
    case Add => Wrap(x + y, w)
    case Sub => Wrap(x - y, w)
    case Mul => Wrap(x * y, w)
    case UDiv => UDivBits(x, y)
    case URem => URemBits(x, y)
    case SDiv => SDivBits(x, y, w)
    case SRem => SRemBits(x, y, w)
    case And => BitAnd(x, y, w)
    case Or => BitOr(x, y, w)
    case Xor => BitXor(x, y, w)
    case Shl => ShlBits(x, y, w)
    case LShr => LShrBits(x, y, w)
    case AShr => AShrBits(x, y, w)
    case Eq => B2N(x == y)
    case Ne => B2N(x != y)
    case Ult => B2N(x < y)
    case Ule => B2N(x <= y)
    case Ugt => B2N(x > y)
    case Uge => B2N(x >= y)
    case Slt => B2N(Signed(x, w) < Signed(y, w))
    case Sle => B2N(Signed(x, w) <= Signed(y, w))
    case Sgt => B2N(Signed(x, w) > Signed(y, w))
    case Sge => B2N(Signed(x, w) >= Signed(y, w))
  }

  lemma {:induction false} UDivBound(x: nat, y: nat)
    requires y > 0
    ensures x / y <= x
  {
    var q := x / y;
    assert x == q * y + x % y;
    MulAtLeast(y, q);
  }

  function RootByte(root: Array, i: nat, a: Assignment): (b: nat)
    ensures b < 256
  {
    if i < |root.constantValues| then root.constantValues[i] else a(root, i)
  }

  lemma {:induction false} RangePow2()
    ensures Pow2(RANGE) == 256
  {
    PowersOfTwo();
  }

  lemma {:induction false} JoinedRange(x: nat, y: nat, wl: nat, wr: nat)
    ensures x < Pow2(wl) && y < Pow2(wr) ==> ConcatBits(x, y, wr) < Pow2(wl + wr)
  {
    if x < Pow2(wl) && y < Pow2(wr) { ConcatRange(x, y, wl, wr); }
  }

  lemma {:induction false} WiderRange(from: nat, to: nat)
    ensures from <= to ==> Pow2(from) <= Pow2(to)
  {
    if from <= to { Pow2Monotonic(from, to); }
  }

  function Eval(e: Expr, a: Assignment): (v: nat)
    ensures Wf(e) ==> v < Pow2(Width(e))
    decreases e
  {
    match e
    case Constant(v, w) => v
    case NotOptimized(s) => Eval(s, a)
    case Read(root, us, i) => RangePow2(); EvalRead(root, us, Eval(i, a), a)
    case Select(c, t, f) => if Eval(c, a) == 1 then Eval(t, a) else Eval(f, a)
    case Concat(l, r) =>
      var x, y := Eval(l, a), Eval(r, a);
      JoinedRange(x, y, Width(l), Width(r));
      ConcatBits(x, y, Width(r))
    case Extract(s, off, w) => ExtractBits(Eval(s, a), off, w)
    case ZExt(s, w) =>
      WiderRange(Width(s), w);
      Eval(s, a)
    case SExt(s, w) => SignExtend(Eval(s, a), Width(s), w)
    case Not(s) => Wrap(-1 - Eval(s, a), Width(s))
    case Binary(k, l, r) => Apply(k, Eval(l, a), Eval(r, a), Width(l))
  }

  /** The byte an array with pending writes holds at index `i`. */
  function EvalRead(root: Array, us: Updates, i: nat, a: Assignment): (v: nat)
    ensures WfUpdates(us) ==> v < Pow2(RANGE)
    decreases us
  {
    match us
    case Done => RangePow2(); RootByte(root, i, a)
    case Update(j, v, next) =>
      if Eval(j, a) == i then Eval(v, a) else EvalRead(root, next, i, a)
  }

  /** A one-bit expression holds under an assignment. */
  predicate Holds(e: Expr, a: Assignment) {
    Eval(e, a) == 1
  }

  // ------------------------------------------------------------------- weight

  function KindWeight(k: Kind): (n: nat)
    ensures n >= 1
  {
    match k
    case Or => 4
    case Shl => 3
    case LShr => 3
    case Ne => 3
    case Ult => 3
    case Ugt => 3
    case Slt => 3
    case Sgt => 3
    case Ule => 6
    case Uge => 6
    case Sle => 6
    case Sge => 6
    case _ => 1
  }

  /** An extract that keeps the top or the bottom bit is one lighter than one from
      the middle, so that pushing an extract through a concatenation adds nothing. */
  function ExtractWeight(off: nat, w: nat, from: nat): (n: nat) {
    B2N(off > 0) + B2N(off + w < from)
  }

  /** The measure on which rewriting terminates: a smart constructor never weighs
      more than the plain node on the same operands. */
  function Weight(e: Expr): (n: nat)
    ensures n >= 1
    ensures Wf(e) && !e.Constant? ==> n >= 2
  {
    match e
    case Constant(_, _) => 1
    case NotOptimized(s) => Weight(s) + 1
    case Read(_, us, i) => Weight(i) + UpdatesWeight(us) + 1
    case Select(c, t, f) => Weight(c) + Weight(t) + Weight(f) + 5
    case Concat(l, r) => Weight(l) + Weight(r) + 1
    case Extract(s, off, w) => Weight(s) + ExtractWeight(off, w, Width(s))
    case ZExt(s, _) => Weight(s) + 1
    case SExt(s, _) => Weight(s) + 1
    case Not(s) => Weight(s) + 1
    case Binary(k, l, r) => Weight(l) + Weight(r) + KindWeight(k)
  }

  function UpdatesWeight(us: Updates): (n: nat) {
    match us
    case Done => 0
    case Update(i, v, next) => Weight(i) + Weight(v) + UpdatesWeight(next)
  }
}
