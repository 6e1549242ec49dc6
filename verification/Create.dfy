/** The smart constructors: every `create` function of the expression library,
    with its special cases.  Each one promises the width of its result and that
    the result is no heavier than the plain node; that it has the value of the
    plain operator is proved in module `CreateMeaning`. */
module Create {
  import opened Bits
  import opened Exprs

  predicate SameWidth(l: Expr, r: Expr) {
    Wf(l) && Wf(r) && Width(l) == Width(r)
  }

  /** A well-formed expression of width `w` and weight at most `n`. */
  predicate Fits(e: Expr, w: nat, n: nat) {
    Wf(e) && Width(e) == w && Weight(e) <= n
  }

  function ResultWidth(k: Kind, l: Expr): (w: nat) {
    if IsCompare(k) then 1 else Width(l)
  }

  function PlainWeight(k: Kind, l: Expr, r: Expr): (n: nat) {
    Weight(l) + Weight(r) + KindWeight(k)
  }

  function Zero(w: nat): (e: Expr) { Constant(0, w) }

  predicate IsAllOnes(e: Expr) requires e.Constant? { e.value == Pow2(e.width) - 1 }

  /** Operations on constants compute the operator itself. */
  function Fold(k: Kind, l: Expr, r: Expr): (e: Expr)
    requires SameWidth(l, r) && l.Constant? && r.Constant?
    ensures e.Constant? && Fits(e, ResultWidth(k, l), 1)
  {
    Constant(Apply(k, l.value, r.value, l.width), ResultWidth(k, l))
  }

  // --------------------------------------------------------------- and and or

  function AndPartial(l: Expr, cr: Expr): (e: Expr)
    requires SameWidth(l, cr) && cr.Constant?
    ensures Fits(e, Width(l), PlainWeight(And, l, cr))
  {
    if IsAllOnes(cr) then l
    else if cr.value == 0 then cr
    else Binary(And, l, cr)
  }

  function AndCreate(l: Expr, r: Expr): (e: Expr)
    requires SameWidth(l, r)
    ensures Fits(e, Width(l), PlainWeight(And, l, r))
  {
    if l.Constant? && r.Constant? then Fold(And, l, r)
    else if l.Constant? then AndPartial(r, l)
    else if r.Constant? then AndPartial(l, r)
    else Binary(And, l, r)
  }

  function OrPartial(l: Expr, cr: Expr): (e: Expr)
    requires SameWidth(l, cr) && cr.Constant?
    ensures Fits(e, Width(l), PlainWeight(Or, l, cr))
  {
    if IsAllOnes(cr) then cr
    else if cr.value == 0 then l
    else Binary(Or, l, cr)
  }

  function OrCreate(l: Expr, r: Expr): (e: Expr)
    requires SameWidth(l, r)
    ensures Fits(e, Width(l), PlainWeight(Or, l, r))
  {
    if l.Constant? && r.Constant? then Fold(Or, l, r)
    else if l.Constant? then OrPartial(r, l)
    else if r.Constant? then OrPartial(l, r)
    else Binary(Or, l, r)
  }

  // ----------------------------------------------------------------- equality

  function EqPlain(l: Expr, r: Expr): (e: Expr)
    requires SameWidth(l, r)
    ensures Fits(e, 1, PlainWeight(Eq, l, r))
  {
    if l == r then Bool(true) else Binary(Eq, l, r)
  }

  /** A constant cut down to, and extended from, a narrower width. */
  function Truncate(c: Expr, w: nat): (e: Expr)
    requires Wf(c) && c.Constant? && 0 < w
    ensures e.Constant? && Fits(e, w, 1)
  {
    Constant(Wrap(c.value, w), w)
  }

  /** Equality of a constant and an expression that is not a constant. */
  function EqPartialR(cl: Expr, r: Expr): (e: Expr)
    requires SameWidth(cl, r) && cl.Constant?
    ensures Fits(e, 1, PlainWeight(Eq, cl, r))
    decreases Weight(r) + 1, 0
  {
    hide Apply;
    if cl.width == 1 then
      if cl.value == 1 then r
      else if r.Binary? && r.kind == Eq then
        if r.left == Bool(false) then r.right else EqPlain(cl, r)
      else if r.Binary? && r.kind == Or then
        AndCreate(IsZero(r.left), IsZero(r.right))
      else EqPlain(cl, r)
    else if r.SExt? then
      var cut := Truncate(cl, Width(r.src));
      if cl.value == SignExtend(cut.value, cut.width, cl.width) then EqCreate(r.src, cut) else Bool(false)
    else if r.ZExt? then
      var cut := Truncate(cl, Width(r.src));
      if cl.value == cut.value then EqCreate(r.src, cut) else Bool(false)
    else if r.Binary? && r.kind == Add && r.left.Constant? then
      EqPartialR(Fold(Sub, cl, r.left), r.right)
    else if r.Binary? && r.kind == Sub && r.left.Constant? then
      EqPartialR(Fold(Sub, r.left, cl), r.right)
    else EqPlain(cl, r)
  }

  function EqCreate(l: Expr, r: Expr): (e: Expr)
    requires SameWidth(l, r)
    ensures Fits(e, 1, PlainWeight(Eq, l, r))
    decreases Weight(l) + Weight(r), 1
  {
    if l.Constant? && r.Constant? then Fold(Eq, l, r)
    else if l.Constant? then EqPartialR(l, r)
    else if r.Constant? then EqPartialR(r, l)
    else EqPlain(l, r)
  }

  function IsZero(x: Expr): (e: Expr)
    requires Wf(x)
    ensures Fits(e, 1, Weight(x) + 2)
    decreases Weight(x) + 1, 2
  {
    EqCreate(x, Zero(Width(x)))
  }

  // ---------------------------------------------------------------------- xor

  function XorPartialR(cl: Expr, r: Expr): (e: Expr)
    requires SameWidth(cl, r) && cl.Constant?
    ensures Fits(e, Width(r), PlainWeight(Xor, cl, r))
  {
    if cl.value == 0 then r
    else if cl.width == 1 then EqPartialR(Bool(false), r)
    else Binary(Xor, cl, r)
  }

  function XorCreate(l: Expr, r: Expr): (e: Expr)
    requires SameWidth(l, r)
    ensures Fits(e, Width(l), PlainWeight(Xor, l, r))
  {
    if l.Constant? && r.Constant? then Fold(Xor, l, r)
    else if l.Constant? then XorPartialR(l, r)
    else if r.Constant? then XorPartialR(r, l)
    else Binary(Xor, l, r)
  }

  // ----------------------------------------------- addition and subtraction

  /** An addition or subtraction whose left operand is a constant. */
  predicate IsConstantLeft(k: Kind, e: Expr) {
    e.Binary? && e.kind == k && e.left.Constant?
  }

  function AddPartialR(cl: Expr, r: Expr): (e: Expr)
    requires SameWidth(cl, r) && cl.Constant?
    ensures Fits(e, Width(r), PlainWeight(Add, cl, r))
    decreases Weight(cl) + Weight(r), 0
  {
    if cl.width == 1 then XorPartialR(cl, r)
    else if cl.value == 0 then r
    else if IsConstantLeft(Add, r) then AddCreate(AddCreate(cl, r.left), r.right)
    else if IsConstantLeft(Sub, r) then SubCreate(AddCreate(cl, r.left), r.right)
    else Binary(Add, cl, r)
  }

  function AddPlain(l: Expr, r: Expr): (e: Expr)
    requires SameWidth(l, r) && !l.Constant? && !r.Constant?
    ensures Fits(e, Width(l), PlainWeight(Add, l, r))
    decreases Weight(l) + Weight(r), 2
  {
    if Width(l) == 1 then Binary(Xor, l, r)
    else if IsConstantLeft(Add, l) then AddCreate(l.left, AddCreate(l.right, r))
    else if IsConstantLeft(Sub, l) then AddCreate(l.left, SubCreate(r, l.right))
    else if IsConstantLeft(Add, r) then AddCreate(r.left, AddCreate(l, r.right))
    else if IsConstantLeft(Sub, r) then AddCreate(r.left, SubCreate(l, r.right))
    else Binary(Add, l, r)
  }

  function AddCreate(l: Expr, r: Expr): (e: Expr)
    requires SameWidth(l, r)
    ensures Fits(e, Width(l), PlainWeight(Add, l, r))
    ensures l.Constant? && r.Constant? ==> e == Fold(Add, l, r)
    decreases Weight(l) + Weight(r), if l.Constant? || r.Constant? then 1 else 3
  {
    if l.Constant? && r.Constant? then Fold(Add, l, r)
    else if l.Constant? then AddPartialR(l, r)
    else if r.Constant? then AddPartialR(r, l)
    else AddPlain(l, r)
  }

  function SubPartialR(cl: Expr, r: Expr): (e: Expr)
    requires SameWidth(cl, r) && cl.Constant?
    ensures Fits(e, Width(r), PlainWeight(Sub, cl, r))
    decreases Weight(cl) + Weight(r), 0
  {
    if cl.width == 1 then XorPartialR(cl, r)
    else if IsConstantLeft(Add, r) then SubCreate(SubCreate(cl, r.left), r.right)
    else if IsConstantLeft(Sub, r) then AddCreate(SubCreate(cl, r.left), r.right)
    else Binary(Sub, cl, r)
  }

  function SubPlain(l: Expr, r: Expr): (e: Expr)
    requires SameWidth(l, r) && !l.Constant? && !r.Constant?
    ensures Fits(e, Width(l), PlainWeight(Sub, l, r))
    decreases Weight(l) + Weight(r), 2
  {
    if Width(l) == 1 then Binary(Xor, l, r)
    else if l == r then Zero(Width(l))
    else if IsConstantLeft(Add, l) then AddCreate(l.left, SubCreate(l.right, r))
    else if IsConstantLeft(Sub, l) then SubCreate(l.left, AddCreate(l.right, r))
    else if IsConstantLeft(Add, r) then SubCreate(SubCreate(l, r.right), r.left)
    else if IsConstantLeft(Sub, r) then SubCreate(AddCreate(l, r.right), r.left)
    else Binary(Sub, l, r)
  }

  function SubCreate(l: Expr, r: Expr): (e: Expr)
    requires SameWidth(l, r)
    ensures Fits(e, Width(l), PlainWeight(Sub, l, r))
    ensures l.Constant? && r.Constant? ==> e == Fold(Sub, l, r)
    decreases Weight(l) + Weight(r), if l.Constant? || r.Constant? then 1 else 3
  {
    if l.Constant? && r.Constant? then Fold(Sub, l, r)
    else if l.Constant? then SubPartialR(l, r)
    else if r.Constant? then AddPartialR(Fold(Sub, Zero(r.width), r), l)
    else SubPlain(l, r)
  }

  // -------------------------------------------------------- other arithmetic

  function MulPartialR(cl: Expr, r: Expr): (e: Expr)
    requires SameWidth(cl, r) && cl.Constant?
    ensures Fits(e, Width(r), PlainWeight(Mul, cl, r))
  {
    if cl.width == 1 then AndPartial(r, cl)
    else if cl.value == 1 then r
    else if cl.value == 0 then cl
    else Binary(Mul, cl, r)
  }

  function MulCreate(l: Expr, r: Expr): (e: Expr)
    requires SameWidth(l, r)
    ensures Fits(e, Width(l), PlainWeight(Mul, l, r))
  {
    if l.Constant? && r.Constant? then Fold(Mul, l, r)
    else if l.Constant? then MulPartialR(l, r)
    else if r.Constant? then MulPartialR(r, l)
    else if Width(l) == 1 then Binary(And, l, r)
    else Binary(Mul, l, r)
  }

  /** One-bit divisors must be one, so one-bit division returns its left operand. */
  function DivCreate(k: Kind, l: Expr, r: Expr): (e: Expr)
    requires SameWidth(l, r) && (k == UDiv || k == SDiv)
    ensures Fits(e, Width(l), PlainWeight(k, l, r))
  {
    hide Apply;
    if l.Constant? && r.Constant? then Fold(k, l, r)
    else if Width(l) == 1 then l
    else Binary(k, l, r)
  }

  lemma {:induction false} RemFits(k: Kind, l: Expr, r: Expr)
    requires SameWidth(l, r) && (k == URem || k == SRem)
    ensures Fits(Binary(k, l, r), Width(l), PlainWeight(k, l, r))
    ensures Width(l) == 1 ==> Fits(Bool(false), Width(l), PlainWeight(k, l, r))
    ensures l.Constant? && r.Constant? ==> Fits(Fold(k, l, r), Width(l), PlainWeight(k, l, r))
  {
    hide Apply;
  }

  function RemCreate(k: Kind, l: Expr, r: Expr): (e: Expr)
    requires SameWidth(l, r) && (k == URem || k == SRem)
    ensures Fits(e, Width(l), PlainWeight(k, l, r))
  {
    RemFits(k, l, r);
    hide Apply, Fold, Fits, Wf, Weight, Pow2, PlainWeight;
    if l.Constant? && r.Constant? then Fold(k, l, r)
    else if Width(l) == 1 then Bool(false)
    else Binary(k, l, r)
  }

  function ShiftCreate(k: Kind, l: Expr, r: Expr): (e: Expr)
    requires SameWidth(l, r) && (k == Shl || k == LShr)
    ensures Fits(e, Width(l), PlainWeight(k, l, r))
  {
    hide Apply;
    if l.Constant? && r.Constant? then Fold(k, l, r)
    else if Width(l) == 1 then AndCreate(l, IsZero(r))
    else Binary(k, l, r)
  }

  function AShrCreate(l: Expr, r: Expr): (e: Expr)
    requires SameWidth(l, r)
    ensures Fits(e, Width(l), PlainWeight(AShr, l, r))
  {
    hide Apply;
    if l.Constant? && r.Constant? then Fold(AShr, l, r)
    else if Width(l) == 1 then l
    else Binary(AShr, l, r)
  }

  // --------------------------------------------------------------- comparison

  function UltCreate(l: Expr, r: Expr): (e: Expr)
    requires SameWidth(l, r)
    ensures Fits(e, 1, PlainWeight(Ult, l, r))
  {
    if l.Constant? && r.Constant? then Fold(Ult, l, r)
    else if Width(l) == 1 then AndCreate(IsZero(l), r)
    else Binary(Ult, l, r)
  }

  function UleCreate(l: Expr, r: Expr): (e: Expr)
    requires SameWidth(l, r)
    ensures Fits(e, 1, PlainWeight(Ule, l, r))
  {
    if l.Constant? && r.Constant? then Fold(Ule, l, r)
    else if Width(l) == 1 then OrCreate(IsZero(l), r)
    else Binary(Ule, l, r)
  }

  function SltCreate(l: Expr, r: Expr): (e: Expr)
    requires SameWidth(l, r)
    ensures Fits(e, 1, PlainWeight(Slt, l, r))
  {
    if l.Constant? && r.Constant? then Fold(Slt, l, r)
    else if Width(l) == 1 then AndCreate(l, IsZero(r))
    else Binary(Slt, l, r)
  }

  function SleCreate(l: Expr, r: Expr): (e: Expr)
    requires SameWidth(l, r)
    ensures Fits(e, 1, PlainWeight(Sle, l, r))
  {
    if l.Constant? && r.Constant? then Fold(Sle, l, r)
    else if Width(l) == 1 then OrCreate(l, IsZero(r))
    else Binary(Sle, l, r)
  }

  function CompareCreate(k: Kind, l: Expr, r: Expr): (e: Expr)
    requires SameWidth(l, r) && IsCompare(k)
    ensures Fits(e, 1, PlainWeight(k, l, r))
  {
    if k == Eq then EqCreate(l, r)
    else if k == Ne then EqCreate(Bool(false), EqCreate(l, r))
    else if k == Ult then UltCreate(l, r)
    else if k == Ule then UleCreate(l, r)
    else if k == Ugt then UltCreate(r, l)
    else if k == Uge then UleCreate(r, l)
    else if k == Slt then SltCreate(l, r)
    else if k == Sle then SleCreate(l, r)
    else if k == Sgt then SltCreate(r, l)
    else SleCreate(r, l)
  }

  function BinaryCreate(k: Kind, l: Expr, r: Expr): (e: Expr)
    requires SameWidth(l, r)
    ensures Fits(e, ResultWidth(k, l), PlainWeight(k, l, r))
  {
    match k
    case Add => AddCreate(l, r)
    case Sub => SubCreate(l, r)
    case Mul => MulCreate(l, r)
    case And => AndCreate(l, r)
    case Or => OrCreate(l, r)
    case Xor => XorCreate(l, r)
    case UDiv | SDiv => DivCreate(k, l, r)
    case URem | SRem => RemCreate(k, l, r)
    case Shl | LShr => ShiftCreate(k, l, r)
    case AShr => AShrCreate(l, r)
    case _ => CompareCreate(k, l, r)
  }

  // ------------------------------------------------------- concat and extract

  /** Two extracts of neighbouring bits. */
  predicate Neighbours(l: Expr, r: Expr) {
    l.Extract? && r.Extract? && l.src == r.src && r.offset + r.width == l.offset
  }

  lemma {:induction false} NeighbourParts(l: Expr, r: Expr)
    requires Wf(l) && Wf(r) && Neighbours(l, r)
    ensures l.Extract? && r.Extract? && Wf(l.src) && Width(l) == l.width && Width(r) == r.width && 0 < l.width + r.width
    ensures r.offset + (l.width + r.width) <= Width(l.src) && Weight(l.src) <= Weight(l)
    ensures Weight(l.src) + ExtractWeight(r.offset, l.width + r.width, Width(l.src)) <= Weight(l) + Weight(r) + 1
  { }

  lemma {:induction false} ConcatFits(l: Expr, r: Expr)
    requires Wf(l) && Wf(r)
    ensures Fits(Concat(l, r), Width(l) + Width(r), Weight(l) + Weight(r) + 1)
  { }

  /** Constants are joined at once. */
  function ConcatFold(l: Expr, r: Expr): (e: Expr)
    requires Wf(l) && Wf(r) && l.Constant? && r.Constant?
    ensures e.Constant? && Fits(e, Width(l) + Width(r), Weight(l) + Weight(r) + 1)
  {
    ConcatRange(l.value, r.value, l.width, r.width);
    Constant(ConcatBits(l.value, r.value, r.width), l.width + r.width)
  }

  lemma {:induction false} FitsBelow(e: Expr, w: nat, n: nat, m: nat)
    requires Fits(e, w, n) && n <= m
    ensures Fits(e, w, m)
  {
    hide Wf, Width, Weight;
  }

  function ConcatCreate(l: Expr, r: Expr): (e: Expr)
    requires Wf(l) && Wf(r)
    ensures Fits(e, Width(l) + Width(r), Weight(l) + Weight(r) + 1)
    decreases Weight(l), 1
  {
    hide *;
    if l.Constant? && r.Constant? then ConcatFold(l, r)
    else if Neighbours(l, r) then
      NeighbourParts(l, r);
      var e := ExtractCreate(l.src, r.offset, l.width + r.width);
      FitsBelow(e, l.width + r.width, Weight(l.src) + ExtractWeight(r.offset, l.width + r.width, Width(l.src)), Weight(l) + Weight(r) + 1);
      e
    else
      ConcatFits(l, r);
      Concat(l, r)
  }

  function ExtractCreate(x: Expr, off: nat, w: nat): (e: Expr)
    requires Wf(x) && 0 < w && off + w <= Width(x)
    ensures Fits(e, w, Weight(x) + ExtractWeight(off, w, Width(x)))
    decreases Weight(x), 0
  {
    if w == Width(x) then x
    else if x.Constant? then Constant(ExtractBits(x.value, off, w), w)
    else if x.Concat? then
      var wr := Width(x.right);
      if off >= wr then ExtractCreate(x.left, off - wr, w)
      else if off + w <= wr then ExtractCreate(x.right, off, w)
      else ConcatCreate(ExtractCreate(x.left, 0, w - wr + off), ExtractCreate(x.right, off, wr - off))
    else Extract(x, off, w)
  }

  /** `createN`: a chain of concatenations leaning to the right. */
  function ConcatN(kids: seq<Expr>): (e: Expr)
    requires kids != [] && forall i :: 0 <= i < |kids| ==> Wf(kids[i])
    ensures Wf(e)
  {
    if |kids| == 1 then kids[0] else ConcatCreate(kids[0], ConcatN(kids[1..]))
  }

  // -------------------------------------------------------- casts and the rest

  function ZExtCreate(x: Expr, w: nat): (e: Expr)
    requires Wf(x) && 0 < w
    ensures Fits(e, w, Weight(x) + 1)
  {
    if w == Width(x) then x
    else if w < Width(x) then ExtractCreate(x, 0, w)
    else if x.Constant? then Pow2Monotonic(x.width, w); Constant(x.value, w)
    else ZExt(x, w)
  }

  function SExtCreate(x: Expr, w: nat): (e: Expr)
    requires Wf(x) && 0 < w
    ensures Fits(e, w, Weight(x) + 1)
  {
    if w == Width(x) then x
    else if w < Width(x) then ExtractCreate(x, 0, w)
    else if x.Constant? then Constant(SignExtend(x.value, x.width, w), w)
    else SExt(x, w)
  }

  function NotCreate(x: Expr): (e: Expr)
    requires Wf(x)
    ensures Fits(e, Width(x), Weight(x) + 1)
  {
    if x.Constant? then Constant(Wrap(-1 - x.value, x.width), x.width) else Not(x)
  }

  function SelectCreate(c: Expr, t: Expr, f: Expr): (e: Expr)
    requires Wf(c) && Width(c) == 1 && SameWidth(t, f)
    ensures Fits(e, Width(t), Weight(c) + Weight(t) + Weight(f) + 5)
  {
    if c.Constant? then (if c.value == 1 then t else f)
    else if t == f then t
    else if Width(t) == 1 && t.Constant? then
      if t.value == 1 then OrCreate(c, f) else AndCreate(IsZero(c), f)
    else if Width(t) == 1 && f.Constant? then
      if f.value == 1 then OrCreate(IsZero(c), t) else AndCreate(c, t)
    else Select(c, t, f)
  }

  /** What scanning the write chain for a given index finds, newest write first. */
  datatype Rollback = Found(value: Expr) | Symbolic(rest: Updates) | Exhausted

  function RollBack(us: Updates, index: Expr): (r: Rollback)
    requires WfUpdates(us) && Wf(index) && Width(index) == DOMAIN
    ensures r.Found? ==> Fits(r.value, RANGE, UpdatesWeight(us))
    ensures r.Symbolic? ==> WfUpdates(r.rest) && UpdatesWeight(r.rest) <= UpdatesWeight(us)
  {
    match us
    case Done => Exhausted
    case Update(i, v, next) =>
      var cond := EqCreate(index, i);
      if !cond.Constant? then Symbolic(us)
      else if cond.value == 1 then Found(v)
      else RollBack(next, index)
  }

  function ReadCreate(root: Array, us: Updates, index: Expr): (e: Expr)
    requires WfArray(root) && WfUpdates(us) && Wf(index) && Width(index) == DOMAIN
    ensures Fits(e, RANGE, Weight(index) + UpdatesWeight(us) + 1)
  {
    var scan := RollBack(us, index);
    if scan.Found? then scan.value
    else if scan.Exhausted? && IsConstantArray(root) && index.Constant? && index.value < root.size then
      RangePow2();
      Constant(root.constantValues[index.value], RANGE)
    else if index.Constant? && index.value < root.size then
      Read(root, if scan.Symbolic? then scan.rest else Done, index)
    else Read(root, us, index)
  }
}
