/** The canonical form of sums: a constant operand of an addition or subtraction
    stands on the left, and no constant-left addition or subtraction stands
    directly beneath another one.  The constructors keep it. */
module Canonical {
  import opened Bits
  import opened Exprs
  import opened Create

  predicate HasConstantLeft(e: Expr) {
    IsConstantLeft(Add, e) || IsConstantLeft(Sub, e)
  }

  /** An addition or subtraction of `l` and `r` is in canonical form at its root. */
  predicate SumOperands(l: Expr, r: Expr) {
    !r.Constant? && !HasConstantLeft(l) && !HasConstantLeft(r)
  }

  predicate Canon(e: Expr) {
    match e
    case Constant(_, _) => true
    case NotOptimized(s) => Canon(s)
    case Read(_, us, i) => CanonUpdates(us) && Canon(i)
    case Select(c, t, f) => Canon(c) && Canon(t) && Canon(f)
    case Concat(l, r) => Canon(l) && Canon(r)
    case Extract(s, _, _) => Canon(s)
    case ZExt(s, _) => Canon(s)
    case SExt(s, _) => Canon(s)
    case Not(s) => Canon(s)
    case Binary(k, l, r) => Canon(l) && Canon(r) && (k == Add || k == Sub ==> SumOperands(l, r))
  }

  predicate CanonUpdates(us: Updates) {
    match us
    case Done => true
    case Update(i, v, next) => Canon(i) && Canon(v) && CanonUpdates(next)
  }

  predicate CanonPair(l: Expr, r: Expr) {
    SameWidth(l, r) && Canon(l) && Canon(r)
  }

  // ------------------------------------------------------ unfolding facts

  /** The parts of a canonical constant-left sum. */
  lemma {:induction false} SumParts(k: Kind, e: Expr)
    requires Wf(e) && Canon(e) && IsConstantLeft(k, e) && (k == Add || k == Sub)
    ensures CanonPair(e.left, e.right) && Width(e.left) == Width(e) && e.left.width == Width(e)
    ensures !e.right.Constant? && !HasConstantLeft(e.right)
    ensures Weight(e) == Weight(e.right) + 2 && Weight(e.left) == 1
  {
    hide Pow2;
  }

  lemma {:induction false} PlainCanon(k: Kind, l: Expr, r: Expr)
    requires Canon(l) && Canon(r) && (k == Add || k == Sub ==> SumOperands(l, r))
    ensures Canon(Binary(k, l, r))
  {
  }

  lemma {:induction false} ConstantCanon(c: Expr)
    requires c.Constant?
    ensures Canon(c) && Width(c) == c.width && Weight(c) == 1
  {
  }

  lemma {:induction false} ZeroCanon(w: nat)
    requires w > 0
    ensures Wf(Zero(w)) && Canon(Zero(w)) && Width(Zero(w)) == w
  {
  }

  lemma {:induction false} BoolCanon(b: bool)
    ensures Wf(Bool(b)) && Canon(Bool(b)) && Width(Bool(b)) == 1
  {
    assert Pow2(1) == 2;
  }

  lemma {:induction false} WidthPositive(e: Expr)
    requires Wf(e)
    ensures Width(e) > 0
  {
  }

  lemma {:induction false} OperandsCanon(e: Expr)
    requires Wf(e) && Canon(e) && e.Binary?
    ensures CanonPair(e.left, e.right) && (!IsCompare(e.kind) ==> Width(e.left) == Width(e))
    ensures Weight(e.left) < Weight(e) && Weight(e.right) < Weight(e)
  {
    hide Pow2;
  }

  lemma {:induction false} SourceCanon(e: Expr)
    requires Wf(e) && Canon(e) && (e.SExt? || e.ZExt?)
    ensures Wf(e.src) && Canon(e.src) && 0 < Width(e.src) && Weight(e.src) < Weight(e)
  {
    hide Pow2;
  }

  // -------------------------------------------------- equality, xor, and, or

  lemma {:induction false} AndCanon(l: Expr, r: Expr)
    requires CanonPair(l, r)
    ensures Canon(AndCreate(l, r)) && Canon(OrCreate(l, r))
  {
    hide Apply, Pow2, Wf, Width, Weight, Canon;
    if l.Constant? { ConstantCanon(l); PlainCanon(And, r, l); PlainCanon(Or, r, l); }
    if r.Constant? { ConstantCanon(r); }
    if l.Constant? && r.Constant? { ConstantCanon(Fold(And, l, r)); ConstantCanon(Fold(Or, l, r)); }
    PlainCanon(And, l, r);
    PlainCanon(Or, l, r);
  }

  lemma {:induction false} EqPartialCanon(cl: Expr, r: Expr)
    requires CanonPair(cl, r) && cl.Constant?
    ensures Canon(EqPartialR(cl, r))
    decreases Weight(r) + 1, 0
  {
    hide Apply, Pow2, Wf, Width, Weight, Canon, AndCreate, SignExtend, Wrap, IsZero, EqCreate;
    ConstantCanon(cl);
    BoolCanon(true);
    BoolCanon(false);
    PlainCanon(Eq, cl, r);
    if r.Binary? { OperandsCanon(r); }
    if cl.width == 1 {
      if cl.value != 1 && r.Binary? && r.kind == Or {
        IsZeroCanon(r.left);
        IsZeroCanon(r.right);
        AndCanon(IsZero(r.left), IsZero(r.right));
      }
    } else if r.SExt? || r.ZExt? {
      SourceCanon(r);
      ConstantCanon(Truncate(cl, Width(r.src)));
      EqCanon(r.src, Truncate(cl, Width(r.src)));
    } else if IsConstantLeft(Add, r) {
      ConstantCanon(r.left);
      ConstantCanon(Fold(Sub, cl, r.left));
      EqPartialCanon(Fold(Sub, cl, r.left), r.right);
    } else if IsConstantLeft(Sub, r) {
      ConstantCanon(r.left);
      ConstantCanon(Fold(Sub, r.left, cl));
      EqPartialCanon(Fold(Sub, r.left, cl), r.right);
    }
  }

  lemma {:induction false} EqCanon(l: Expr, r: Expr)
    requires CanonPair(l, r)
    ensures Canon(EqCreate(l, r))
    decreases Weight(l) + Weight(r), 1
  {
    hide Apply, Pow2, Wf, Width, Weight, Canon, EqPartialR;
    if l.Constant? && r.Constant? {
      ConstantCanon(Fold(Eq, l, r));
    } else if l.Constant? {
      ConstantCanon(l);
      EqPartialCanon(l, r);
    } else if r.Constant? {
      ConstantCanon(r);
      EqPartialCanon(r, l);
    } else {
      PlainCanon(Eq, l, r);
      ConstantCanon(Bool(true));
    }
  }

  lemma {:induction false} IsZeroCanon(x: Expr)
    requires Wf(x) && Canon(x)
    ensures Canon(IsZero(x))
    decreases Weight(x) + 1, 2
  {
    hide EqCreate, Apply, Pow2, Wf, Width, Weight, Canon;
    WidthPositive(x);
    ZeroCanon(Width(x));
    ConstantCanon(Zero(Width(x)));
    EqCanon(x, Zero(Width(x)));
  }

  lemma {:induction false} XorPartialCanon(cl: Expr, r: Expr)
    requires CanonPair(cl, r) && cl.Constant?
    ensures Canon(XorPartialR(cl, r))
  {
    hide Apply, EqPartialR, Weight;
    if cl.value != 0 && cl.width == 1 {
      EqPartialCanon(Bool(false), r);
    }
  }

  // ------------------------------------------------ addition and subtraction

  lemma {:induction false} AddPartialCanon(cl: Expr, r: Expr)
    requires CanonPair(cl, r) && cl.Constant? && !r.Constant?
    ensures Canon(AddPartialR(cl, r))
    ensures cl.width != 1 ==> !AddPartialR(cl, r).Constant?
    decreases Weight(cl) + Weight(r), 0
  {
    hide Apply, Pow2, Wf, Width, Weight, Canon, XorPartialR, AddCreate, SubCreate;
    ConstantCanon(cl);
    if cl.width == 1 {
      XorPartialCanon(cl, r);
    } else if cl.value == 0 {
    } else if IsConstantLeft(Add, r) {
      SumParts(Add, r);
      ConstantCanon(AddCreate(cl, r.left));
      AddCanon(AddCreate(cl, r.left), r.right);
    } else if IsConstantLeft(Sub, r) {
      SumParts(Sub, r);
      ConstantCanon(AddCreate(cl, r.left));
      SubCanon(AddCreate(cl, r.left), r.right);
    } else {
      PlainCanon(Add, cl, r);
    }
  }

  lemma {:induction false} AddPlainCanon(l: Expr, r: Expr)
    requires CanonPair(l, r) && !l.Constant? && !r.Constant?
    ensures Canon(AddPlain(l, r))
    decreases Weight(l) + Weight(r), 2
  {
    hide Apply, Pow2, Wf, Width, Weight, Canon, AddCreate, SubCreate;
    if Width(l) == 1 {
      PlainCanon(Xor, l, r);
    } else if IsConstantLeft(Add, l) {
      SumParts(Add, l);
      AddCanon(l.right, r);
      AddCanon(l.left, AddCreate(l.right, r));
    } else if IsConstantLeft(Sub, l) {
      SumParts(Sub, l);
      SubCanon(r, l.right);
      AddCanon(l.left, SubCreate(r, l.right));
    } else if IsConstantLeft(Add, r) {
      SumParts(Add, r);
      AddCanon(l, r.right);
      AddCanon(r.left, AddCreate(l, r.right));
    } else if IsConstantLeft(Sub, r) {
      SumParts(Sub, r);
      SubCanon(l, r.right);
      AddCanon(r.left, SubCreate(l, r.right));
    } else {
      PlainCanon(Add, l, r);
    }
  }

  /** Sums of canonical expressions are canonical; and adding a constant to an
      expression that is not one never yields a constant. */
  lemma {:induction false} AddCanon(l: Expr, r: Expr)
    requires CanonPair(l, r)
    ensures Canon(AddCreate(l, r))
    ensures Width(l) != 1 && l.Constant? != r.Constant? ==> !AddCreate(l, r).Constant?
    decreases Weight(l) + Weight(r), if l.Constant? || r.Constant? then 1 else 3
  {
    hide Apply, Pow2, Wf, Width, Weight, Canon, AddPartialR, AddPlain;
    if l.Constant? && r.Constant? {
      ConstantCanon(AddCreate(l, r));
    } else if l.Constant? {
      ConstantCanon(l);
      AddPartialCanon(l, r);
    } else if r.Constant? {
      ConstantCanon(r);
      AddPartialCanon(r, l);
    } else {
      AddPlainCanon(l, r);
    }
  }

  lemma {:induction false} SubPartialCanon(cl: Expr, r: Expr)
    requires CanonPair(cl, r) && cl.Constant? && !r.Constant?
    ensures Canon(SubPartialR(cl, r))
    ensures cl.width != 1 ==> !SubPartialR(cl, r).Constant?
    decreases Weight(cl) + Weight(r), 0
  {
    hide Apply, Pow2, Wf, Width, Weight, Canon, XorPartialR, AddCreate, SubCreate;
    ConstantCanon(cl);
    if cl.width == 1 {
      XorPartialCanon(cl, r);
    } else if IsConstantLeft(Add, r) {
      SumParts(Add, r);
      ConstantCanon(SubCreate(cl, r.left));
      SubCanon(SubCreate(cl, r.left), r.right);
    } else if IsConstantLeft(Sub, r) {
      SumParts(Sub, r);
      ConstantCanon(SubCreate(cl, r.left));
      AddCanon(SubCreate(cl, r.left), r.right);
    } else {
      PlainCanon(Sub, cl, r);
    }
  }

  lemma {:induction false} SubPlainCanon(l: Expr, r: Expr)
    requires CanonPair(l, r) && !l.Constant? && !r.Constant?
    ensures Canon(SubPlain(l, r))
    decreases Weight(l) + Weight(r), 2
  {
    hide Apply, Pow2, Wf, Width, Weight, Canon, AddCreate, SubCreate;
    if Width(l) == 1 {
      PlainCanon(Xor, l, r);
    } else if l == r {
      ConstantCanon(Zero(Width(l)));
    } else if IsConstantLeft(Add, l) {
      SumParts(Add, l);
      SubCanon(l.right, r);
      AddCanon(l.left, SubCreate(l.right, r));
    } else if IsConstantLeft(Sub, l) {
      SumParts(Sub, l);
      AddCanon(l.right, r);
      SubCanon(l.left, AddCreate(l.right, r));
    } else if IsConstantLeft(Add, r) {
      SumParts(Add, r);
      SubCanon(l, r.right);
      SubCanon(SubCreate(l, r.right), r.left);
    } else if IsConstantLeft(Sub, r) {
      SumParts(Sub, r);
      AddCanon(l, r.right);
      SubCanon(AddCreate(l, r.right), r.left);
    } else {
      PlainCanon(Sub, l, r);
    }
  }

  lemma {:induction false} SubCanon(l: Expr, r: Expr)
    requires CanonPair(l, r)
    ensures Canon(SubCreate(l, r))
    ensures Width(l) != 1 && l.Constant? != r.Constant? ==> !SubCreate(l, r).Constant?
    decreases Weight(l) + Weight(r), if l.Constant? || r.Constant? then 1 else 3
  {
    hide Apply, Pow2, Wf, Width, Weight, Canon, AddPartialR, SubPartialR, SubPlain;
    if l.Constant? && r.Constant? {
      ConstantCanon(SubCreate(l, r));
    } else if l.Constant? {
      ConstantCanon(l);
      SubPartialCanon(l, r);
    } else if r.Constant? {
      ConstantCanon(r);
      ZeroCanon(r.width);
      ConstantCanon(Fold(Sub, Zero(r.width), r));
      AddPartialCanon(Fold(Sub, Zero(r.width), r), l);
    } else {
      SubPlainCanon(l, r);
    }
  }

  // ------------------------------------------------------ the other operators

  lemma {:induction false} BinaryCanon(k: Kind, l: Expr, r: Expr)
    requires CanonPair(l, r)
    ensures Canon(BinaryCreate(k, l, r))
  {
    hide Apply, Pow2, Wf, Width, Weight, Canon, AddCreate, SubCreate, XorPartialR;
    if k == Add { AddCanon(l, r); }
    else if k == Sub { SubCanon(l, r); }
    else { OtherCanon(k, l, r); }
  }

  lemma {:induction false} OtherCanon(k: Kind, l: Expr, r: Expr)
    requires CanonPair(l, r) && k != Add && k != Sub
    ensures Canon(BinaryCreate(k, l, r))
  {
    hide Apply, Pow2, Wf, Width, Weight, Canon, XorPartialR, AndCreate, OrCreate, EqCreate, IsZero, CompareCreate;
    hide DivCreate, RemCreate, ShiftCreate, AShrCreate, MulCreate;
    if l.Constant? { ConstantCanon(l); }
    if r.Constant? { ConstantCanon(r); }
    if l.Constant? && r.Constant? { ConstantCanon(Fold(k, l, r)); }
    ConstantCanon(Bool(false));
    PlainCanon(k, l, r);
    match k
    case And | Or => AndCanon(l, r);
    case Mul => MulCanon(l, r);
    case Xor =>
      if l.Constant? && !r.Constant? { XorPartialCanon(l, r); }
      else if r.Constant? && !l.Constant? { XorPartialCanon(r, l); }
    case UDiv | SDiv | URem | SRem | AShr | Shl | LShr => DivShiftCanon(k, l, r);
    case _ => CompareCanon(k, l, r);
  }

  lemma {:induction false} DivShiftCanon(k: Kind, l: Expr, r: Expr)
    requires CanonPair(l, r)
    ensures k == UDiv || k == SDiv ==> Canon(DivCreate(k, l, r))
    ensures k == URem || k == SRem ==> Canon(RemCreate(k, l, r))
    ensures k == Shl || k == LShr ==> Canon(ShiftCreate(k, l, r))
    ensures Canon(AShrCreate(l, r))
  {
    hide Apply, Pow2, Wf, Width, Weight, Canon, AndCreate, IsZero;
    ConstantCanon(Bool(false));
    IsZeroCanon(r);
    if k != Add && k != Sub { PlainCanon(k, l, r); }
    PlainCanon(AShr, l, r);
    if l.Constant? && r.Constant? {
      ConstantCanon(Fold(k, l, r));
      ConstantCanon(Fold(AShr, l, r));
    } else if Width(l) == 1 {
      AndCanon(l, IsZero(r));
    }
  }

  lemma {:induction false} MulCanon(l: Expr, r: Expr)
    requires CanonPair(l, r)
    ensures Canon(MulCreate(l, r))
  {
    hide Apply, Pow2, Wf, Width, Weight, Canon;
    if l.Constant? { ConstantCanon(l); PlainCanon(Mul, l, r); PlainCanon(And, r, l); }
    if r.Constant? { ConstantCanon(r); PlainCanon(Mul, r, l); PlainCanon(And, l, r); }
    if l.Constant? && r.Constant? { ConstantCanon(Fold(Mul, l, r)); }
    PlainCanon(Mul, l, r);
    PlainCanon(And, l, r);
  }

  lemma {:induction false} CompareCanon(k: Kind, l: Expr, r: Expr)
    requires CanonPair(l, r) && IsCompare(k)
    ensures Canon(CompareCreate(k, l, r))
  {
    hide Apply, Pow2, Wf, Width, Weight, Canon, EqCreate, UltCreate, UleCreate, SltCreate, SleCreate;
    EqCanon(l, r);
    BoolCanon(false);
    EqCanon(Bool(false), EqCreate(l, r));
    OrderCanon(l, r);
    OrderCanon(r, l);
  }

  lemma {:induction false} OrderCanon(l: Expr, r: Expr)
    requires CanonPair(l, r)
    ensures Canon(UltCreate(l, r)) && Canon(UleCreate(l, r))
    ensures Canon(SltCreate(l, r)) && Canon(SleCreate(l, r))
  {
    hide Apply, Pow2, Wf, Width, Weight, Canon, AndCreate, OrCreate, IsZero;
    PlainCanon(Ult, l, r); PlainCanon(Ule, l, r); PlainCanon(Slt, l, r); PlainCanon(Sle, l, r);
    if l.Constant? && r.Constant? {
      ConstantCanon(Fold(Ult, l, r)); ConstantCanon(Fold(Ule, l, r));
      ConstantCanon(Fold(Slt, l, r)); ConstantCanon(Fold(Sle, l, r));
    } else if Width(l) == 1 {
      IsZeroCanon(l);
      IsZeroCanon(r);
      AndCanon(IsZero(l), r);
      AndCanon(l, IsZero(r));
    }
  }

  lemma {:induction false} ConcatCanon(l: Expr, r: Expr)
    requires Wf(l) && Wf(r) && Canon(l) && Canon(r)
    ensures Canon(ConcatCreate(l, r))
    decreases Weight(l), 1
  {
    hide Apply, Pow2, ConcatBits, ExtractCreate;
    if l.Extract? && r.Extract? && l.src == r.src && r.offset + r.width == l.offset {
      ExtractCanon(l.src, r.offset, l.width + r.width);
    }
  }

  lemma {:induction false} ExtractCanon(x: Expr, off: nat, w: nat)
    requires Wf(x) && Canon(x) && 0 < w && off + w <= Width(x)
    ensures Canon(ExtractCreate(x, off, w))
    decreases Weight(x), 0
  {
    hide Apply, Pow2, ExtractBits, ConcatCreate;
    if w != Width(x) && x.Concat? {
      var wr := Width(x.right);
      if off >= wr {
        ExtractCanon(x.left, off - wr, w);
      } else if off + w <= wr {
        ExtractCanon(x.right, off, w);
      } else {
        ExtractCanon(x.left, 0, w - wr + off);
        ExtractCanon(x.right, off, wr - off);
        ConcatCanon(ExtractCreate(x.left, 0, w - wr + off), ExtractCreate(x.right, off, wr - off));
      }
    }
  }

  lemma {:induction false} SelectPlainCanon(c: Expr, t: Expr, f: Expr)
    requires Canon(c) && Canon(t) && Canon(f)
    ensures Canon(Select(c, t, f))
  {
  }

  lemma {:induction false} SelectCanon(c: Expr, t: Expr, f: Expr)
    requires Wf(c) && Width(c) == 1 && Canon(c) && CanonPair(t, f)
    ensures Canon(SelectCreate(c, t, f))
  {
    hide Apply, Pow2, Wf, Width, Weight, Canon, IsZero, AndCreate, OrCreate;
    SelectPlainCanon(c, t, f);
    if !c.Constant? && t != f && Width(t) == 1 {
      IsZeroCanon(c);
      if t.Constant? {
        AndCanon(c, f);
        AndCanon(IsZero(c), f);
      } else if f.Constant? {
        AndCanon(IsZero(c), t);
        AndCanon(c, t);
      }
    }
  }

  lemma {:induction false} RollBackCanon(us: Updates, index: Expr)
    requires WfUpdates(us) && CanonUpdates(us) && Wf(index) && Width(index) == DOMAIN
    ensures RollBack(us, index).Found? ==> Canon(RollBack(us, index).value)
    ensures RollBack(us, index).Symbolic? ==> CanonUpdates(RollBack(us, index).rest)
  {
    hide EqCreate, Wf, Canon, Width, Weight;
    if us.Update? { RollBackCanon(us.next, index); }
  }

  lemma {:induction false} ReadCanon(root: Array, us: Updates, index: Expr)
    requires WfArray(root) && WfUpdates(us) && CanonUpdates(us)
    requires Wf(index) && Canon(index) && Width(index) == DOMAIN
    ensures Canon(ReadCreate(root, us, index))
  {
    hide RollBack;
    RollBackCanon(us, index);
  }
}
