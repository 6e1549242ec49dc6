/** Every smart constructor has, under every assignment, the value of the plain
    operator applied to the values of its arguments. */
module CreateMeaning {
  import opened Bits
  import opened Exprs
  import opened Create

  // ------------------------------------------------------------ one-bit facts

  lemma {:induction false} OneBit(x: nat, y: nat)
    requires x < 2 && y < 2
    ensures Apply(And, x, y, 1) == B2N(x == 1 && y == 1)
    ensures Apply(Or, x, y, 1) == B2N(x == 1 || y == 1)
    ensures Apply(Xor, x, y, 1) == B2N(x != y)
    ensures Apply(Add, x, y, 1) == B2N(x != y) == Apply(Sub, x, y, 1)
    ensures Apply(Mul, x, y, 1) == B2N(x == 1 && y == 1)
  {
  }

  lemma {:induction false} OneBitDiv(x: nat, y: nat)
    requires x < 2 && y < 2
    ensures Apply(UDiv, x, y, 1) == x == Apply(SDiv, x, y, 1)
    ensures Apply(URem, x, y, 1) == 0 == Apply(SRem, x, y, 1)
  {
    assert Signed(x, 1) == -(x as int) && Signed(y, 1) == -(y as int);
    if y == 1 {
      assert TruncDiv(Signed(x, 1), -1) == x;
      WrapSmall(x, 1);
      WrapSmall(0, 1);
    }
  }

  lemma {:induction false} OneBitShift(x: nat, y: nat)
    requires x < 2 && y < 2
    ensures Apply(Shl, x, y, 1) == B2N(x == 1 && y == 0) == Apply(LShr, x, y, 1)
    ensures Apply(AShr, x, y, 1) == x
  {
    assert Pow2(0) == 1 && Pow2(1) == 2;
    assert Signed(x, 1) == -(x as int);
  }

  lemma {:induction false} OneBitOrder(x: nat, y: nat)
    requires x < 2 && y < 2
    ensures Apply(Ult, x, y, 1) == B2N(x == 0 && y == 1) == Apply(Sgt, x, y, 1)
    ensures Apply(Ule, x, y, 1) == B2N(x == 0 || y == 1) == Apply(Sge, x, y, 1)
    ensures Apply(Slt, x, y, 1) == B2N(x == 1 && y == 0) == Apply(Ugt, x, y, 1)
    ensures Apply(Sle, x, y, 1) == B2N(x == 1 || y == 0) == Apply(Uge, x, y, 1)
  {
    assert Signed(x, 1) == -(x as int) && Signed(y, 1) == -(y as int);
  }

  lemma {:induction false} BoolRange(e: Expr, a: Assignment)
    requires Wf(e) && Width(e) == 1
    ensures Eval(e, a) < 2
    ensures e.Constant? ==> e.value < 2
  {
    hide Apply;
    assert Pow2(1) == 2;
  }

  // ------------------------------------------------------ unfolding facts

  lemma {:induction false} PlainMeaning(k: Kind, l: Expr, r: Expr, a: Assignment)
    ensures Eval(Binary(k, l, r), a) == Apply(k, Eval(l, a), Eval(r, a), Width(l))
  {
    hide Apply;
  }

  lemma {:induction false} ConstantMeaning(c: Expr, a: Assignment)
    requires c.Constant?
    ensures Eval(c, a) == c.value && Width(c) == c.width && Weight(c) == 1
  {
  }

  lemma {:induction false} ConstantRange(c: Expr)
    requires Wf(c) && c.Constant?
    ensures c.value < Pow2(c.width)
  {
  }

  lemma {:induction false} BoolMeaning(b: bool, a: Assignment)
    ensures Wf(Bool(b)) && Width(Bool(b)) == 1 && Weight(Bool(b)) == 1 && Eval(Bool(b), a) == B2N(b)
  {
    assert Pow2(1) == 2;
  }

  /** What a constant-left addition or subtraction is made of. */
  lemma {:induction false} Parts(k: Kind, e: Expr, a: Assignment)
    requires Wf(e) && IsConstantLeft(k, e) && (k == Add || k == Sub)
    ensures SameWidth(e.left, e.right) && Width(e.left) == e.left.width == Width(e)
    ensures Weight(e) == Weight(e.right) + 2 && Weight(e.left) == 1
    ensures Eval(e.left, a) == e.left.value
    ensures Eval(e, a) == Apply(k, e.left.value, Eval(e.right, a), Width(e))
  {
    hide Apply, Pow2;
  }

  /** What a cast is made of. */
  lemma {:induction false} CastParts(e: Expr, a: Assignment)
    requires Wf(e) && (e.SExt? || e.ZExt?)
    ensures Wf(e.src) && 0 < Width(e.src) < e.width == Width(e)
    ensures Weight(e) == Weight(e.src) + 1
    ensures Eval(e, a) == if e.SExt? then SignExtend(Eval(e.src, a), Width(e.src), e.width) else Eval(e.src, a)
  {
    hide SignExtend, Pow2;
  }

  // ------------------------------------------------- laws of the operators

  lemma {:induction false} UnitLaws(x: nat, w: nat)
    requires x < Pow2(w)
    ensures Apply(And, x, Pow2(w) - 1, w) == x && Apply(And, x, 0, w) == 0
    ensures Apply(Or, x, Pow2(w) - 1, w) == Pow2(w) - 1 && Apply(Or, x, 0, w) == x
    ensures Apply(Xor, 0, x, w) == x && Apply(Add, 0, x, w) == x
    ensures Apply(Mul, 1, x, w) == x && Apply(Mul, 0, x, w) == 0
    ensures Apply(Sub, x, x, w) == 0
  {
    BitwiseUnits(x, w);
    WrapSmall(x, w);
    WrapSmall(0, w);
  }

  lemma {:induction false} CommuteLaws(x: nat, y: nat, w: nat)
    ensures Apply(And, x, y, w) == Apply(And, y, x, w)
    ensures Apply(Or, x, y, w) == Apply(Or, y, x, w)
    ensures Apply(Xor, x, y, w) == Apply(Xor, y, x, w)
    ensures Apply(Add, x, y, w) == Apply(Add, y, x, w)
    ensures Apply(Mul, x, y, w) == Apply(Mul, y, x, w)
  {
    BitwiseCommutes(x, y, w);
    assert x * y == y * x;
  }

  /** The reassociations the addition and subtraction constructors perform. */
  lemma {:induction false} AddLaws(k: nat, x: nat, y: nat, w: nat)
    ensures Apply(Add, k, Apply(Add, x, y, w), w) == Apply(Add, Apply(Add, k, x, w), y, w)
    ensures Apply(Add, k, Apply(Sub, x, y, w), w) == Apply(Sub, Apply(Add, k, x, w), y, w)
    ensures Apply(Sub, k, Apply(Add, x, y, w), w) == Apply(Sub, Apply(Sub, k, x, w), y, w)
    ensures Apply(Sub, k, Apply(Sub, x, y, w), w) == Apply(Add, Apply(Sub, k, x, w), y, w)
  {
    hide Wrap;
    WrapAdd(x + y, k, w); WrapAdd(k + x, y, w);
    WrapAdd(x - y, k, w); WrapAdd(k + x, 0 - y, w);
    WrapSub(x + y, k, w); WrapAdd(k - x, 0 - y, w);
    WrapSub(x - y, k, w); WrapAdd(k - x, y, w);
  }

  lemma {:induction false} AddSubLaws(k: nat, x: nat, y: nat, w: nat)
    ensures Apply(Add, k, Apply(Sub, y, x, w), w) == Apply(Add, Apply(Sub, k, x, w), y, w)
    ensures Apply(Sub, Apply(Sub, x, y, w), k, w) == Apply(Sub, x, Apply(Add, k, y, w), w)
    ensures Apply(Sub, Apply(Add, x, y, w), k, w) == Apply(Sub, x, Apply(Sub, k, y, w), w)
    ensures Apply(Add, Apply(Sub, 0, k, w), x, w) == Apply(Sub, x, k, w)
  {
    hide Wrap;
    WrapAdd(y - x, k, w); WrapAdd(k - x, y, w);
    WrapAdd(x - y, 0 - k, w); WrapSub(k + y, x, w);
    WrapAdd(x + y, 0 - k, w); WrapSub(k - y, x, w);
    WrapAdd(0 - k, x, w);
  }

  // --------------------------------------------------------------- and and or

  lemma {:induction false} AndPartialMeaning(l: Expr, cr: Expr, a: Assignment)
    requires SameWidth(l, cr) && cr.Constant?
    ensures Eval(AndPartial(l, cr), a) == Apply(And, Eval(l, a), cr.value, cr.width)
  {
    hide Apply, Pow2;
    UnitLaws(Eval(l, a), cr.width);
  }

  lemma {:induction false} AndMeaning(l: Expr, r: Expr, a: Assignment)
    requires SameWidth(l, r)
    ensures Eval(AndCreate(l, r), a) == Apply(And, Eval(l, a), Eval(r, a), Width(l))
  {
    hide Apply, Pow2, Wf, Width, Weight, Eval, AndPartial;
    CommuteLaws(Eval(l, a), Eval(r, a), Width(l));
    if l.Constant? { ConstantMeaning(l, a); }
    if r.Constant? { ConstantMeaning(r, a); }
    if l.Constant? && r.Constant? {
      ConstantMeaning(Fold(And, l, r), a);
    } else if l.Constant? {
      AndPartialMeaning(r, l, a);
    } else if r.Constant? {
      AndPartialMeaning(l, r, a);
    } else {
      PlainMeaning(And, l, r, a);
    }
  }

  lemma {:induction false} OrPartialMeaning(l: Expr, cr: Expr, a: Assignment)
    requires SameWidth(l, cr) && cr.Constant?
    ensures Eval(OrPartial(l, cr), a) == Apply(Or, Eval(l, a), cr.value, cr.width)
  {
    hide Apply, Pow2;
    UnitLaws(Eval(l, a), cr.width);
  }

  lemma {:induction false} OrMeaning(l: Expr, r: Expr, a: Assignment)
    requires SameWidth(l, r)
    ensures Eval(OrCreate(l, r), a) == Apply(Or, Eval(l, a), Eval(r, a), Width(l))
  {
    hide Apply, Pow2, Wf, Width, Weight, Eval, OrPartial;
    CommuteLaws(Eval(l, a), Eval(r, a), Width(l));
    if l.Constant? { ConstantMeaning(l, a); }
    if r.Constant? { ConstantMeaning(r, a); }
    if l.Constant? && r.Constant? {
      ConstantMeaning(Fold(Or, l, r), a);
    } else if l.Constant? {
      OrPartialMeaning(r, l, a);
    } else if r.Constant? {
      OrPartialMeaning(l, r, a);
    } else {
      PlainMeaning(Or, l, r, a);
    }
  }

  // ----------------------------------------------------------------- equality

  lemma {:induction false} EqSExt(c: nat, x: nat, from: nat, to: nat)
    requires 0 < from < to && x < Pow2(from) && c < Pow2(to)
    ensures c == SignExtend(x, from, to)
       <==> c == SignExtend(Wrap(c, from), from, to) && x == Wrap(c, from)
  {
    hide Pow2, Wrap, SignExtend;
    SignExtendTruncates(x, from, to);
  }

  lemma {:induction false} EqZExt(c: nat, x: nat, from: nat)
    requires x < Pow2(from)
    ensures c == x <==> c == Wrap(c, from) && x == Wrap(c, from)
  {
    hide Wrap;
    WrapSmall(x, from);
  }

  lemma {:induction false} EqAdd(c: nat, k: nat, x: nat, w: nat)
    requires c < Pow2(w) && k < Pow2(w) && x < Pow2(w)
    ensures c == Apply(Add, k, x, w) <==> Apply(Sub, c, k, w) == x
  {
    hide Wrap, Pow2;
    WrapSmall(c, w);
    WrapSmall(x, w);
    WrapAdd(k + x, 0 - k, w);
    WrapAdd(c - k, k, w);
  }

  lemma {:induction false} EqSub(c: nat, k: nat, x: nat, w: nat)
    requires c < Pow2(w) && k < Pow2(w) && x < Pow2(w)
    ensures c == Apply(Sub, k, x, w) <==> Apply(Sub, k, c, w) == x
  {
    hide Wrap, Pow2;
    WrapSmall(c, w);
    WrapSmall(x, w);
    WrapSub(k - x, k, w);
    WrapSub(k - c, k, w);
  }

  lemma {:induction false} EqBits(x: nat, y: nat, w: nat)
    ensures Apply(Eq, x, y, w) == B2N(x == y)
  {
  }

  lemma {:induction false} OrOperands(r: Expr, a: Assignment)
    requires Wf(r) && Width(r) == 1 && r.Binary? && r.kind == Or
    ensures Wf(r.left) && Wf(r.right) && Width(r.left) == 1 == Width(r.right)
    ensures Weight(r.left) < Weight(r) && Weight(r.right) < Weight(r)
    ensures Eval(r.left, a) < 2 && Eval(r.right, a) < 2
    ensures Eval(r, a) == Apply(Or, Eval(r.left, a), Eval(r.right, a), 1)
  {
    hide Apply, Pow2;
    BoolRange(r.left, a);
    BoolRange(r.right, a);
  }

  lemma {:induction false} EqOperandRange(r: Expr, a: Assignment)
    requires Wf(r) && r.Binary? && r.kind == Eq && r.left == Bool(false)
    ensures Wf(r.right) && Width(r.right) == 1 && Eval(r.right, a) < 2
  {
    hide Apply, Pow2;
    BoolRange(r.right, a);
  }

  /** Equality with the one-bit constants. */
  lemma {:induction false} EqBoolMeaning(cl: Expr, r: Expr, a: Assignment)
    requires SameWidth(cl, r) && cl.Constant? && cl.width == 1
    requires cl.value == 0 && r.Binary? && r.kind == Or ==>
      && Eval(IsZero(r.left), a) == B2N(Eval(r.left, a) == 0)
      && Eval(IsZero(r.right), a) == B2N(Eval(r.right, a) == 0)
    ensures Eval(EqPartialR(cl, r), a) == B2N(cl.value == Eval(r, a))
  {
    hide Apply, Pow2, Wf, Width, Weight, Eval, AndCreate, IsZero, EqCreate;
    var v := Eval(r, a);
    BoolMeaning(false, a);
    BoolMeaning(true, a);
    ConstantMeaning(cl, a);
    BoolRange(r, a);
    BoolRange(cl, a);
    PlainMeaning(Eq, cl, r, a);
    EqBits(cl.value, v, 1);
    if cl.value == 0 && r.Binary? && r.kind == Or {
      OrOperands(r, a);
      AndMeaning(IsZero(r.left), IsZero(r.right), a);
      OneBit(Eval(r.left, a), Eval(r.right, a));
      OneBit(Eval(IsZero(r.left), a), Eval(IsZero(r.right), a));
    } else if cl.value == 0 && r.Binary? && r.kind == Eq && r.left == Bool(false) {
      PlainMeaning(Eq, r.left, r.right, a);
      EqBits(0, Eval(r.right, a), 1);
      EqOperandRange(r, a);
    }
  }

  lemma {:induction false} EqPartialMeaning(cl: Expr, r: Expr, a: Assignment)
    requires SameWidth(cl, r) && cl.Constant?
    ensures Eval(EqPartialR(cl, r), a) == B2N(cl.value == Eval(r, a))
    decreases Weight(r) + 1, 0
  {
    hide Apply, Pow2, Wrap, SignExtend, Wf, Width, Weight, Eval;
    var v := Eval(r, a);
    ConstantMeaning(cl, a);
    BoolMeaning(false, a);
    BoolMeaning(true, a);
    if cl.width == 1 {
      if cl.value == 0 && r.Binary? && r.kind == Or {
        OrOperands(r, a);
        IsZeroMeaning(r.left, a);
        IsZeroMeaning(r.right, a);
      }
      EqBoolMeaning(cl, r, a);
    } else if r.SExt? || r.ZExt? {
      CastParts(r, a);
      var cut := Truncate(cl, Width(r.src));
      ConstantMeaning(cut, a);
      EqMeaning(r.src, cut, a);
      if r.SExt? {
        EqSExt(cl.value, Eval(r.src, a), Width(r.src), cl.width);
      } else {
        EqZExt(cl.value, Eval(r.src, a), Width(r.src));
      }
    } else if IsConstantLeft(Add, r) {
      Parts(Add, r, a);
      ConstantMeaning(Fold(Sub, cl, r.left), a);
      ConstantRange(cl);
      ConstantRange(r.left);
      EqAdd(cl.value, r.left.value, Eval(r.right, a), cl.width);
      EqPartialMeaning(Fold(Sub, cl, r.left), r.right, a);
    } else if IsConstantLeft(Sub, r) {
      Parts(Sub, r, a);
      ConstantMeaning(Fold(Sub, r.left, cl), a);
      ConstantRange(cl);
      ConstantRange(r.left);
      EqSub(cl.value, r.left.value, Eval(r.right, a), cl.width);
      EqPartialMeaning(Fold(Sub, r.left, cl), r.right, a);
    } else {
      PlainMeaning(Eq, cl, r, a);
      EqBits(cl.value, v, cl.width);
    }
  }

  lemma {:induction false} EqMeaning(l: Expr, r: Expr, a: Assignment)
    requires SameWidth(l, r)
    ensures Eval(EqCreate(l, r), a) == B2N(Eval(l, a) == Eval(r, a))
    decreases Weight(l) + Weight(r), 1
  {
    hide Apply, Pow2, Wf, Width, Eval, EqPartialR;
    EqBits(Eval(l, a), Eval(r, a), Width(l));
    if l.Constant? && r.Constant? {
      ConstantMeaning(l, a);
      ConstantMeaning(r, a);
      ConstantMeaning(Fold(Eq, l, r), a);
    } else if l.Constant? {
      ConstantMeaning(l, a);
      EqPartialMeaning(l, r, a);
    } else if r.Constant? {
      ConstantMeaning(r, a);
      EqPartialMeaning(r, l, a);
    } else {
      PlainMeaning(Eq, l, r, a);
      BoolMeaning(true, a);
    }
  }

  lemma {:induction false} IsZeroMeaning(x: Expr, a: Assignment)
    requires Wf(x)
    ensures Eval(IsZero(x), a) == B2N(Eval(x, a) == 0)
    decreases Weight(x) + 1, 2
  {
    hide EqCreate;
    EqMeaning(x, Zero(Width(x)), a);
  }

  // ---------------------------------------------------------------------- xor

  lemma {:induction false} XorPartialMeaning(cl: Expr, r: Expr, a: Assignment)
    requires SameWidth(cl, r) && cl.Constant?
    ensures Eval(XorPartialR(cl, r), a) == Apply(Xor, cl.value, Eval(r, a), cl.width)
  {
    hide Apply, Pow2, Wf, Width, Weight, Eval, EqPartialR;
    ConstantMeaning(cl, a);
    PlainMeaning(Xor, cl, r, a);
    UnitLaws(Eval(r, a), cl.width);
    if cl.value != 0 && cl.width == 1 {
      BoolRange(cl, a);
      BoolRange(r, a);
      BoolMeaning(false, a);
      EqPartialMeaning(Bool(false), r, a);
      OneBit(cl.value, Eval(r, a));
    }
  }

  lemma {:induction false} XorMeaning(l: Expr, r: Expr, a: Assignment)
    requires SameWidth(l, r)
    ensures Eval(XorCreate(l, r), a) == Apply(Xor, Eval(l, a), Eval(r, a), Width(l))
  {
    hide Apply, Pow2, Wf, Width, Weight, Eval, XorPartialR;
    CommuteLaws(Eval(l, a), Eval(r, a), Width(l));
    if l.Constant? { ConstantMeaning(l, a); }
    if r.Constant? { ConstantMeaning(r, a); }
    if l.Constant? && r.Constant? {
      ConstantMeaning(Fold(Xor, l, r), a);
    } else if l.Constant? {
      XorPartialMeaning(l, r, a);
    } else if r.Constant? {
      XorPartialMeaning(r, l, a);
    } else {
      PlainMeaning(Xor, l, r, a);
    }
  }

  // ------------------------------------------------ addition and subtraction

  lemma {:induction false} AddPartialMeaning(cl: Expr, r: Expr, a: Assignment)
    requires SameWidth(cl, r) && cl.Constant?
    ensures Eval(AddPartialR(cl, r), a) == Apply(Add, cl.value, Eval(r, a), cl.width)
    decreases Weight(cl) + Weight(r), 0
  {
    hide Apply, Pow2, XorPartialR, AddCreate, SubCreate;
    if cl.width == 1 {
      BoolRange(cl, a); BoolRange(r, a);
      XorPartialMeaning(cl, r, a);
      OneBit(cl.value, Eval(r, a));
    } else if cl.value == 0 {
      UnitLaws(Eval(r, a), cl.width);
    } else if IsConstantLeft(Add, r) {
      AddMeaning(AddCreate(cl, r.left), r.right, a);
      AddLaws(cl.value, r.left.value, Eval(r.right, a), cl.width);
    } else if IsConstantLeft(Sub, r) {
      SubMeaning(AddCreate(cl, r.left), r.right, a);
      AddLaws(cl.value, r.left.value, Eval(r.right, a), cl.width);
    }
  }

  lemma {:induction false} AddPlainMeaning(l: Expr, r: Expr, a: Assignment)
    requires SameWidth(l, r) && !l.Constant? && !r.Constant?
    ensures Eval(AddPlain(l, r), a) == Apply(Add, Eval(l, a), Eval(r, a), Width(l))
    decreases Weight(l) + Weight(r), 2
  {
    hide Apply, Pow2, Wf, Width, Weight, Eval, AddCreate, SubCreate;
    PlainMeaning(Xor, l, r, a);
    PlainMeaning(Add, l, r, a);
    var x, y, w := Eval(l, a), Eval(r, a), Width(l);
    if w == 1 {
      BoolRange(l, a); BoolRange(r, a);
      OneBit(x, y);
    } else if IsConstantLeft(Add, l) {
      Parts(Add, l, a);
      AddMeaning(l.right, r, a);
      AddMeaning(l.left, AddCreate(l.right, r), a);
      AddLaws(l.left.value, Eval(l.right, a), y, w);
    } else if IsConstantLeft(Sub, l) {
      Parts(Sub, l, a);
      SubMeaning(r, l.right, a);
      AddMeaning(l.left, SubCreate(r, l.right), a);
      AddSubLaws(l.left.value, Eval(l.right, a), y, w);
    } else if IsConstantLeft(Add, r) {
      Parts(Add, r, a);
      AddMeaning(l, r.right, a);
      AddMeaning(r.left, AddCreate(l, r.right), a);
      AddLaws(x, r.left.value, Eval(r.right, a), w);
      CommuteLaws(x, r.left.value, w);
      AddLaws(r.left.value, x, Eval(r.right, a), w);
    } else if IsConstantLeft(Sub, r) {
      Parts(Sub, r, a);
      SubMeaning(l, r.right, a);
      AddMeaning(r.left, SubCreate(l, r.right), a);
      AddLaws(r.left.value, x, Eval(r.right, a), w);
      CommuteLaws(x, r.left.value, w);
      AddLaws(x, r.left.value, Eval(r.right, a), w);
    }
  }

  lemma {:induction false} AddMeaning(l: Expr, r: Expr, a: Assignment)
    requires SameWidth(l, r)
    ensures Eval(AddCreate(l, r), a) == Apply(Add, Eval(l, a), Eval(r, a), Width(l))
    decreases Weight(l) + Weight(r), if l.Constant? || r.Constant? then 1 else 3
  {
    hide Apply, Pow2, AddPartialR, AddPlain;
    CommuteLaws(Eval(l, a), Eval(r, a), Width(l));
    if l.Constant? && r.Constant? {
    } else if l.Constant? {
      AddPartialMeaning(l, r, a);
    } else if r.Constant? {
      AddPartialMeaning(r, l, a);
    } else {
      AddPlainMeaning(l, r, a);
    }
  }

  lemma {:induction false} SubPartialMeaning(cl: Expr, r: Expr, a: Assignment)
    requires SameWidth(cl, r) && cl.Constant?
    ensures Eval(SubPartialR(cl, r), a) == Apply(Sub, cl.value, Eval(r, a), cl.width)
    decreases Weight(cl) + Weight(r), 0
  {
    hide Apply, Pow2, XorPartialR, AddCreate, SubCreate;
    if cl.width == 1 {
      BoolRange(cl, a); BoolRange(r, a);
      XorPartialMeaning(cl, r, a);
      OneBit(cl.value, Eval(r, a));
    } else if IsConstantLeft(Add, r) {
      SubMeaning(SubCreate(cl, r.left), r.right, a);
      AddLaws(cl.value, r.left.value, Eval(r.right, a), cl.width);
    } else if IsConstantLeft(Sub, r) {
      AddMeaning(SubCreate(cl, r.left), r.right, a);
      AddLaws(cl.value, r.left.value, Eval(r.right, a), cl.width);
    }
  }

  lemma {:induction false} SubPlainMeaning(l: Expr, r: Expr, a: Assignment)
    requires SameWidth(l, r) && !l.Constant? && !r.Constant?
    ensures Eval(SubPlain(l, r), a) == Apply(Sub, Eval(l, a), Eval(r, a), Width(l))
    decreases Weight(l) + Weight(r), 2
  {
    hide Apply, Pow2, Wf, Width, Weight, Eval, AddCreate, SubCreate;
    PlainMeaning(Xor, l, r, a);
    PlainMeaning(Sub, l, r, a);
    var x, y, w := Eval(l, a), Eval(r, a), Width(l);
    if w == 1 {
      BoolRange(l, a); BoolRange(r, a);
      OneBit(x, y);
    } else if l == r {
      UnitLaws(x, w);
      ConstantMeaning(Zero(w), a);
    } else if IsConstantLeft(Add, l) {
      Parts(Add, l, a);
      SubMeaning(l.right, r, a);
      AddMeaning(l.left, SubCreate(l.right, r), a);
      AddLaws(l.left.value, Eval(l.right, a), y, w);
    } else if IsConstantLeft(Sub, l) {
      Parts(Sub, l, a);
      AddMeaning(l.right, r, a);
      SubMeaning(l.left, AddCreate(l.right, r), a);
      AddLaws(l.left.value, Eval(l.right, a), y, w);
    } else if IsConstantLeft(Add, r) {
      Parts(Add, r, a);
      SubMeaning(l, r.right, a);
      SubMeaning(SubCreate(l, r.right), r.left, a);
      AddSubLaws(r.left.value, x, Eval(r.right, a), w);
    } else if IsConstantLeft(Sub, r) {
      Parts(Sub, r, a);
      AddMeaning(l, r.right, a);
      SubMeaning(AddCreate(l, r.right), r.left, a);
      AddSubLaws(r.left.value, x, Eval(r.right, a), w);
    }
  }

  lemma {:induction false} SubMeaning(l: Expr, r: Expr, a: Assignment)
    requires SameWidth(l, r)
    ensures Eval(SubCreate(l, r), a) == Apply(Sub, Eval(l, a), Eval(r, a), Width(l))
    decreases Weight(l) + Weight(r), if l.Constant? || r.Constant? then 1 else 3
  {
    hide Apply, Pow2, AddPartialR, SubPartialR, SubPlain;
    if l.Constant? && r.Constant? {
    } else if l.Constant? {
      SubPartialMeaning(l, r, a);
    } else if r.Constant? {
      AddPartialMeaning(Fold(Sub, Zero(r.width), r), l, a);
      AddSubLaws(r.value, Eval(l, a), 0, r.width);
    } else {
      SubPlainMeaning(l, r, a);
    }
  }

  // -------------------------------------------------------- other arithmetic

  lemma {:induction false} MulPartialMeaning(cl: Expr, r: Expr, a: Assignment)
    requires SameWidth(cl, r) && cl.Constant?
    ensures Eval(MulPartialR(cl, r), a) == Apply(Mul, cl.value, Eval(r, a), cl.width)
  {
    hide Apply, Pow2, Wf, Width, Weight, Eval, AndPartial;
    ConstantMeaning(cl, a);
    PlainMeaning(Mul, cl, r, a);
    if cl.width == 1 {
      BoolRange(cl, a);
      BoolRange(r, a);
      AndPartialMeaning(r, cl, a);
      OneBit(Eval(r, a), cl.value);
      OneBit(cl.value, Eval(r, a));
    } else {
      UnitLaws(Eval(r, a), cl.width);
    }
  }

  lemma {:induction false} MulMeaning(l: Expr, r: Expr, a: Assignment)
    requires SameWidth(l, r)
    ensures Eval(MulCreate(l, r), a) == Apply(Mul, Eval(l, a), Eval(r, a), Width(l))
  {
    hide Apply, Pow2, Wf, Width, Weight, Eval, MulPartialR;
    CommuteLaws(Eval(l, a), Eval(r, a), Width(l));
    if l.Constant? { ConstantMeaning(l, a); }
    if r.Constant? { ConstantMeaning(r, a); }
    if l.Constant? && r.Constant? {
      ConstantMeaning(Fold(Mul, l, r), a);
    } else if l.Constant? {
      MulPartialMeaning(l, r, a);
    } else if r.Constant? {
      MulPartialMeaning(r, l, a);
    } else if Width(l) == 1 {
      BoolRange(l, a);
      BoolRange(r, a);
      OneBit(Eval(l, a), Eval(r, a));
      PlainMeaning(And, l, r, a);
    } else {
      PlainMeaning(Mul, l, r, a);
    }
  }

  lemma {:induction false} DivRemMeaning(k: Kind, l: Expr, r: Expr, a: Assignment)
    requires SameWidth(l, r)
    ensures k == UDiv || k == SDiv ==>
      Eval(DivCreate(k, l, r), a) == Apply(k, Eval(l, a), Eval(r, a), Width(l))
    ensures k == URem || k == SRem ==>
      Eval(RemCreate(k, l, r), a) == Apply(k, Eval(l, a), Eval(r, a), Width(l))
  {
    hide Apply, Pow2, Wf, Width, Weight, Eval;
    PlainMeaning(k, l, r, a);
    BoolMeaning(false, a);
    if l.Constant? && r.Constant? {
      ConstantMeaning(l, a);
      ConstantMeaning(r, a);
      ConstantMeaning(Fold(k, l, r), a);
    } else if Width(l) == 1 {
      BoolRange(l, a);
      BoolRange(r, a);
      OneBitDiv(Eval(l, a), Eval(r, a));
    }
  }

  lemma {:induction false} ShiftMeaning(k: Kind, l: Expr, r: Expr, a: Assignment)
    requires SameWidth(l, r) && (k == Shl || k == LShr)
    ensures Eval(ShiftCreate(k, l, r), a) == Apply(k, Eval(l, a), Eval(r, a), Width(l))
  {
    hide Apply, Pow2, IsZero, AndCreate;
    if Width(l) == 1 && !(l.Constant? && r.Constant?) {
      BoolRange(l, a); BoolRange(r, a);
      var x, y := Eval(l, a), Eval(r, a);
      OneBitShift(x, y);
      IsZeroMeaning(r, a);
      AndMeaning(l, IsZero(r), a);
      OneBit(x, B2N(y == 0));
    }
  }

  lemma {:induction false} AShrMeaning(l: Expr, r: Expr, a: Assignment)
    requires SameWidth(l, r)
    ensures Eval(AShrCreate(l, r), a) == Apply(AShr, Eval(l, a), Eval(r, a), Width(l))
  {
    hide Apply, Pow2;
    if Width(l) == 1 {
      BoolRange(l, a); BoolRange(r, a);
      OneBitShift(Eval(l, a), Eval(r, a));
    }
  }

  // --------------------------------------------------------------- comparison

  lemma {:induction false} UltMeaning(l: Expr, r: Expr, a: Assignment)
    requires SameWidth(l, r)
    ensures Eval(UltCreate(l, r), a) == Apply(Ult, Eval(l, a), Eval(r, a), Width(l))
  {
    hide Apply, Pow2, IsZero, AndCreate;
    if Width(l) == 1 && !(l.Constant? && r.Constant?) {
      BoolRange(l, a); BoolRange(r, a);
      OneBitOrder(Eval(l, a), Eval(r, a));
      IsZeroMeaning(l, a);
      AndMeaning(IsZero(l), r, a);
      OneBit(B2N(Eval(l, a) == 0), Eval(r, a));
    }
  }

  lemma {:induction false} UleMeaning(l: Expr, r: Expr, a: Assignment)
    requires SameWidth(l, r)
    ensures Eval(UleCreate(l, r), a) == Apply(Ule, Eval(l, a), Eval(r, a), Width(l))
  {
    hide Apply, Pow2, IsZero, OrCreate;
    if Width(l) == 1 && !(l.Constant? && r.Constant?) {
      BoolRange(l, a); BoolRange(r, a);
      OneBitOrder(Eval(l, a), Eval(r, a));
      IsZeroMeaning(l, a);
      OrMeaning(IsZero(l), r, a);
      OneBit(B2N(Eval(l, a) == 0), Eval(r, a));
    }
  }

  lemma {:induction false} SltMeaning(l: Expr, r: Expr, a: Assignment)
    requires SameWidth(l, r)
    ensures Eval(SltCreate(l, r), a) == Apply(Slt, Eval(l, a), Eval(r, a), Width(l))
  {
    hide Apply, Pow2, IsZero, AndCreate;
    if Width(l) == 1 && !(l.Constant? && r.Constant?) {
      BoolRange(l, a); BoolRange(r, a);
      OneBitOrder(Eval(l, a), Eval(r, a));
      IsZeroMeaning(r, a);
      AndMeaning(l, IsZero(r), a);
      OneBit(Eval(l, a), B2N(Eval(r, a) == 0));
    }
  }

  lemma {:induction false} SleMeaning(l: Expr, r: Expr, a: Assignment)
    requires SameWidth(l, r)
    ensures Eval(SleCreate(l, r), a) == Apply(Sle, Eval(l, a), Eval(r, a), Width(l))
  {
    hide Apply, Pow2, IsZero, OrCreate;
    if Width(l) == 1 && !(l.Constant? && r.Constant?) {
      BoolRange(l, a); BoolRange(r, a);
      OneBitOrder(Eval(l, a), Eval(r, a));
      IsZeroMeaning(r, a);
      OrMeaning(l, IsZero(r), a);
      OneBit(Eval(l, a), B2N(Eval(r, a) == 0));
    }
  }

  /** The comparisons that are built from others. */
  lemma {:induction false} MirrorLaws(x: nat, y: nat, w: nat)
    ensures Apply(Eq, x, y, w) == B2N(x == y)
    ensures Apply(Ne, x, y, w) == B2N(B2N(x == y) == 0)
    ensures Apply(Ugt, x, y, w) == Apply(Ult, y, x, w)
    ensures Apply(Uge, x, y, w) == Apply(Ule, y, x, w)
    ensures Apply(Sgt, x, y, w) == Apply(Slt, y, x, w)
    ensures Apply(Sge, x, y, w) == Apply(Sle, y, x, w)
  {
  }

  lemma {:induction false} CompareMeaning(k: Kind, l: Expr, r: Expr, a: Assignment)
    requires SameWidth(l, r) && IsCompare(k)
    ensures Eval(CompareCreate(k, l, r), a) == Apply(k, Eval(l, a), Eval(r, a), Width(l))
  {
    hide Apply, Pow2, Wf, Width, Weight, Eval, EqCreate, UltCreate, UleCreate, SltCreate, SleCreate;
    MirrorLaws(Eval(l, a), Eval(r, a), Width(l));
    BoolMeaning(false, a);
    if k == Eq { EqMeaning(l, r, a); }
    else if k == Ne { EqMeaning(l, r, a); EqMeaning(Bool(false), EqCreate(l, r), a); }
    else if k == Ult { UltMeaning(l, r, a); }
    else if k == Ule { UleMeaning(l, r, a); }
    else if k == Ugt { UltMeaning(r, l, a); }
    else if k == Uge { UleMeaning(r, l, a); }
    else if k == Slt { SltMeaning(l, r, a); }
    else if k == Sle { SleMeaning(l, r, a); }
    else if k == Sgt { SltMeaning(r, l, a); }
    else { SleMeaning(r, l, a); }
  }

  /** Main theorem for binary operators. */
  lemma {:induction false} BinaryMeaning(k: Kind, l: Expr, r: Expr, a: Assignment)
    requires SameWidth(l, r)
    ensures Eval(BinaryCreate(k, l, r), a) == Apply(k, Eval(l, a), Eval(r, a), Width(l))
  {
    hide Apply, Pow2, AddCreate, SubCreate, MulCreate, AndCreate, OrCreate, XorCreate;
    hide DivCreate, RemCreate, ShiftCreate, AShrCreate, CompareCreate;
    match k
    case Add => AddMeaning(l, r, a);
    case Sub => SubMeaning(l, r, a);
    case Mul => MulMeaning(l, r, a);
    case And => AndMeaning(l, r, a);
    case Or => OrMeaning(l, r, a);
    case Xor => XorMeaning(l, r, a);
    case UDiv | SDiv | URem | SRem => DivRemMeaning(k, l, r, a);
    case Shl | LShr => ShiftMeaning(k, l, r, a);
    case AShr => AShrMeaning(l, r, a);
    case _ => CompareMeaning(k, l, r, a);
  }

  // ------------------------------------------------------- concat and extract

  lemma {:induction false} ConcatMeaning(l: Expr, r: Expr, a: Assignment)
    requires Wf(l) && Wf(r)
    ensures Eval(ConcatCreate(l, r), a) == ConcatBits(Eval(l, a), Eval(r, a), Width(r))
    decreases Weight(l), 1
  {
    hide Apply, Pow2, ConcatBits, ExtractBits, ExtractCreate, ExtractWeight;
    if l.Constant? && r.Constant? {
      ConstantMeaning(l, a);
      ConstantMeaning(r, a);
    } else if Neighbours(l, r) {
      NeighbourParts(l, r);
      hide Wf, Width, Weight;
      ExtractMeaning(l.src, r.offset, l.width + r.width, a);
      ExtractSplit(Eval(l.src, a), r.offset, r.width, l.width + r.width);
    }
  }

  lemma {:induction false} ExtractMeaning(x: Expr, off: nat, w: nat, a: Assignment)
    requires Wf(x) && 0 < w && off + w <= Width(x)
    ensures Eval(ExtractCreate(x, off, w), a) == ExtractBits(Eval(x, a), off, w)
    decreases Weight(x), 0
  {
    hide Apply, ConcatBits, ExtractBits, ConcatCreate, Pow2;
    if w == Width(x) {
      ExtractWhole(Eval(x, a), w);
    } else if x.Concat? {
      var wr, hi, lo := Width(x.right), Eval(x.left, a), Eval(x.right, a);
      if off >= wr {
        ExtractMeaning(x.left, off - wr, w, a);
        ExtractHigh(hi, lo, wr, off, w);
      } else if off + w <= wr {
        ExtractMeaning(x.right, off, w, a);
        ExtractLow(hi, lo, wr, off, w);
      } else {
        ExtractMeaning(x.left, 0, w - wr + off, a);
        ExtractMeaning(x.right, off, wr - off, a);
        ConcatMeaning(ExtractCreate(x.left, 0, w - wr + off), ExtractCreate(x.right, off, wr - off), a);
        ExtractStraddle(hi, lo, wr, off, w);
      }
    }
  }

  // -------------------------------------------------------- casts and the rest

  lemma {:induction false} ExtractLowest(x: nat, w: nat)
    ensures ExtractBits(x, 0, w) == Wrap(x, w)
  {
    assert Pow2(0) == 1;
  }

  /** Extending keeps the value; narrowing reduces it modulo the new width. */
  lemma {:induction false} ZExtMeaning(x: Expr, w: nat, a: Assignment)
    requires Wf(x) && 0 < w
    ensures Eval(ZExtCreate(x, w), a) == Wrap(Eval(x, a), w)
  {
    hide Apply, Pow2, Wrap, ExtractBits, ExtractCreate;
    if w < Width(x) {
      ExtractMeaning(x, 0, w, a);
      ExtractLowest(Eval(x, a), w);
    } else {
      Pow2Monotonic(Width(x), w);
      WrapSmall(Eval(x, a), w);
    }
  }

  lemma {:induction false} SExtMeaning(x: Expr, w: nat, a: Assignment)
    requires Wf(x) && 0 < w
    ensures Eval(SExtCreate(x, w), a) == SignExtend(Eval(x, a), Width(x), w)
  {
    hide Apply, Pow2, Wrap, ExtractBits, ExtractCreate, SignExtend;
    var v, k := Eval(x, a), Width(x);
    if w <= k {
      SignExtendNarrow(v, k, w);
      WrapSmall(v, k);
      ExtractMeaning(x, 0, w, a);
      ExtractLowest(v, w);
    }
  }

  lemma {:induction false} SignExtendNarrow(x: nat, from: nat, to: nat)
    requires to <= from && x < Pow2(from)
    ensures SignExtend(x, from, to) == Wrap(x, to)
  {
    hide Pow2;
    Pow2Add(from - to, to);
    var k := 0 - Pow2(from - to);
    assert x - Pow2(from) == x + k * Pow2(to);
    ModShift(x, k, Pow2(to));
  }

  lemma {:induction false} WrapComplement(v: nat, w: nat)
    requires v < Pow2(w)
    ensures Wrap(-1 - v, w) == Pow2(w) - 1 - v
  {
    hide Pow2;
    var m := Pow2(w);
    assert -1 - v == -1 * m + (m - 1 - v);
    DivModUnique(-1 - v, m, -1, m - 1 - v);
  }

  lemma {:induction false} NotMeaning(x: Expr, a: Assignment)
    requires Wf(x)
    ensures Eval(NotCreate(x), a) == Pow2(Width(x)) - 1 - Eval(x, a)
  {
    hide Apply, Pow2, Wrap;
    WrapComplement(Eval(x, a), Width(x));
  }

  lemma {:induction false} SelectPlainMeaning(c: Expr, t: Expr, f: Expr, a: Assignment)
    ensures Eval(Select(c, t, f), a) == if Eval(c, a) == 1 then Eval(t, a) else Eval(f, a)
  {
  }

  lemma {:induction false} SelectBoolMeaning(c: Expr, t: Expr, f: Expr, a: Assignment)
    requires Wf(c) && Width(c) == 1 && SameWidth(t, f) && Width(t) == 1 && !c.Constant? && t != f
    ensures Eval(SelectCreate(c, t, f), a) == if Eval(c, a) == 1 then Eval(t, a) else Eval(f, a)
  {
    hide Apply, Pow2, Wf, Width, Weight, Eval, IsZero, AndCreate, OrCreate;
    var x, z := Eval(c, a), Eval(IsZero(c), a);
    IsZeroMeaning(c, a);
    if t.Constant? { ConstantMeaning(t, a); }
    if f.Constant? { ConstantMeaning(f, a); }
    SelectPlainMeaning(c, t, f, a);
    BoolRange(c, a);
    BoolRange(t, a);
    BoolRange(f, a);
    if t.Constant? {
      if t.value == 1 { OrMeaning(c, f, a); OneBit(x, Eval(f, a)); }
      else { AndMeaning(IsZero(c), f, a); OneBit(z, Eval(f, a)); }
    } else if f.Constant? {
      if f.value == 1 { OrMeaning(IsZero(c), t, a); OneBit(z, Eval(t, a)); }
      else { AndMeaning(c, t, a); OneBit(x, Eval(t, a)); }
    }
  }

  lemma {:induction false} SelectMeaning(c: Expr, t: Expr, f: Expr, a: Assignment)
    requires Wf(c) && Width(c) == 1 && SameWidth(t, f)
    ensures Eval(SelectCreate(c, t, f), a) == if Eval(c, a) == 1 then Eval(t, a) else Eval(f, a)
  {
    hide Apply, Pow2, Wf, Width, Weight, Eval, IsZero, AndCreate, OrCreate;
    SelectPlainMeaning(c, t, f, a);
    if c.Constant? {
      BoolRange(c, a);
      ConstantMeaning(c, a);
    } else if t != f && Width(t) == 1 {
      SelectBoolMeaning(c, t, f, a);
    }
  }

  // -------------------------------------------------------------------- reads

  lemma {:induction false} RollBackMeaning(root: Array, us: Updates, index: Expr, a: Assignment)
    requires WfUpdates(us) && Wf(index) && Width(index) == DOMAIN
    ensures match RollBack(us, index)
      case Found(v) => EvalRead(root, us, Eval(index, a), a) == Eval(v, a)
      case Symbolic(rest) => EvalRead(root, us, Eval(index, a), a) == EvalRead(root, rest, Eval(index, a), a)
      case Exhausted => EvalRead(root, us, Eval(index, a), a) == RootByte(root, Eval(index, a), a)
  {
    hide Apply, Pow2, EqCreate;
    match us
    case Done =>
    case Update(i, v, next) =>
      EqMeaning(index, i, a);
      RollBackMeaning(root, next, index, a);
  }

  /** A read through the write chain, with every rollback it allows. */
  lemma {:induction false} ReadMeaning(root: Array, us: Updates, index: Expr, a: Assignment)
    requires WfArray(root) && WfUpdates(us) && Wf(index) && Width(index) == DOMAIN
    ensures Eval(ReadCreate(root, us, index), a) == EvalRead(root, us, Eval(index, a), a)
  {
    hide Apply, Pow2, RollBack;
    RollBackMeaning(root, us, index, a);
  }
}
