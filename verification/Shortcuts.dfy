/** What the smart constructors save: constants are computed at once, units and zeros vanish,
    arithmetic on single bits becomes logic, and parts of a concatenation come back whole. */
module Shortcuts {
  import opened Bits
  import opened Exprs
  import opened Create

  function One(w: nat): (e: Expr) { Constant(1, w) }

  function Ones(w: nat): (e: Expr) { Constant(Pow2(w) - 1, w) }

  lemma {:induction false} UnitsFit(w: nat)
    requires w > 0
    ensures Wf(Zero(w)) && Wf(One(w)) && Wf(Ones(w))
    ensures Width(Zero(w)) == w && Width(One(w)) == w && Width(Ones(w)) == w
  { }

  /** Operators on constants yield constants. */
  lemma {:induction false} ConstantsFold(k: Kind, l: Expr, r: Expr)
    requires SameWidth(l, r) && l.Constant? && r.Constant?
    ensures BinaryCreate(k, l, r).Constant?
  {
    hide Apply, Pow2, Weight;
  }

  /** Neutral and absorbing operands, on either side. */
  lemma {:induction false} ArithmeticUnits(x: Expr)
    requires Wf(x) && !x.Constant?
    ensures var w := Width(x);
            && w > 0 && SameWidth(x, Zero(w)) && SameWidth(x, One(w))
            && AddCreate(Zero(w), x) == AddCreate(x, Zero(w)) == x
            && MulCreate(One(w), x) == MulCreate(x, One(w)) == x
            && MulCreate(Zero(w), x) == MulCreate(x, Zero(w)) == Zero(w)
  {
    UnitsFit(Width(x));
    assert Pow2(1) == 2;
    hide Apply, Weight, Wf;
  }

  lemma {:induction false} LogicalUnits(x: Expr)
    requires Wf(x) && !x.Constant?
    ensures var w := Width(x);
            && w > 0 && SameWidth(x, Zero(w)) && SameWidth(x, Ones(w))
            && AndCreate(Ones(w), x) == AndCreate(x, Ones(w)) == x
            && AndCreate(Zero(w), x) == AndCreate(x, Zero(w)) == Zero(w)
            && OrCreate(Zero(w), x) == OrCreate(x, Zero(w)) == x
            && OrCreate(Ones(w), x) == OrCreate(x, Ones(w)) == Ones(w)
            && XorCreate(Zero(w), x) == XorCreate(x, Zero(w)) == x
  {
    UnitsFit(Width(x));
    hide Apply, Weight, Wf;
  }

  /** An expression equals itself. */
  lemma {:induction false} EqSelf(i: Expr)
    requires Wf(i)
    ensures EqCreate(i, i) == Bool(true)
  {
    hide Pow2, Weight;
  }

  /** A bit compared with true is itself, compared with false twice is itself, and a
      disjunction is false exactly if both sides are. */
  lemma {:induction false} Negations(x: Expr, y: Expr)
    requires SameWidth(x, y) && Width(x) == 1 && !x.Constant? && !y.Constant?
    ensures Wf(Bool(true)) && EqCreate(Bool(true), x) == x
    ensures SameWidth(Bool(false), Binary(Eq, Bool(false), x)) && EqCreate(Bool(false), Binary(Eq, Bool(false), x)) == x
    ensures EqCreate(Bool(false), Binary(Or, x, y)) == AndCreate(IsZero(x), IsZero(y))
  {
    assert Pow2(1) == 2;
    var no := Binary(Eq, Bool(false), x);
    assert Wf(Bool(false)) && Width(Bool(false)) == 1;
    assert Wf(no) && Width(no) == 1;
    assert EqCreate(Bool(false), no) == EqPartialR(Bool(false), no);
    hide Apply, Weight, IsZero;
  }

  /** An expression minus itself is zero, except for single bits, where the difference is an
      exclusive or that is not simplified. */
  lemma {:induction false} SelfDifference(x: Expr)
    requires Wf(x) && !x.Constant?
    ensures SubCreate(x, x) == if Width(x) == 1 then Binary(Xor, x, x) else Zero(Width(x))
  {
    hide Apply, Pow2, Weight;
  }

  /** Comparing with an extension outside its range is false at once. */
  lemma {:induction false} OutOfRange(c: Expr, x: Expr)
    requires Wf(x) && !x.Constant? && Wf(c) && c.Constant? && Width(x) < c.width && c.value >= Pow2(Width(x))
    ensures SameWidth(c, ZExt(x, c.width)) && EqCreate(c, ZExt(x, c.width)) == Bool(false)
  {
    hide Apply, Pow2, Weight;
  }

  /** A choice between equals, or with a known condition, is no choice. */
  lemma {:induction false} NoChoice(c: Expr, t: Expr, f: Expr)
    requires Wf(c) && Width(c) == 1 && SameWidth(t, f)
    ensures SelectCreate(c, t, t) == t
    ensures Wf(Bool(true)) && SelectCreate(Bool(true), t, f) == t && Wf(Bool(false)) && SelectCreate(Bool(false), t, f) == f
  {
    assert Pow2(1) == 2;
    hide Apply, Weight;
  }

  /** The parts of a concatenation are its operands. */
  lemma {:induction false} PartsOfConcat(l: Expr, r: Expr)
    requires Wf(l) && Wf(r)
    ensures ExtractCreate(Concat(l, r), Width(r), Width(l)) == l
    ensures ExtractCreate(Concat(l, r), 0, Width(r)) == r
  {
    hide Apply, Pow2, Weight;
  }

  /** Two extracts that make up the whole are the whole. */
  lemma {:induction false} SplitAndJoin(x: Expr, k: nat)
    requires Wf(x) && !x.Constant? && !x.Concat? && 0 < k < Width(x)
    ensures ConcatCreate(ExtractCreate(x, k, Width(x) - k), ExtractCreate(x, 0, k)) == x
  {
    hide Apply, Pow2, Weight;
  }

  /** A read at the index just written, whatever it is, is the value written. */
  lemma {:induction false} ReadJustWritten(root: Array, us: Updates, i: Expr, v: Expr)
    requires WfArray(root) && WfUpdates(Update(i, v, us))
    ensures ReadCreate(root, Update(i, v, us), i) == v
  {
    hide Apply, Pow2, Weight, EqCreate;
    EqSelf(i);
  }

  /** A read in bounds passes over writes at other constant indices. */
  lemma {:induction false} ReadPastWrite(root: Array, us: Updates, i: Expr, v: Expr, j: Expr)
    requires WfArray(root) && WfUpdates(Update(j, v, us)) && Wf(i) && Width(i) == DOMAIN
    requires i.Constant? && j.Constant? && i.value != j.value && i.value < root.size
    ensures ReadCreate(root, Update(j, v, us), i) == ReadCreate(root, us, i)
  {
    assert EqCreate(i, j) == Bool(false);
    hide Apply, Pow2, Weight, EqCreate;
  }
}
