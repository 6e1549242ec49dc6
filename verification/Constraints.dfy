/** The constraint set of a path, which rewrites itself while constraints are
    added to it. */
module Constraints {
  import opened Bits
  import opened Exprs
  import opened Create
  import opened CreateMeaning
  import opened Canonical
  import opened Visitors

  predicate IsBool(e: Expr) {
    Wf(e) && Width(e) == 1
  }

  predicate AllBool(cs: seq<Expr>) {
    forall i :: 0 <= i < |cs| ==> IsBool(cs[i])
  }

  /** The assignment satisfies every constraint of the list. */
  ghost predicate Sat(cs: seq<Expr>, a: Assignment) {
    forall i :: 0 <= i < |cs| ==> Holds(cs[i], a)
  }

  ghost function TotalWeight(cs: seq<Expr>): (n: nat) {
    if cs == [] then 0 else TotalWeight(cs[..|cs| - 1]) + Weight(cs[|cs| - 1])
  }

  lemma {:induction false} Push(cs: seq<Expr>, e: Expr)
    ensures TotalWeight(cs + [e]) == TotalWeight(cs) + Weight(e)
    ensures forall a: Assignment :: Sat(cs + [e], a) <==> Sat(cs, a) && Holds(e, a)
    ensures AllBool(cs) && IsBool(e) ==> AllBool(cs + [e])
    ensures AllCanon(cs) && Canon(e) ==> AllCanon(cs + [e])
  {
    hide Weight, Holds, IsBool, Canon;
    assert (cs + [e])[..|cs|] == cs;
    forall a: Assignment
      ensures Sat(cs + [e], a) <==> Sat(cs, a) && Holds(e, a)
    {
      if Sat(cs + [e], a) {
        assert Holds((cs + [e])[|cs|], a);
        forall i | 0 <= i < |cs| ensures Holds(cs[i], a) {
          assert Holds((cs + [e])[i], a);
        }
      }
    }
  }

  lemma {:induction false} PrefixWeight(cs: seq<Expr>, n: nat)
    requires n <= |cs|
    ensures TotalWeight(cs[..n]) <= TotalWeight(cs)
    decreases |cs|
  {
    hide Weight;
    if n == |cs| {
      assert cs[..n] == cs;
    } else {
      PrefixWeight(cs[..|cs| - 1], n);
      assert cs[..|cs| - 1][..n] == cs[..n];
    }
  }

  /** A conjunction holds exactly when both conjuncts do, and weighs more. */
  lemma {:induction false} Conjuncts(e: Expr)
    requires IsBool(e) && e.Binary? && e.kind == And
    ensures IsBool(e.left) && IsBool(e.right) && Weight(e.left) + Weight(e.right) < Weight(e)
    ensures Canon(e) ==> Canon(e.left) && Canon(e.right)
    ensures forall a: Assignment :: Holds(e, a) <==> Holds(e.left, a) && Holds(e.right, a)
  {
    hide Apply, Pow2;
    forall a: Assignment
      ensures Holds(e, a) <==> Holds(e.left, a) && Holds(e.right, a)
    {
      BoolRange(e.left, a);
      BoolRange(e.right, a);
      OneBit(Eval(e.left, a), Eval(e.right, a));
    }
  }

  /** An equality with a constant on the left is a valid replacement. */
  lemma {:induction false} EqualityParts(e: Expr)
    requires IsBool(e) && e.Binary? && e.kind == Eq && e.left.Constant?
    ensures Wf(e.left) && Wf(e.right) && Width(e.left) == Width(e.right)
    ensures forall a: Assignment :: Holds(e, a) <==> Eval(e.left, a) == Eval(e.right, a)
  {
    hide Apply, Pow2;
    forall a: Assignment
      ensures Holds(e, a) <==> Eval(e.left, a) == Eval(e.right, a)
    {
      EqBits(Eval(e.left, a), Eval(e.right, a), Width(e.left));
    }
  }

  /** What a constraint fixes to a constant: the other side of an equality with one, and
      else the constraint itself, which is true. */
  function Subject(c: Expr): (e: Expr) {
    if c.Binary? && c.kind == Eq && c.left.Constant? then c.right else c
  }

  function Fixed(c: Expr): (v: Expr) {
    if c.Binary? && c.kind == Eq && c.left.Constant? then c.left else Bool(true)
  }

  ghost function Subjects(cs: seq<Expr>): (s: set<Expr>) {
    set i | 0 <= i < |cs| :: Subject(cs[i])
  }

  /** The first constraint on `e` fixes it to `v`. */
  ghost predicate FirstFixes(cs: seq<Expr>, e: Expr, v: Expr) {
    exists i :: 0 <= i < |cs| && Subject(cs[i]) == e && Fixed(cs[i]) == v && forall j :: 0 <= j < i ==> Subject(cs[j]) != e
  }

  /** The table has every subject with its first value. */
  ghost predicate Tabulates(m: map<Expr, Expr>, cs: seq<Expr>) {
    m.Keys == Subjects(cs) && forall e :: e in m ==> FirstFixes(cs, e, m[e])
  }

  lemma {:induction false} TabulateNext(m: map<Expr, Expr>, cs: seq<Expr>, c: Expr)
    requires Tabulates(m, cs)
    ensures Tabulates(if Subject(c) in m then m else m[Subject(c) := Fixed(c)], cs + [c])
  {
    hide Subject, Fixed;
    var ds := cs + [c];
    var r := if Subject(c) in m then m else m[Subject(c) := Fixed(c)];
    assert forall i :: 0 <= i < |cs| ==> ds[i] == cs[i];
    assert ds[|cs|] == c;
    forall e ensures e in r <==> e in Subjects(ds) {
      if e in Subjects(ds) {
        var i :| 0 <= i < |ds| && Subject(ds[i]) == e;
        if i < |cs| { assert Subject(cs[i]) == e; }
      }
      if e in m { var i :| 0 <= i < |cs| && Subject(cs[i]) == e; assert Subject(ds[i]) == e; }
    }
    forall e | e in r ensures FirstFixes(ds, e, r[e]) {
      if e in m {
        var i :| 0 <= i < |cs| && Subject(cs[i]) == e && Fixed(cs[i]) == m[e] && forall j :: 0 <= j < i ==> Subject(cs[j]) != e;
        assert Subject(ds[i]) == e && Fixed(ds[i]) == m[e];
      } else {
        forall j | 0 <= j < |cs| ensures Subject(ds[j]) != e { assert Subject(cs[j]) in Subjects(cs); }
      }
    }
  }

  /** The lists have the same solutions where `src` and `dst` agree. */
  ghost predicate SameUnder(src: Expr, dst: Expr, cs: seq<Expr>, ds: seq<Expr>) {
    forall a: Assignment :: Eval(src, a) == Eval(dst, a) ==> (Sat(cs, a) <==> Sat(ds, a))
  }

  lemma {:induction false} SameAtStart(src: Expr, dst: Expr)
    ensures SameUnder(src, dst, [], [])
  { }

  lemma {:induction false} SameMeans(src: Expr, dst: Expr, cs: seq<Expr>, ds: seq<Expr>)
    requires SameUnder(src, dst, cs, ds)
    ensures forall a: Assignment :: Eval(src, a) == Eval(dst, a) ==> (Sat(cs, a) <==> Sat(ds, a))
  { }

  lemma {:induction false} SameWithOneMore(src: Expr, dst: Expr, cs: seq<Expr>, cs': seq<Expr>, ds: seq<Expr>, e: Expr, c: Expr)
    requires SameUnder(src, dst, cs, ds)
    requires forall a: Assignment :: Eval(src, a) == Eval(dst, a) ==> (Holds(e, a) <==> Holds(c, a))
    requires forall a: Assignment :: Sat(cs', a) <==> Sat(cs, a) && Holds(e, a)
    requires forall a: Assignment :: Sat(ds + [c], a) <==> Sat(ds, a) && Holds(c, a)
    ensures SameUnder(src, dst, cs', ds + [c])
  {
    hide Eval, Sat, Holds;
  }

  /** Some constraint has `src` as a part. */
  ghost predicate Mentions(cs: seq<Expr>, src: Expr) {
    exists i :: 0 <= i < |cs| && Wf(cs[i]) && !Normal({src}, cs[i])
  }

  lemma {:induction false} NothingMentions(src: Expr)
    ensures !Mentions([], src)
  { }

  lemma {:induction false} OneMoreMentions(cs: seq<Expr>, c: Expr, src: Expr, dst: Expr)
    requires ValidVisitor(ReplaceOne(src, dst)) && Wf(c)
    ensures Mentions(cs + [c], src) <==> Mentions(cs, src) || Visit(ReplaceOne(src, dst), c) != c
  {
    VisitChanges(src, dst, c);
    hide Visit, Wf, Normal;
    var ds := cs + [c];
    assert ds[|cs|] == c;
    if Mentions(cs, src) {
      var i :| 0 <= i < |cs| && Wf(cs[i]) && !Normal({src}, cs[i]);
      assert ds[i] == cs[i];
    }
  }

  predicate IsAnd(e: Expr) { e.Binary? && e.kind == And }

  /** No constraint is a constant or a conjunction. */
  predicate AllAtoms(cs: seq<Expr>) {
    forall i :: 0 <= i < |cs| ==> !cs[i].Constant? && !IsAnd(cs[i])
  }

  /** How a constraint that is not a conjunction changes the list: a constant not at all, and
      any other goes to the end of the list as it is, unless it fixes something the list mentions;
      then the list gets lighter before. */
  ghost predicate Appends(before: seq<Expr>, e: Expr, after: seq<Expr>) {
    if e.Constant? then after == before
    else if e.Binary? && e.kind == Eq && e.left.Constant? && Mentions(before, e.right) then
      after != [] && after[|after| - 1] == e && TotalWeight(after) < TotalWeight(before) + Weight(e)
    else after == before + [e]
  }

  lemma {:induction false} PlainAppends(before: seq<Expr>, e: Expr)
    requires !IsAnd(e) && !(e.Binary? && e.kind == Eq && e.left.Constant?)
    ensures Appends(before, e, if e.Constant? then before else before + [e])
    ensures !e.Constant? && AllAtoms(before) ==> AllAtoms(before + [e])
  { }

  lemma {:induction false} AtomAgain(from: seq<Expr>, i: nat, cs: seq<Expr>)
    requires i < |from|
    ensures AllAtoms(from) && AllAtoms(cs) ==> AllAtoms(cs + [from[i]])
  {
    hide IsAnd;
  }

  lemma {:induction false} NoAtoms()
    ensures AllAtoms([]) && TotalWeight([]) == 0
  { }

  lemma {:induction false} RewrittenAppends(before: seq<Expr>, mid: seq<Expr>, e: Expr)
    requires e.Binary? && e.kind == Eq && e.left.Constant?
    requires if Mentions(before, e.right) then TotalWeight(mid) < TotalWeight(before) else mid == before
    ensures Appends(before, e, mid + [e]) && (AllAtoms(mid) ==> AllAtoms(mid + [e]))
  {
    Push(mid, e);
    hide Weight, Mentions, TotalWeight, Sat, Holds, Canon, IsBool;
  }

  class ConstraintManager {
    var constraints: seq<Expr>

    ghost predicate Valid()
      reads this
    {
      AllBool(constraints)
    }

    constructor ()
      ensures Valid() && constraints == []
    {
      constraints := [];
    }

    /** Rewrites every constraint with a visitor that replaces `src` by `dst`.  The
        equality of the two is not in the list, so it survives.  `ok` is false when
        a rewritten constraint was the constant false. */
    method RewriteConstraints(visitor: ExprVisitor, ghost src: Expr, ghost dst: Expr)
      returns (changed: bool, ok: bool)
      requires Valid() && visitor.Valid() && visitor.v == ReplaceOne(src, dst)
      modifies this, visitor
      ensures Valid() && TotalWeight(constraints) <= old(TotalWeight(constraints))
      ensures ok ==> forall a: Assignment :: Eval(src, a) == Eval(dst, a) ==>
        (Sat(constraints, a) <==> Sat(old(constraints), a))
      ensures !ok ==> forall a: Assignment :: Eval(src, a) == Eval(dst, a) ==> !Sat(old(constraints), a)
      ensures ok && !changed ==> constraints == old(constraints)
      ensures ok ==> (changed <==> Mentions(old(constraints), src))
      ensures ok && changed ==> TotalWeight(constraints) < old(TotalWeight(constraints))
      ensures ok && old(AllAtoms(constraints)) ==> AllAtoms(constraints)
      ensures old(AllCanon(constraints)) ==> AllCanon(constraints)
      decreases TotalWeight(constraints), 0
    {
      hide Canon, Weight, IsBool, Holds, Sat, Visit, Eval, Pow2, Apply, Mentions, SameUnder, Appends, AllAtoms, TotalWeight;
      NoAtoms();
      NothingMentions(src);
      SameAtStart(src, dst);
      var from := constraints;
      constraints := [];
      changed, ok := false, true;
      assert from[..0] == [];
      for i := 0 to |from|
        invariant Valid() && visitor.Valid() && ok
        invariant TotalWeight(constraints) <= TotalWeight(from[..i])
        invariant SameUnder(src, dst, constraints, from[..i])
        invariant !changed ==> constraints == from[..i]
        invariant changed <==> Mentions(from[..i], src)
        invariant changed ==> TotalWeight(constraints) < TotalWeight(from[..i])
        invariant AllAtoms(from) ==> AllAtoms(constraints)
        invariant AllCanon(from) ==> AllCanon(constraints)
      {
        var ce := from[i];
        Unfold(ce);
        var e := visitor.VisitMemo(ce);
        Rewritten(src, dst, ce);
        assert from[..i + 1] == from[..i] + [ce];
        Push(from[..i], ce);
        OneMoreMentions(from[..i], ce, src, dst);
        PrefixWeight(from, i + 1);
        ghost var before := constraints;
        if e != ce {
          ok := AddConstraintInternal(e);
          changed := true;
          if !ok {
            SameMeans(src, dst, before, from[..i]);
            PrefixSat(from, i + 1);
            return;
          }
        } else {
          Push(constraints, ce);
          AtomAgain(from, i, constraints);
          constraints := constraints + [ce];
        }
        SameWithOneMore(src, dst, before, constraints, from[..i], e, ce);
      }
      assert from[..|from|] == from;
      SameMeans(src, dst, constraints, from);
    }

    /** Adds a constraint, splitting conjunctions and rewriting the list with new
        equalities.  `ok` is false when the source's "invalid (false) constraint"
        assertion would stop the run. */
    method AddConstraintInternal(e: Expr) returns (ok: bool)
      requires Valid() && IsBool(e)
      modifies this
      ensures Valid() && TotalWeight(constraints) <= old(TotalWeight(constraints)) + Weight(e)
      ensures ok ==> forall a: Assignment ::
        Sat(constraints, a) <==> Sat(old(constraints), a) && Holds(e, a)
      ensures !ok ==> forall a: Assignment :: !(Sat(old(constraints), a) && Holds(e, a))
      ensures old(AllCanon(constraints)) && Canon(e) ==> AllCanon(constraints)
      ensures ok && !IsAnd(e) ==> Appends(old(constraints), e, constraints)
      ensures ok && old(AllAtoms(constraints)) ==> AllAtoms(constraints)
      decreases TotalWeight(constraints) + Weight(e), 1
    {
      hide Canon, Weight, IsBool, Holds, Sat, Eval, Pow2, Apply, Visit, Mentions, Appends, AllAtoms, TotalWeight;
      if e.Constant? {
        ConstantTruth(e);
        PlainAppends(constraints, e);
        ok := e.value == 1;
      } else if e.Binary? && e.kind == And {
        Conjuncts(e);
        ok := AddConstraintInternal(e.left);
        if ok {
          ok := AddConstraintInternal(e.right);
        }
      } else if e.Binary? && e.kind == Eq && e.left.Constant? {
        ok := AddEquality(e);
      } else {
        Push(constraints, e);
        PlainAppends(constraints, e);
        constraints := constraints + [e];
        ok := true;
      }
    }

    /** An equality with a constant first rewrites the list, and then joins it. */
    method AddEquality(e: Expr) returns (ok: bool)
      requires Valid() && IsBool(e) && e.Binary? && e.kind == Eq && e.left.Constant?
      modifies this
      ensures Valid() && TotalWeight(constraints) <= old(TotalWeight(constraints)) + Weight(e)
      ensures ok ==> forall a: Assignment ::
        Sat(constraints, a) <==> Sat(old(constraints), a) && Holds(e, a)
      ensures !ok ==> forall a: Assignment :: !(Sat(old(constraints), a) && Holds(e, a))
      ensures old(AllCanon(constraints)) && Canon(e) ==> AllCanon(constraints)
      ensures ok ==> Appends(old(constraints), e, constraints)
      ensures ok && old(AllAtoms(constraints)) ==> AllAtoms(constraints)
      decreases TotalWeight(constraints) + Weight(e), 0
    {
      hide Canon, Weight, IsBool, Holds, Sat, Eval, Pow2, Apply, Visit, Mentions, Appends, AllAtoms, TotalWeight;
      EqualityParts(e);
      var visitor := new ExprVisitor(ReplaceOne(e.right, e.left));
      var changed;
      changed, ok := RewriteConstraints(visitor, e.right, e.left);
      if ok {
        Push(constraints, e);
        RewrittenAppends(old(constraints), constraints, e);
        constraints := constraints + [e];
      }
    }

    /** Rewrites an expression with everything the constraints fix to a constant. */
    method SimplifyExpr(e: Expr) returns (r: Expr)
      requires Valid() && Wf(e)
      ensures Wf(r) && Width(r) == Width(e) && Weight(r) <= Weight(e)
      ensures forall a: Assignment :: Sat(constraints, a) ==> Eval(r, a) == Eval(e, a)
      ensures Canon(e) ==> Canon(r)
      ensures Normal(Subjects(constraints), r)
      ensures !e.Constant? && NormalParts(Subjects(constraints), e) ==>
        if e in Subjects(constraints) then FirstFixes(constraints, e, r) else r == e
    {
      hide Canon, Weight, IsBool, Holds, Visit, Eval, Pow2, Apply, Wf, Width, AgreesUnder, Tabulates, Normal, NormalParts, FirstFixes;
      if e.Constant? {
        ConstantNormal(Subjects(constraints), e);
        return e;
      }
      var equalities: map<Expr, Expr> := map[];
      NothingToReplace();
      NothingTabulated();
      for i := 0 to |constraints|
        invariant ToConstants(equalities)
        invariant forall a: Assignment :: Sat(constraints, a) ==> AgreesUnder(equalities, a)
        invariant Tabulates(equalities, constraints[..i])
      {
        var c := constraints[i];
        assert constraints[..i + 1] == constraints[..i] + [c];
        TabulateNext(equalities, constraints[..i], c);
        Unfold(c);
        var key, value := c, Bool(true);
        if c.Binary? && c.kind == Eq && c.left.Constant? {
          EqualityParts(c);
          key, value := c.right, c.left;
        } else {
          TrueReplaces(c);
        }
        if key !in equalities {
          Extended(equalities, key, value);
          equalities := equalities[key := value];
        }
      }
      NothingToReplace();
      var visitor := new ExprVisitor(ReplaceMany(equalities));
      r := visitor.VisitMemo(e);
      forall a: Assignment | Sat(constraints, a)
        ensures Eval(r, a) == Eval(e, a)
      {
        VisitMeaning(visitor.v, e, a);
      }
      if Canon(e) { VisitCanon(visitor.v, e); }
      assert Shrinks(r, e);
      assert constraints[..|constraints|] == constraints;
      TabulateMeans(equalities, constraints, e);
      VisitNormal(equalities, e);
      if NormalParts(equalities.Keys, e) { VisitKey(equalities, e); }
    }

    /** Adding a constraint keeps exactly the assignments that satisfied the old set
        and the new constraint, and fails only if there is none. */
    method AddConstraint(e: Expr) returns (ok: bool)
      requires Valid() && IsBool(e)
      modifies this
      ensures Valid()
      ensures ok ==> forall a: Assignment ::
        Sat(constraints, a) <==> Sat(old(constraints), a) && Holds(e, a)
      ensures !ok ==> forall a: Assignment :: !(Sat(old(constraints), a) && Holds(e, a))
      ensures old(AllCanon(constraints)) && Canon(e) ==> AllCanon(constraints)
    {
      hide Canon, Weight, Sat, Eval, Pow2, Apply;
      var s := SimplifyExpr(e);
      ok := AddConstraintInternal(s);
    }
  }

  // ------------------------------------------------------------------- helpers

  lemma {:induction false} Unfold(e: Expr)
    ensures IsBool(e) <==> Wf(e) && Width(e) == 1
  {
  }

  lemma {:induction false} ConstantTruth(e: Expr)
    requires IsBool(e) && e.Constant?
    ensures forall a: Assignment :: Holds(e, a) <==> e.value == 1
  {
  }

  /** Visiting a constraint with a sound replacement keeps its truth value. */
  lemma {:induction false} Rewritten(src: Expr, dst: Expr, c: Expr)
    requires ValidVisitor(ReplaceOne(src, dst)) && IsBool(c)
    ensures IsBool(Visit(ReplaceOne(src, dst), c))
    ensures Visit(ReplaceOne(src, dst), c) == c || Weight(Visit(ReplaceOne(src, dst), c)) < Weight(c)
    ensures forall a: Assignment :: Eval(src, a) == Eval(dst, a) ==>
      (Holds(Visit(ReplaceOne(src, dst), c), a) <==> Holds(c, a))
    ensures Canon(c) ==> Canon(Visit(ReplaceOne(src, dst), c))
  {
    hide Canon, Weight, Visit, Eval, Pow2, Apply, Wf, Width;
    var v := ReplaceOne(src, dst);
    assert Shrinks(Visit(v, c), c);
    forall a: Assignment | Eval(src, a) == Eval(dst, a)
      ensures Holds(Visit(v, c), a) <==> Holds(c, a)
    {
      VisitMeaning(v, c, a);
    }
    if Canon(c) { VisitCanon(v, c); }
  }

  lemma {:induction false} PrefixSat(cs: seq<Expr>, n: nat)
    requires n <= |cs|
    ensures forall a: Assignment :: Sat(cs, a) ==> Sat(cs[..n], a)
  {
    hide Holds;
  }

  lemma {:induction false} NothingTabulated()
    ensures Tabulates(map[], [])
  { }

  lemma {:induction false} TabulateMeans(m: map<Expr, Expr>, cs: seq<Expr>, e: Expr)
    requires Tabulates(m, cs)
    ensures m.Keys == Subjects(cs)
    ensures e in m ==> FirstFixes(cs, e, m[e])
  { }

  lemma {:induction false} NothingToReplace()
    ensures forall a: Assignment :: AgreesUnder(map[], a)
  {
  }

  /** A constraint may be replaced by true where it holds. */
  lemma {:induction false} TrueReplaces(c: Expr)
    requires IsBool(c)
    ensures Wf(Bool(true)) && Width(Bool(true)) == 1
    ensures forall a: Assignment :: Holds(c, a) ==> Eval(Bool(true), a) == Eval(c, a)
  {
    assert Pow2(1) == 2;
  }

  lemma {:induction false} Extended(m: map<Expr, Expr>, key: Expr, value: Expr)
    ensures forall a: Assignment :: AgreesUnder(m, a) && Eval(value, a) == Eval(key, a) ==>
      AgreesUnder(m[key := value], a)
  {
    hide Eval;
  }

  // ---------------------------------------------------------- parts come first

  function Cell(i: nat): (e: Expr) { Read(Array("a", 8, []), Done, Constant(i, DOMAIN)) }

  function Const8(v: nat): (e: Expr) { Constant(v, RANGE) }

  lemma {:induction false} CellParts(i: nat, keys: set<Expr>)
    requires i < 8
    ensures Wf(Cell(i)) && Width(Cell(i)) == RANGE && !Cell(i).Constant? && NormalParts(keys, Cell(i))
  {
    Pow2Monotonic(3, DOMAIN);
    assert Pow2(3) == 8;
    hide Weight;
    assert Kids(Cell(i)) == [Constant(i, DOMAIN)];
  }

  /** The sum of a constant and a cell. */
  lemma {:induction false} SumOfCell(c: nat, i: nat, keys: set<Expr>)
    requires 0 < c < 8 && i < 8 && Cell(i) !in keys
    ensures var l, y := Const8(c), Cell(i);
            && Wf(l) && Wf(y) && Width(l) == Width(y)
            && BinaryCreate(Add, l, y) == Binary(Add, l, y) && NormalParts(keys, Binary(Add, l, y))
  {
    CellParts(i, keys);
    RangePow2();
    var r := Binary(Add, Const8(c), Cell(i));
    hide Pow2, Weight;
    assert Kids(r) == [Const8(c), Cell(i)];
  }

  lemma {:induction false} BinaryRebuilt(k: Kind, x: Expr, y: Expr, l: Expr, r: Expr)
    requires Wf(Binary(k, x, y)) && Wf(Binary(k, l, r)) && Width(l) == Width(x)
    ensures Kids(Binary(k, x, y)) == [x, y] && Replaces([l, r], Kids(Binary(k, x, y))) && Rebuild(Binary(k, x, y), [l, r]) == BinaryCreate(k, l, r)
  {
    hide Pow2, Apply, Weight, BinaryCreate;
  }

  lemma {:induction false} VisitedAgain(m: map<Expr, Expr>, e: Expr, ks: seq<Expr>)
    requires ToConstants(m) && Wf(e) && !e.Constant? && Replaces(ks, Kids(e)) && ks != Kids(e)
    requires (forall i :: 0 <= i < |ks| ==> Wf(Kids(e)[i]) && Visit(ReplaceMany(m), Kids(e)[i]) == ks[i])
    ensures Visit(ReplaceMany(m), e) == After(ReplaceMany(m), Visit(ReplaceMany(m), Rebuild(e, ks)))
  {
    hide Pow2, Apply, Weight, Wf, Width, Rebuild, Kids, VisitAll;
    var v := ReplaceMany(m);
    KidWeights(e, Kids(e));
    forall i | 0 <= i < |ks| ensures |VisitAll(v, Kids(e))| == |ks| && VisitAll(v, Kids(e))[i] == ks[i] { VisitAllAt(v, Kids(e), i); }
    assert VisitAll(v, Kids(e)) == ks;
  }

  lemma {:induction false} NotAfter(m: map<Expr, Expr>, e: Expr)
    requires e !in m
    ensures After(ReplaceMany(m), e) == e
  { }

  lemma {:induction false} RebuiltSum(m: map<Expr, Expr>, l: Expr, x: Expr, y: Expr)
    requires ToConstants(m) && Wf(Binary(Add, x, y)) && Wf(Binary(Add, l, y)) && l != x && Width(l) == Width(x)
    requires Wf(x) && Wf(y) && Visit(ReplaceMany(m), x) == l && Visit(ReplaceMany(m), y) == y
    requires BinaryCreate(Add, l, y) == Binary(Add, l, y) && Visit(ReplaceMany(m), Binary(Add, l, y)) == Binary(Add, l, y)
    requires Binary(Add, l, y) !in m
    ensures Visit(ReplaceMany(m), Binary(Add, x, y)) == Binary(Add, l, y)
  {
    hide *;
    BinaryRebuilt(Add, x, y, l, y);
    NotAfter(m, Binary(Add, l, y));
    VisitedAgain(m, Binary(Add, x, y), [l, y]);
  }

  lemma {:induction false} TwoCells(m: map<Expr, Expr>)
    requires m == map[Cell(0) := Const8(5), Binary(Add, Cell(0), Cell(1)) := Const8(7)]
    ensures ToConstants(m) && Wf(Binary(Add, Cell(0), Cell(1)))
    ensures Cell(1) !in m && Binary(Add, Const8(5), Cell(1)) !in m
  {
    RangePow2();
    CellParts(0, {});
    CellParts(1, {});
    hide Pow2;
  }

  lemma {:induction false} CellVisits(m: map<Expr, Expr>, i: nat)
    requires ToConstants(m) && i < 8
    ensures Wf(Cell(i)) && Visit(ReplaceMany(m), Cell(i)) == if Cell(i) in m then m[Cell(i)] else Cell(i)
  {
    hide *;
    CellParts(i, m.Keys);
    VisitKey(m, Cell(i));
  }

  lemma {:induction false} SumVisits(m: map<Expr, Expr>)
    requires ToConstants(m) && Cell(1) !in m && Binary(Add, Const8(5), Cell(1)) !in m
    ensures Wf(Binary(Add, Const8(5), Cell(1)))
    ensures Visit(ReplaceMany(m), Binary(Add, Const8(5), Cell(1))) == Binary(Add, Const8(5), Cell(1))
  {
    SumOfCell(5, 1, m.Keys);
    assert Wf(Binary(Add, Const8(5), Cell(1)));
    hide *;
    VisitKey(m, Binary(Add, Const8(5), Cell(1)));
  }

  /** The condition on proper parts matters: with the first cell fixed to 5 and the sum of two
      cells to 7, simplifying the sum gives 5 plus the second cell, not 7, since parts are
      replaced first and the new sum is not the one that is fixed. */
  lemma {:induction false} PartsComeFirst()
    ensures var sum := Binary(Add, Cell(0), Cell(1));
            var m := map[Cell(0) := Const8(5), sum := Const8(7)];
            ToConstants(m) && Wf(sum) && Visit(ReplaceMany(m), sum) == Binary(Add, Const8(5), Cell(1))
  {
    var m := map[Cell(0) := Const8(5), Binary(Add, Cell(0), Cell(1)) := Const8(7)];
    TwoCells(m);
    CellVisits(m, 0);
    CellVisits(m, 1);
    SumVisits(m);
    SumOfCell(5, 1, m.Keys);
    CellParts(0, m.Keys);
    assert Const8(5) != Cell(0) && Width(Const8(5)) == Width(Cell(0)) && Cell(0) in m && m[Cell(0)] == Const8(5);
    hide *;
    RebuiltSum(m, Const8(5), Cell(0), Cell(1));
  }
}
