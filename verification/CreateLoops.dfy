/** The constructors that work by loops, proved against the functions that say what
    they build. */
module CreateLoops {
  import opened Bits
  import opened Exprs
  import opened Create
  import opened CreateMeaning

  /** Walks the write chain from the newest write until one settles the index. */
  method ReadLoop(root: Array, us: Updates, index: Expr) returns (e: Expr)
    requires WfArray(root) && WfUpdates(us) && Wf(index) && Width(index) == DOMAIN
    ensures e == ReadCreate(root, us, index)
  {
    hide EqCreate, Wf, Width, Weight, Pow2;
    var un, hasSymbolicWrites := us, false;
    while un.Update? && !hasSymbolicWrites
      invariant WfUpdates(un)
      invariant RollBack(us, index) == RollBack(un, index)
      invariant hasSymbolicWrites ==> RollBack(us, index) == Symbolic(un)
      decreases un, !hasSymbolicWrites
    {
      var cond := EqCreate(index, un.index);
      if cond.Constant? {
        if cond.value == 1 {
          return un.value;
        }
        un := un.next;
      } else {
        hasSymbolicWrites := true;
      }
    }
    if IsConstantArray(root) && !hasSymbolicWrites && index.Constant? && index.value < root.size {
      return Constant(root.constantValues[index.value], RANGE);
    }
    if index.Constant? && index.value < root.size {
      return Read(root, un, index);
    }
    e := Read(root, us, index);
  }

  /** Concatenates from the right: the last two first, then each one before them. */
  method ConcatLoop(kids: seq<Expr>) returns (e: Expr)
    requires kids != [] && forall i :: 0 <= i < |kids| ==> Wf(kids[i])
    ensures e == ConcatN(kids)
  {
    hide ConcatCreate, Wf, Weight, Width;
    if |kids| == 1 {
      return kids[0];
    }
    var n := |kids|;
    assert kids[n - 2..] == [kids[n - 2]] + [kids[n - 1]];
    assert kids[n - 2..][1..] == [kids[n - 1]];
    e := ConcatCreate(kids[n - 2], kids[n - 1]);
    for i := n - 2 downto 0
      invariant 0 <= i <= n - 2 && e == ConcatN(kids[i..])
    {
      assert kids[i..][1..] == kids[i + 1..];
      e := ConcatCreate(kids[i], e);
    }
    assert kids[0..] == kids;
  }

  /** A disjunction that lists the places where a constant array holds the byte. */
  ghost function PlacesValue(bytes: seq<Byte>, c: nat, n: nat, i: nat): (b: bool)
    requires n <= |bytes|
  {
    exists k :: 0 <= k < n && bytes[k] == c && k == i
  }

  /** How many of the first `n` cells hold the byte. */
  function Matches(bytes: seq<Byte>, c: nat, n: nat): (m: nat)
    requires n <= |bytes|
  {
    if n == 0 then 0 else Matches(bytes, c, n - 1) + if bytes[n - 1] == c then 1 else 0
  }

  lemma {:induction false} MatchesGrow(bytes: seq<Byte>, c: nat, i: nat, n: nat)
    requires i <= n <= |bytes|
    ensures Matches(bytes, c, i) <= Matches(bytes, c, n)
  {
    if i == n {
    } else {
      MatchesGrow(bytes, c, i, n - 1);
    }
  }

  /** The equality is listed cell by cell: the array is constant and unwritten, and at most a
      hundred cells hold the byte. */
  predicate Listable(cl: Expr, rd: Expr)
    requires Wf(rd) && rd.Read? && cl.Constant?
  {
    IsConstantArray(rd.root) && rd.updates.Done? && Matches(rd.root.constantValues, cl.value, rd.root.size) <= 100
  }

  /** Turns an equality with a read of an unwritten constant array into a disjunction
      on the index.  It is faithful for in-range indices, and false beyond them. */
  method ConstArrayEq(cl: Expr, rd: Expr) returns (e: Expr)
    requires Wf(rd) && rd.Read? && Wf(cl) && cl.Constant? && cl.width == RANGE && rd.root.size < Pow2(DOMAIN)
    ensures Wf(e) && Width(e) == 1
    ensures forall a: Assignment :: Eval(rd.index, a) < rd.root.size ==>
      Eval(e, a) == B2N(cl.value == Eval(rd, a))
    ensures forall a: Assignment :: Eval(rd.index, a) >= rd.root.size ==>
      Eval(e, a) == 0 || Eval(e, a) == B2N(cl.value == Eval(rd, a))
    ensures if Listable(cl, rd) then forall a: Assignment :: Eval(rd.index, a) >= rd.root.size ==> Eval(e, a) == 0
            else e == EqPlain(cl, rd)
  {
    hide Pow2, Apply, EqCreate, OrCreate, Eval, Width, Wf;
    ReadParts(cl, rd);
    if !IsConstantArray(rd.root) || rd.updates.Update? {
      return EqPlain(cl, rd);
    }
    var matches := 0;
    e := Bool(false);
    FalseMeaning();
    for i := 0 to rd.root.size
      invariant Wf(e) && Width(e) == 1
      invariant matches == Matches(rd.root.constantValues, cl.value, i) <= 100
      invariant forall a: Assignment ::
        Eval(e, a) == B2N(PlacesValue(rd.root.constantValues, cl.value, i, Eval(rd.index, a)))
    {
      if rd.root.constantValues[i] == cl.value {
        matches := matches + 1;
        if matches > 100 {
          MatchesGrow(rd.root.constantValues, cl.value, i + 1, rd.root.size);
          return EqPlain(cl, rd);
        }
        AddPlace(e, rd.index, i);
        e := OrCreate(e, EqCreate(rd.index, Constant(i, DOMAIN)));
      }
    }
  }

  lemma {:induction false} FalseMeaning()
    ensures Wf(Bool(false)) && Width(Bool(false)) == 1 && forall a: Assignment :: Eval(Bool(false), a) == 0
  {
    assert Pow2(1) == 2;
  }

  lemma {:induction false} ReadParts(cl: Expr, rd: Expr)
    requires Wf(rd) && rd.Read? && Wf(cl) && cl.Constant? && cl.width == RANGE
    ensures Width(cl) == RANGE == Width(rd) && Wf(rd.index) && Width(rd.index) == DOMAIN && WfArray(rd.root)
    ensures forall a: Assignment :: Eval(EqPlain(cl, rd), a) == B2N(cl.value == Eval(rd, a))
    ensures rd.updates.Done? ==> forall a: Assignment :: Eval(rd, a) == RootByte(rd.root, Eval(rd.index, a), a)
  {
    hide Apply, Pow2;
    forall a: Assignment
      ensures Eval(EqPlain(cl, rd), a) == B2N(cl.value == Eval(rd, a))
    {
      EqBits(cl.value, Eval(rd, a), RANGE);
    }
  }

  lemma {:induction false} AddPlace(e: Expr, index: Expr, i: nat)
    requires Wf(e) && Width(e) == 1 && Wf(index) && Width(index) == DOMAIN && i < Pow2(DOMAIN)
    ensures Wf(Constant(i, DOMAIN)) && Width(Constant(i, DOMAIN)) == DOMAIN
    ensures forall a: Assignment ::
      (Eval(OrCreate(e, EqCreate(index, Constant(i, DOMAIN))), a) == B2N(Eval(e, a) == 1 || Eval(index, a) == i))
  {
    hide Apply, EqCreate, OrCreate, Pow2;
    var k := Constant(i, DOMAIN);
    forall a: Assignment
      ensures Eval(OrCreate(e, EqCreate(index, k)), a) == B2N(Eval(e, a) == 1 || Eval(index, a) == i)
    {
      EqMeaning(index, k, a);
      BoolRange(e, a);
      OrMeaning(e, EqCreate(index, k), a);
      OneBit(Eval(e, a), Eval(EqCreate(index, k), a));
    }
  }
}
