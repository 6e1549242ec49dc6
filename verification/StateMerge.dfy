/** Merging one execution state into another that stopped at the same place. */
module StateMerge {
  import opened Bits
  import opened Options
  import opened Exprs
  import opened Create
  import opened CreateMeaning
  import opened Canonical
  import opened Visitors
  import opened Constraints
  import opened ByteArrays
  import opened Memory

  /** A constraint built by the constructors. */
  predicate IsCond(e: Expr) {
    IsBool(e) && Canon(e)
  }

  lemma {:induction false} CondIsBool(e: Expr)
    requires IsCond(e)
    ensures IsBool(e) && Canon(e) && Wf(e) && Width(e) == 1
  {
    hide Wf, Width, Canon;
  }

  // -------------------------------------------------------- one memory object

  /** What `dx` denotes where the condition holds, and what `dy` denotes elsewhere. */
  ghost function Choice(inA: Expr, dx: imap<Assignment, seq<nat>>, dy: imap<Assignment, seq<nat>>, size: nat): (d: imap<Assignment, seq<nat>>)
    requires IsDenotation(dx, size) && IsDenotation(dy, size)
    ensures IsDenotation(d, size)
    ensures forall a: Assignment :: d[a] == if Holds(inA, a) then dx[a] else dy[a]
  {
    imap a: Assignment | true :: if Holds(inA, a) then dx[a] else dy[a]
  }

  /** The choice made for the first `i` bytes only. */
  ghost predicate ChosenBelow(d: imap<Assignment, seq<nat>>, inA: Expr, dx: imap<Assignment, seq<nat>>, dy: imap<Assignment, seq<nat>>,
      size: nat, i: nat)
    requires IsDenotation(d, size) && IsDenotation(dx, size) && IsDenotation(dy, size)
  {
    forall a: Assignment, j :: 0 <= j < size ==>
      d[a][j] == if j < i && !Holds(inA, a) then dy[a][j] else dx[a][j]
  }

  /** Byte `i` becomes the select of the two states' bytes, in place. */
  method MergeObject(w: ObjectState, other: ObjectState, inA: Expr)
    requires w.Valid() && other.Valid() && IsCond(inA)
    requires w != other && w.concreteStore != other.concreteStore && w.size == other.size
    modifies w`concreteMask, w`flushMask, w`knownSymbolics, w`root, w`head, w.concreteStore, other`root, other`head
    ensures w.Valid() && other.Valid() && other.Denotation() == old(other.Denotation())
    ensures IsDenotation(old(w.Denotation()), w.size) && IsDenotation(old(other.Denotation()), w.size)
    ensures w.Denotation() == Choice(inA, old(w.Denotation()), old(other.Denotation()), w.size)
  {
    hide *;
    ghost var dx: imap<Assignment, seq<nat>>, dy: imap<Assignment, seq<nat>> := w.Denotation(), other.Denotation();
    w.DenotationShape();
    other.DenotationShape();
    NoneChosen(inA, dx, dy, w.size);
    for i := 0 to w.size
      invariant w.Valid() && other.Valid() && other.Denotation() == dy
      invariant IsDenotation(w.Denotation(), w.size) && ChosenBelow(w.Denotation(), inA, dx, dy, w.size, i)
    {
      ghost var d := w.Denotation();
      MergeByte(w, other, inA, i);
      OneMoreChosen(d, w.Denotation(), inA, dx, dy, w.size, i);
    }
    AllChosen(w.Denotation(), inA, dx, dy, w.size);
  }

  /** `d'` is `d` with byte `i` replaced by the choice between `d` and `dy`. */
  ghost predicate ByteChosen(d: imap<Assignment, seq<nat>>, d': imap<Assignment, seq<nat>>, inA: Expr, dy: imap<Assignment, seq<nat>>,
      size: nat, i: nat)
    requires IsDenotation(d, size) && IsDenotation(d', size) && IsDenotation(dy, size) && i < size
  {
    forall a: Assignment :: d'[a] == d[a][i := if Holds(inA, a) then d[a][i] else dy[a][i]]
  }

  method MergeByte(w: ObjectState, other: ObjectState, inA: Expr, i: nat)
    requires w.Valid() && other.Valid() && IsCond(inA)
    requires w != other && w.concreteStore != other.concreteStore && w.size == other.size && i < w.size
    modifies w`concreteMask, w`flushMask, w`knownSymbolics, w`root, w`head, w.concreteStore, other`root, other`head
    ensures w.Valid() && other.Valid() && other.Denotation() == old(other.Denotation())
    ensures IsDenotation(old(w.Denotation()), w.size) && IsDenotation(old(other.Denotation()), w.size)
    ensures IsDenotation(w.Denotation(), w.size)
    ensures ByteChosen(old(w.Denotation()), w.Denotation(), inA, old(other.Denotation()), w.size, i)
  {
    hide *;
    ghost var dx: imap<Assignment, seq<nat>>, dy: imap<Assignment, seq<nat>> := w.Denotation(), other.Denotation();
    w.DenotationShape();
    other.DenotationShape();
    var av := w.ReadByteAt(i, 0);
    var bv := other.ReadByteAt(i, 0);
    w.ConstantOffset(i);
    ChosenByteIs(av, bv, inA, dx, dy, w.size, i);
    ByteAccess(i, w.size);
    label L:
    w.WriteAt(i, SelectCreate(inA, av, bv));
    w.DenotationShape();
    ghost var d: imap<Assignment, seq<nat>> := w.Denotation();
    forall a: Assignment
      ensures a in d && a in dx && |dx[a]| == w.size && d[a] == StoreWidth(dx[a], i, 8, w.little, Eval(SelectCreate(inA, av, bv), a))
    {
      InDenotation(dx, w.size, a);
      InDenotation(d, w.size, a);
      assert w.Bytes(a) == d[a] && old@L(w.Bytes(a)) == dx[a];
    }
    StoredIsChosen(d, SelectCreate(inA, av, bv), inA, dx, dy, w.size, i, w.little);
  }

  lemma {:induction false} ByteAccess(i: nat, size: nat)
    requires i < size
    ensures RANGE == 8 && IsAccessWidth(8) && BytesFor(8) == 1
  { }

  lemma {:induction false} ChosenByteIs(av: Expr, bv: Expr, inA: Expr, dx: imap<Assignment, seq<nat>>, dy: imap<Assignment, seq<nat>>, size: nat, i: nat)
    requires IsCond(inA) && IsDenotation(dx, size) && IsDenotation(dy, size) && i < size
    requires IsByteOf(av, IndexConst(i), dx, size, 0) && IsByteOf(bv, IndexConst(i), dy, size, 0)
    requires forall a: Assignment :: Eval(IndexConst(i), a) == i
    ensures Wf(inA) && Width(inA) == 1 && SameWidth(av, bv)
    ensures var e := SelectCreate(inA, av, bv);
            && Wf(e) && Width(e) == RANGE && Canon(e)
            && forall a: Assignment :: Eval(e, a) < 256 && Eval(e, a) == if Holds(inA, a) then dx[a][i] else dy[a][i]
  {
    SelectByteWidth(inA, av, bv);
    SelectByte(inA, av, bv);
    hide Eval, Wf, Width, Canon, Holds, SelectCreate, IndexConst, SameWidth;
    forall a: Assignment ensures Eval(av, a) == dx[a][i] && Eval(bv, a) == dy[a][i] {
      assert Eval(IndexConst(i), a) + 0 == i;
    }
  }

  lemma {:induction false} StoredIsChosen(d: imap<Assignment, seq<nat>>, e: Expr, inA: Expr, dx: imap<Assignment, seq<nat>>, dy: imap<Assignment, seq<nat>>,
      size: nat, i: nat, little: bool)
    requires IsDenotation(d, size) && IsDenotation(dx, size) && IsDenotation(dy, size) && i < size && IsAccessWidth(8) && BytesFor(8) == 1
    requires forall a: Assignment :: Eval(e, a) < 256 && Eval(e, a) == if Holds(inA, a) then dx[a][i] else dy[a][i]
    requires forall a: Assignment :: d[a] == StoreWidth(dx[a], i, 8, little, Eval(e, a))
    ensures ByteChosen(dx, d, inA, dy, size, i)
  {
    hide Eval, Holds, StoreWidth;
    StoreOneByte(i, little);
  }

  lemma {:induction false} NoneChosen(inA: Expr, dx: imap<Assignment, seq<nat>>, dy: imap<Assignment, seq<nat>>, size: nat)
    requires IsDenotation(dx, size) && IsDenotation(dy, size)
    ensures ChosenBelow(dx, inA, dx, dy, size, 0)
  {
    hide Holds;
  }

  lemma {:induction false} OneMoreChosen(d: imap<Assignment, seq<nat>>, d': imap<Assignment, seq<nat>>, inA: Expr,
      dx: imap<Assignment, seq<nat>>, dy: imap<Assignment, seq<nat>>, size: nat, i: nat)
    requires IsDenotation(d, size) && IsDenotation(d', size) && IsDenotation(dx, size) && IsDenotation(dy, size) && i < size
    requires ChosenBelow(d, inA, dx, dy, size, i) && ByteChosen(d, d', inA, dy, size, i)
    ensures ChosenBelow(d', inA, dx, dy, size, i + 1)
  {
    hide Holds;
  }

  lemma {:induction false} AllChosen(d: imap<Assignment, seq<nat>>, inA: Expr, dx: imap<Assignment, seq<nat>>, dy: imap<Assignment, seq<nat>>, size: nat)
    requires IsDenotation(d, size) && IsDenotation(dx, size) && IsDenotation(dy, size)
    requires ChosenBelow(d, inA, dx, dy, size, size)
    ensures d == Choice(inA, dx, dy, size)
  {
    hide Holds;
    forall a: Assignment ensures d[a] == if Holds(inA, a) then dx[a] else dy[a] { }
  }

  lemma {:induction false} SelectByte(c: Expr, t: Expr, f: Expr)
    requires IsCond(c) && IsByteExpr(t) && IsByteExpr(f)
    ensures IsByteExpr(SelectCreate(c, t, f))
    ensures forall a: Assignment ::
      (Eval(SelectCreate(c, t, f), a) == if Holds(c, a) then Eval(t, a) else Eval(f, a))
    ensures forall a: Assignment :: Eval(SelectCreate(c, t, f), a) < 256
  {
    SelectByteWidth(c, t, f);
    hide SelectCreate, Eval, Pow2, Wf, Width, Weight, Holds, Canon;
    var e := SelectCreate(c, t, f);
    forall a: Assignment
      ensures Eval(e, a) == if Holds(c, a) then Eval(t, a) else Eval(f, a)
      ensures Eval(e, a) < 256
    {
      SelectByteAt(c, t, f, a);
    }
  }

  lemma {:induction false} SelectByteAt(c: Expr, t: Expr, f: Expr, a: Assignment)
    requires IsCond(c) && IsByteExpr(t) && IsByteExpr(f)
    ensures Eval(SelectCreate(c, t, f), a) == if Holds(c, a) then Eval(t, a) else Eval(f, a)
    ensures Eval(SelectCreate(c, t, f), a) < 256
  {
    hide *;
    SelectByteWidth(c, t, f);
    SelectMeaning(c, t, f, a);
    ByteRange(SelectCreate(c, t, f), a);
    HoldsMeans(c, a);
  }

  lemma {:induction false} SelectByteWidth(c: Expr, t: Expr, f: Expr)
    requires IsCond(c) && IsByteExpr(t) && IsByteExpr(f)
    ensures Wf(c) && Width(c) == 1 && SameWidth(t, f) && IsByteExpr(SelectCreate(c, t, f))
  {
    hide Wf, Width, Weight, SelectCreate, Canon;
    SelectCanon(c, t, f);
  }

  lemma {:induction false} HoldsMeans(c: Expr, a: Assignment)
    ensures Holds(c, a) <==> Eval(c, a) == 1
  {
  }

  lemma {:induction false} StoreOneByte(i: nat, little: bool)
    ensures forall bs: seq<nat>, v: nat :: i < |bs| && v < 256 ==> StoreWidth(bs, i, 8, little, v) == bs[i := v]
  {
    hide ExtractBits, Pow2;
    forall bs: seq<nat>, v: nat | i < |bs| && v < 256
      ensures StoreWidth(bs, i, 8, little, v) == bs[i := v]
    {
      RangePow2();
      ExtractWhole(v, RANGE);
      assert StoreLow(bs, i, 1, little, v, 0) == bs;
      assert StoreLow(bs, i, 1, little, v, 1) == bs[i := ExtractBits(v, 0, 8)];
    }
  }

  lemma {:induction false} ByteRange(e: Expr, a: Assignment)
    requires IsByteExpr(e)
    ensures Eval(e, a) < 256
  {
    RangePow2();
  }

  // ------------------------------------------------------------- the states

  datatype Frame = Frame(caller: int, kf: int, locals: seq<Option<Expr>>)

  /** The storage objects of a list. */
  ghost function Stores(os: seq<ObjectState>): (bs: set<array<Byte>>) {
    set i | 0 <= i < |os| :: os[i].concreteStore
  }

  ghost predicate AllValid(os: seq<ObjectState>)
    reads os, Stores(os)
  {
    forall i :: 0 <= i < |os| ==> os[i].Valid()
  }

  /** What copy-on-write guarantees of the objects two states bind under the same
      names: each is bound once, and different objects do not share storage. */
  ghost predicate Apart(xs: seq<ObjectState>, ys: seq<ObjectState>) {
    && |xs| == |ys|
    && (forall i :: 0 <= i < |xs| ==> xs[i].size == ys[i].size)
    && (forall i, j :: 0 <= i < |xs| && 0 <= j < |xs| && i != j ==>
         xs[i] != xs[j] && xs[i].concreteStore != xs[j].concreteStore
         && xs[i] != ys[j] && xs[i].concreteStore != ys[j].concreteStore)
    && (forall i :: 0 <= i < |xs| && xs[i] != ys[i] ==> xs[i].concreteStore != ys[i].concreteStore)
  }

  lemma {:induction false} StoreAmong(os: seq<ObjectState>, i: nat)
    requires i < |os|
    ensures os[i].concreteStore in Stores(os)
  {
  }

  lemma {:induction false} EachValid(os: seq<ObjectState>)
    ensures AllValid(os) <==> forall i :: 0 <= i < |os| ==> os[i].Valid()
  {
  }

  lemma {:induction false} ApartAt(xs: seq<ObjectState>, ys: seq<ObjectState>, i: nat)
    requires Apart(xs, ys) && i < |xs|
    ensures |xs| == |ys| && xs[i].size == ys[i].size
    ensures xs[i] != ys[i] ==> xs[i].concreteStore != ys[i].concreteStore
    ensures forall j :: 0 <= j < |xs| && j != i ==>
      && xs[j] != xs[i] && xs[j].concreteStore != xs[i].concreteStore
      && xs[j] != ys[i] && xs[j].concreteStore != ys[i].concreteStore
      && ys[j] != xs[i] && ys[j].concreteStore != xs[i].concreteStore
  {
  }

  /** A copy of `x` owned under the key, merged with `y`; `x` stays as it is. */
  method MergeCopy(x: ObjectState, y: ObjectState, cowKey: nat, inA: Expr) returns (w: ObjectState)
    requires IsCond(inA) && x.Valid() && y.Valid() && x.size == y.size && x != y && !x.readOnly
    modifies y`root, y`head
    ensures fresh(w) && fresh(w.concreteStore) && w.copyOnWriteOwner == cowKey
    ensures w.Valid() && y.Valid() && y.Denotation() == old(y.Denotation())
    ensures IsDenotation(x.Denotation(), x.size) && IsDenotation(old(y.Denotation()), x.size)
    ensures w.Denotation() == Choice(inA, x.Denotation(), old(y.Denotation()), x.size)
  {
    hide *;
    x.DenotationShape();
    y.DenotationShape();
    w := new ObjectState.Copy(x);
    w.copyOnWriteOwner := cowKey;
    w.DenotationShape();
    SameImage(w.Denotation(), x.Denotation(), x.size);
    MergeObject(w, y, inA);
  }

  /** The object the merged state binds in place of `x`: an object both states bind stays,
      and one the first state does not own is copied and left as it is. */
  method MergeBinding(x: ObjectState, y: ObjectState, cowKey: nat, inA: Expr) returns (w: ObjectState)
    requires IsCond(inA) && x.Valid() && y.Valid() && x.size == y.size
    requires x != y ==> !x.readOnly && x.concreteStore != y.concreteStore
    modifies x`concreteMask, x`flushMask, x`knownSymbolics, x`root, x`head, x.concreteStore, y`root, y`head
    ensures w.Valid() && y.Valid() && y.Denotation() == old(y.Denotation())
    ensures BoundAs(x, y, cowKey, w) && (w == x || (fresh(w) && fresh(w.concreteStore)))
    ensures x == y || x.copyOnWriteOwner != cowKey ==> x.Holding() == old(x.Holding())
    ensures IsDenotation(old(x.Denotation()), x.size) && IsDenotation(old(y.Denotation()), x.size)
    ensures w.Denotation() == Choice(inA, old(x.Denotation()), old(y.Denotation()), x.size)
  {
    hide *;
    x.DenotationShape();
    y.DenotationShape();
    w := x;
    if x == y {
      NoChoice(inA, x.Denotation(), x.size);
    } else if x.copyOnWriteOwner != cowKey {
      w := MergeCopy(x, y, cowKey, inA);
    } else {
      MergeObject(x, y, inA);
    }
    BoundAsMeans(x, y, cowKey, w);
  }

  lemma {:induction false} NoChoice(inA: Expr, d: imap<Assignment, seq<nat>>, size: nat)
    requires IsDenotation(d, size)
    ensures d == Choice(inA, d, d, size)
  { }

  lemma {:induction false} SameImage(d: imap<Assignment, seq<nat>>, d': imap<Assignment, seq<nat>>, size: nat)
    requires IsDenotation(d, size) && IsDenotation(d', size) && forall a: Assignment :: d[a] == d'[a]
    ensures d == d'
  { }

  ghost predicate Denotes(o: ObjectState, d: imap<Assignment, seq<nat>>)
    reads o, o.concreteStore
  {
    o.Valid() && o.Denotation() == d
  }

  ghost predicate ChoiceOf(d: imap<Assignment, seq<nat>>, inA: Expr, dx: imap<Assignment, seq<nat>>, dy: imap<Assignment, seq<nat>>, size: nat) {
    IsDenotation(dx, size) && IsDenotation(dy, size) && d == Choice(inA, dx, dy, size)
  }

  /** `w` denotes the choice between `dx` and `dy`. */
  ghost predicate DenotesChoice(w: ObjectState, inA: Expr, dx: imap<Assignment, seq<nat>>, dy: imap<Assignment, seq<nat>>, size: nat)
    reads w, w.concreteStore
  {
    w.Valid() && ChoiceOf(w.Denotation(), inA, dx, dy, size)
  }

  ghost predicate AllDenote(os: seq<ObjectState>, ds: seq<imap<Assignment, seq<nat>>>)
    reads os, Stores(os)
  {
    |ds| == |os| && forall i :: 0 <= i < |os| ==> Denotes(os[i], ds[i])
  }

  lemma {:induction false} EachDenotes(os: seq<ObjectState>, ds: seq<imap<Assignment, seq<nat>>>)
    ensures AllDenote(os, ds) <==> |ds| == |os| && forall i :: 0 <= i < |os| ==> Denotes(os[i], ds[i])
  {
    hide Denotes;
  }

  /** What each object of a list denotes. */
  ghost function Images(os: seq<ObjectState>): (ds: seq<imap<Assignment, seq<nat>>>)
    requires AllValid(os)
    reads os, Stores(os)
    ensures AllDenote(os, ds)
    decreases |os|
  {
    hide ObjectState.Valid, ObjectState.Denotation, ObjectState.Bytes;
    EachValid(os);
    if os == [] then []
    else
      var n := |os| - 1;
      StoresFewer(os);
      EachDenotes(os[..n], Images(os[..n]));
      Images(os[..n]) + [os[n].Denotation()]
  }

  /** What each object of a list holds. */
  ghost function Holdings(os: seq<ObjectState>): (hs: seq<Contents>)
    reads os, Stores(os)
    ensures |hs| == |os| && forall i :: 0 <= i < |os| ==> hs[i] == os[i].Holding()
    decreases |os|
  {
    if os == [] then []
    else
      StoresFewer(os);
      Holdings(os[..|os| - 1]) + [os[|os| - 1].Holding()]
  }

  lemma {:induction false} StoresFewer(os: seq<ObjectState>)
    requires os != []
    ensures Stores(os[..|os| - 1]) <= Stores(os) && os[|os| - 1].concreteStore in Stores(os)
  {
    var n := |os| - 1;
    forall s | s in Stores(os[..n]) ensures s in Stores(os) {
      var i :| 0 <= i < n && os[..n][i].concreteStore == s;
      assert os[i].concreteStore == s;
    }
  }

  /** An object of the first state that has not been merged yet. */
  ghost predicate Pending(x: ObjectState, y: ObjectState, dx: imap<Assignment, seq<nat>>, h: Contents)
    reads x, x.concreteStore
  {
    Denotes(x, dx) && x.Holding() == h && (x != y ==> !x.readOnly)
  }

  /** What the merged state binds, and what became of the object bound before, which
      held `h`: one that is shared or owned by another state holds the same still. */
  ghost predicate Settled(x: ObjectState, y: ObjectState, w: ObjectState, cowKey: nat, inA: Expr,
      dx: imap<Assignment, seq<nat>>, dy: imap<Assignment, seq<nat>>, h: Contents)
    reads x, x.concreteStore, w, w.concreteStore
  {
    && BoundAs(x, y, cowKey, w) && DenotesChoice(w, inA, dx, dy, x.size)
    && (x == y || x.copyOnWriteOwner != cowKey ==> x.Holding() == h)
  }

  ghost predicate AllPending(xs: seq<ObjectState>, ys: seq<ObjectState>, dxs: seq<imap<Assignment, seq<nat>>>, hs: seq<Contents>)
    reads xs, Stores(xs)
  {
    |xs| == |ys| == |dxs| == |hs| && forall i :: 0 <= i < |xs| ==> Pending(xs[i], ys[i], dxs[i], hs[i])
  }

  /** Folds the second state's memory into the first's, object by object.  An object
      both states share is left alone; one the first state does not own is copied, and
      stays as it is for whoever else binds it. */
  method MergeMemory(xs: seq<ObjectState>, ys: seq<ObjectState>, cowKey: nat, inA: Expr,
      ghost dxs: seq<imap<Assignment, seq<nat>>>, ghost dys: seq<imap<Assignment, seq<nat>>>, ghost hs: seq<Contents>)
    returns (ws: seq<ObjectState>)
    requires IsCond(inA) && Apart(xs, ys) && AllPending(xs, ys, dxs, hs) && AllDenote(ys, dys)
    modifies xs`concreteMask, xs`flushMask, xs`knownSymbolics, xs`root, xs`head, ys`root, ys`head, Stores(xs)
    ensures |ws| == |xs| == |ys| == |dxs| == |dys| == |hs| && AllDenote(ys, dys)
    ensures forall i :: 0 <= i < |xs| ==> Settled(xs[i], ys[i], ws[i], cowKey, inA, dxs[i], dys[i], hs[i])
    ensures forall i :: 0 <= i < |xs| ==> xs[i] == ws[i] || (fresh(ws[i]) && fresh(ws[i].concreteStore))
  {
    hide *;
    EachPending(xs, ys, dxs, hs);
    EachDenotes(ys, dys);
    ws := [];
    for i := 0 to |xs|
      invariant |ws| == i
      invariant forall j :: 0 <= j < |ys| ==> Denotes(ys[j], dys[j])
      invariant forall j :: i <= j < |xs| ==> Pending(xs[j], ys[j], dxs[j], hs[j])
      invariant forall j :: 0 <= j < i ==> ws[j] == xs[j] || (fresh(ws[j]) && fresh(ws[j].concreteStore))
      invariant forall j :: 0 <= j < i ==> Settled(xs[j], ys[j], ws[j], cowKey, inA, dxs[j], dys[j], hs[j])
    {
      ApartAt(xs, ys, i);
      StoreAmong(xs, i);
      SameObjectSameImage(ys, dys, i);
      var w := MergeDenoted(xs[i], ys[i], cowKey, inA, dxs[i], dys[i], hs[i]);
      ws := ws + [w];
    }
    EachDenotes(ys, dys);
  }

  lemma {:induction false} EachPending(xs: seq<ObjectState>, ys: seq<ObjectState>, dxs: seq<imap<Assignment, seq<nat>>>, hs: seq<Contents>)
    ensures AllPending(xs, ys, dxs, hs) <==>
      |xs| == |ys| == |dxs| == |hs| && forall i :: 0 <= i < |xs| ==> Pending(xs[i], ys[i], dxs[i], hs[i])
  {
    hide Pending;
  }

  lemma {:induction false} PendingMeans(x: ObjectState, y: ObjectState, dx: imap<Assignment, seq<nat>>, h: Contents)
    requires Pending(x, y, dx, h)
    ensures Denotes(x, dx) && x.Holding() == h && (x != y ==> !x.readOnly)
  {
    hide Denotes;
  }

  lemma {:induction false} MakeSettled(x: ObjectState, y: ObjectState, w: ObjectState, cowKey: nat, inA: Expr,
      dx: imap<Assignment, seq<nat>>, dy: imap<Assignment, seq<nat>>, h: Contents)
    requires BoundAs(x, y, cowKey, w) && DenotesChoice(w, inA, dx, dy, x.size)
    requires x == y || x.copyOnWriteOwner != cowKey ==> x.Holding() == h
    ensures Settled(x, y, w, cowKey, inA, dx, dy, h)
  {
    hide BoundAs, DenotesChoice;
  }

  /** The same for objects whose denotations are known. */
  method MergeDenoted(x: ObjectState, y: ObjectState, cowKey: nat, inA: Expr,
      ghost dx: imap<Assignment, seq<nat>>, ghost dy: imap<Assignment, seq<nat>>, ghost h: Contents) returns (w: ObjectState)
    requires IsCond(inA) && Pending(x, y, dx, h) && Denotes(y, dy) && x.size == y.size
    requires x != y ==> x.concreteStore != y.concreteStore
    modifies x`concreteMask, x`flushMask, x`knownSymbolics, x`root, x`head, x.concreteStore, y`root, y`head
    ensures Denotes(y, dy) && Settled(x, y, w, cowKey, inA, dx, dy, h)
    ensures w == x || (fresh(w) && fresh(w.concreteStore))
  {
    hide *;
    PendingMeans(x, y, dx, h);
    DenotesMeans(x, dx);
    DenotesMeans(y, dy);
    w := MergeBinding(x, y, cowKey, inA);
    ChoiceMade(w, inA, dx, dy, x.size);
    MakeDenotes(y, dy);
    MakeSettled(x, y, w, cowKey, inA, dx, dy, h);
  }

  lemma {:induction false} DenotesMeans(o: ObjectState, d: imap<Assignment, seq<nat>>)
    requires Denotes(o, d)
    ensures o.Valid() && o.Denotation() == d && IsDenotation(d, o.size)
  {
    o.DenotationShape();
  }

  lemma {:induction false} SameObjectSameImage(ys: seq<ObjectState>, dys: seq<imap<Assignment, seq<nat>>>, i: nat)
    requires |dys| == |ys| && i < |ys| && forall j :: 0 <= j < |ys| ==> Denotes(ys[j], dys[j])
    ensures forall j :: 0 <= j < |ys| && ys[j] == ys[i] ==> dys[j] == dys[i]
  {
    hide ObjectState.Valid, ObjectState.Denotation;
  }

  lemma {:induction false} MakeDenotes(o: ObjectState, d: imap<Assignment, seq<nat>>)
    requires o.Valid() && o.Denotation() == d
    ensures Denotes(o, d)
  { }

  lemma {:induction false} ChoiceMade(w: ObjectState, inA: Expr, dx: imap<Assignment, seq<nat>>, dy: imap<Assignment, seq<nat>>, size: nat)
    requires w.Valid() && IsDenotation(dx, size) && IsDenotation(dy, size) && w.Denotation() == Choice(inA, dx, dy, size)
    ensures DenotesChoice(w, inA, dx, dy, size)
  { }

  /** What the merged state binds in place of `x`: a copy it owns exactly if `x` differs
      from `y` and belongs to someone else. */
  ghost predicate BoundAs(x: ObjectState, y: ObjectState, cowKey: nat, w: ObjectState)
    reads x, w
  {
    if x == y || x.copyOnWriteOwner == cowKey then w == x else w != x && w.copyOnWriteOwner == cowKey
  }

  lemma {:induction false} BoundAsMeans(x: ObjectState, y: ObjectState, cowKey: nat, w: ObjectState)
    requires if x == y || x.copyOnWriteOwner == cowKey then w == x else w != x && w.copyOnWriteOwner == cowKey
    ensures BoundAs(x, y, cowKey, w)
  { }

  // ------------------------------------------------------- sets of constraints

  ghost predicate AllHold(cs: set<Expr>, a: Assignment) {
    forall c :: c in cs ==> Holds(c, a)
  }

  predicate AllBoolSet(cs: set<Expr>) {
    forall c :: c in cs ==> IsCond(c)
  }

  /** The conjunction of a set of constraints, in some order. */
  method Conjoin(cs: set<Expr>) returns (e: Expr)
    requires AllBoolSet(cs)
    ensures IsCond(e) && forall a: Assignment :: Holds(e, a) <==> AllHold(cs, a)
  {
    hide IsCond, Holds, AndCreate;
    e := Bool(true);
    TrueHolds();
    var todo := cs;
    while todo != {}
      invariant todo <= cs && IsCond(e)
      invariant forall a: Assignment :: Holds(e, a) <==> AllHold(cs - todo, a)
    {
      var c :| c in todo;
      BothHold(e, c);
      assert cs - (todo - {c}) == (cs - todo) + {c};
      e := AndCreate(e, c);
      todo := todo - {c};
    }
    assert cs - {} == cs;
  }

  lemma {:induction false} TrueHolds()
    ensures IsCond(Bool(true)) && forall a: Assignment :: Holds(Bool(true), a)
  {
    assert Pow2(1) == 2;
  }

  lemma {:induction false} BothHold(l: Expr, r: Expr)
    requires IsCond(l) && IsCond(r)
    ensures Width(l) == Width(r) && Wf(l) && Wf(r) && SameWidth(l, r)
    ensures IsCond(AndCreate(l, r)) && IsCond(OrCreate(l, r))
    ensures forall a: Assignment :: Holds(AndCreate(l, r), a) <==> Holds(l, a) && Holds(r, a)
    ensures forall a: Assignment :: Holds(OrCreate(l, r), a) <==> Holds(l, a) || Holds(r, a)
  {
    hide AndCreate, OrCreate, Wf, Width, Weight, Holds, Canon;
    AndCanon(l, r);
    forall a: Assignment
      ensures Holds(AndCreate(l, r), a) <==> Holds(l, a) && Holds(r, a)
      ensures Holds(OrCreate(l, r), a) <==> Holds(l, a) || Holds(r, a)
    {
      BothHoldAt(l, r, a);
    }
  }

  lemma {:induction false} BothHoldAt(l: Expr, r: Expr, a: Assignment)
    requires IsCond(l) && IsCond(r)
    ensures Holds(AndCreate(l, r), a) <==> Holds(l, a) && Holds(r, a)
    ensures Holds(OrCreate(l, r), a) <==> Holds(l, a) || Holds(r, a)
  {
    hide *;
    BoolsMatch(l, r);
    BoolRange(l, a);
    BoolRange(r, a);
    OneBit(Eval(l, a), Eval(r, a));
    AndMeaning(l, r, a);
    OrMeaning(l, r, a);
    HoldsMeans(l, a);
    HoldsMeans(r, a);
    HoldsMeans(AndCreate(l, r), a);
    HoldsMeans(OrCreate(l, r), a);
    BitMeans(Eval(l, a) == 1 && Eval(r, a) == 1);
    BitMeans(Eval(l, a) == 1 || Eval(r, a) == 1);
  }

  lemma {:induction false} BoolsMatch(l: Expr, r: Expr)
    requires IsCond(l) && IsCond(r)
    ensures Wf(l) && Wf(r) && Width(l) == 1 == Width(r) && SameWidth(l, r)
  {
    hide Wf, Width;
  }

  lemma {:induction false} BitMeans(b: bool)
    ensures B2N(b) == 1 <==> b
  {
  }

  ghost function ToSet(cs: seq<Expr>): (s: set<Expr>) {
    set i | 0 <= i < |cs| :: cs[i]
  }

  method CollectSet(cs: seq<Expr>) returns (s: set<Expr>)
    ensures s == ToSet(cs)
  {
    s := set i | 0 <= i < |cs| :: cs[i];
  }

  lemma {:induction false} SatAsSet(cs: seq<Expr>)
    ensures forall a: Assignment :: Sat(cs, a) <==> AllHold(ToSet(cs), a)
    ensures AllBool(cs) && AllCanon(cs) ==> AllBoolSet(ToSet(cs))
  {
    hide Holds, IsBool, Canon;
    forall a: Assignment ensures Sat(cs, a) <==> AllHold(ToSet(cs), a) {
      if AllHold(ToSet(cs), a) {
        forall i | 0 <= i < |cs| ensures Holds(cs[i], a) { assert cs[i] in ToSet(cs); }
      }
    }
  }

  /** The constraint set that keeps what both states share and one of the rests. */
  method MergeConstraints(common: set<Expr>, inA: Expr, inB: Expr) returns (cm: ConstraintManager)
    requires AllBoolSet(common) && IsCond(inA) && IsCond(inB)
    requires exists a: Assignment :: AllHold(common, a) && (Holds(inA, a) || Holds(inB, a))
    ensures fresh(cm) && cm.Valid() && AllCanon(cm.constraints)
    ensures forall a: Assignment ::
      Sat(cm.constraints, a) <==> AllHold(common, a) && (Holds(inA, a) || Holds(inB, a))
  {
    hide IsCond, Holds, OrCreate, Sat, AllHold, AllBool;
    ghost var sample: Assignment :| AllHold(common, sample) && (Holds(inA, sample) || Holds(inB, sample));
    cm := new ConstraintManager();
    NothingAsked();
    var todo := common;
    assert common - todo == {};
    while todo != {}
      invariant todo <= common && fresh(cm) && cm.Valid() && AllCanon(cm.constraints)
      invariant forall a: Assignment :: Sat(cm.constraints, a) <==> AllHold(common - todo, a)
    {
      var c :| c in todo;
      assert common - (todo - {c}) == (common - todo) + {c};
      OneMoreAsked(common - todo, c, common);
      assert Sat(cm.constraints, sample) && Holds(c, sample);
      AddKnown(cm, c, sample);
      todo := todo - {c};
    }
    assert common - {} == common;
    BothHold(inA, inB);
    AddKnown(cm, OrCreate(inA, inB), sample);
  }

  /** Adding a constraint that some assignment satisfies always succeeds. */
  method AddKnown(cm: ConstraintManager, c: Expr, ghost sample: Assignment)
    requires cm.Valid() && AllCanon(cm.constraints) && IsCond(c) && Sat(cm.constraints, sample) && Holds(c, sample)
    modifies cm
    ensures cm.Valid() && AllCanon(cm.constraints)
    ensures forall a: Assignment :: Sat(cm.constraints, a) <==> Sat(old(cm.constraints), a) && Holds(c, a)
  {
    hide *;
    CondIsBool(c);
    var ok := cm.AddConstraint(c);
  }

  lemma {:induction false} NothingAsked()
    ensures forall a: Assignment :: Sat([], a) && AllHold({}, a)
  {
  }

  lemma {:induction false} OneMoreAsked(done: set<Expr>, c: Expr, all: set<Expr>)
    requires done <= all && c in all
    ensures forall a: Assignment :: AllHold(done + {c}, a) <==> AllHold(done, a) && Holds(c, a)
    ensures forall a: Assignment :: AllHold(all, a) ==> AllHold(done, a) && Holds(c, a)
  {
    hide Holds;
  }

  // ------------------------------------------------------------------- locals

  /** Registers of one frame hold values of the same width in both states. */
  ghost predicate LocalsMatch(xs: seq<Option<Expr>>, ys: seq<Option<Expr>>) {
    |xs| == |ys| && forall i :: 0 <= i < |xs| && xs[i].Some? && ys[i].Some? ==>
      SameWidth(xs[i].value, ys[i].value)
  }

  /** `r` is `x` where `inA` holds and `y` elsewhere. */
  ghost predicate Chooses(r: Option<Expr>, x: Option<Expr>, y: Option<Expr>, inA: Expr) {
    if x.Some? && y.Some? then
      r.Some? && (Canon(x.value) && Canon(y.value) ==> Canon(r.value)) && forall a: Assignment ::
        Eval(r.value, a) == if Holds(inA, a) then Eval(x.value, a) else Eval(y.value, a)
    else r == x
  }

  /** A register that is unset in either state is left alone. */
  method MergeLocals(xs: seq<Option<Expr>>, ys: seq<Option<Expr>>, inA: Expr) returns (rs: seq<Option<Expr>>)
    requires IsCond(inA) && LocalsMatch(xs, ys)
    ensures |rs| == |xs| && forall i :: 0 <= i < |rs| ==> Chooses(rs[i], xs[i], ys[i], inA)
  {
    hide IsCond, SelectCreate, Chooses, SameWidth;
    rs := [];
    for i := 0 to |xs|
      invariant |rs| == i && forall j :: 0 <= j < i ==> Chooses(rs[j], xs[j], ys[j], inA)
    {
      if xs[i].None? || ys[i].None? {
        KeepLocal(xs[i], ys[i], inA);
        rs := rs + [xs[i]];
      } else {
        SelectLocal(xs[i].value, ys[i].value, inA);
        rs := rs + [Some(SelectCreate(inA, xs[i].value, ys[i].value))];
      }
    }
  }

  lemma {:induction false} KeepLocal(x: Option<Expr>, y: Option<Expr>, inA: Expr)
    requires x.None? || y.None?
    ensures Chooses(x, x, y, inA)
  {
  }

  lemma {:induction false} SelectLocal(x: Expr, y: Expr, inA: Expr)
    requires IsCond(inA) && SameWidth(x, y)
    ensures Wf(inA) && Width(inA) == 1 && Chooses(Some(SelectCreate(inA, x, y)), Some(x), Some(y), inA)
  {
    hide *;
    CondIsBool(inA);
    if Canon(x) && Canon(y) { PairCanon(x, y); SelectCanon(inA, x, y); }
    forall a: Assignment
      ensures Eval(SelectCreate(inA, x, y), a) == if Holds(inA, a) then Eval(x, a) else Eval(y, a)
    {
      SelectLocalAt(x, y, inA, a);
    }
    ChoosesMeans(SelectCreate(inA, x, y), x, y, inA);
  }

  lemma {:induction false} ChoosesMeans(r: Expr, x: Expr, y: Expr, inA: Expr)
    requires Canon(x) && Canon(y) ==> Canon(r)
    requires forall a: Assignment :: Eval(r, a) == if Holds(inA, a) then Eval(x, a) else Eval(y, a)
    ensures Chooses(Some(r), Some(x), Some(y), inA)
  {
    hide Eval, Holds, Canon;
  }

  lemma {:induction false} PairCanon(x: Expr, y: Expr)
    requires SameWidth(x, y) && Canon(x) && Canon(y)
    ensures CanonPair(x, y)
  { }

  lemma {:induction false} SelectLocalAt(x: Expr, y: Expr, inA: Expr, a: Assignment)
    requires Wf(inA) && Width(inA) == 1 && SameWidth(x, y)
    ensures Eval(SelectCreate(inA, x, y), a) == if Holds(inA, a) then Eval(x, a) else Eval(y, a)
  {
    hide *;
    SelectMeaning(inA, x, y, a);
    HoldsMeans(inA, a);
  }

  ghost predicate FramesMatch(xs: seq<Frame>, ys: seq<Frame>) {
    forall i :: 0 <= i < |xs| && i < |ys| && xs[i].kf == ys[i].kf ==> LocalsMatch(xs[i].locals, ys[i].locals)
  }

  predicate SameCalls(xs: seq<Frame>, ys: seq<Frame>) {
    |xs| == |ys| && forall i :: 0 <= i < |xs| ==> xs[i].caller == ys[i].caller && xs[i].kf == ys[i].kf
  }

  lemma {:induction false} SameCallsMeans(xs: seq<Frame>, ys: seq<Frame>)
    ensures SameCalls(xs, ys) <==> |xs| == |ys| && forall i :: 0 <= i < |xs| ==> xs[i].caller == ys[i].caller && xs[i].kf == ys[i].kf
  { }

  ghost predicate StackChooses(rs: seq<Frame>, xs: seq<Frame>, ys: seq<Frame>, inA: Expr)
    requires SameCalls(xs, ys) && FramesMatch(xs, ys)
  {
    SameCalls(rs, xs) && forall i :: 0 <= i < |xs| ==>
      |rs[i].locals| == |xs[i].locals| && forall k :: 0 <= k < |xs[i].locals| ==>
        Chooses(rs[i].locals[k], xs[i].locals[k], ys[i].locals[k], inA)
  }

  method MergeStack(xs: seq<Frame>, ys: seq<Frame>, inA: Expr) returns (rs: seq<Frame>)
    requires IsCond(inA) && SameCalls(xs, ys) && FramesMatch(xs, ys)
    ensures StackChooses(rs, xs, ys, inA)
  {
    hide IsCond, Chooses;
    rs := [];
    for i := 0 to |xs|
      invariant |rs| == i && forall j :: 0 <= j < i ==>
        && rs[j].caller == xs[j].caller && rs[j].kf == xs[j].kf && |rs[j].locals| == |xs[j].locals|
        && forall k :: 0 <= k < |xs[j].locals| ==> Chooses(rs[j].locals[k], xs[j].locals[k], ys[j].locals[k], inA)
    {
      var ls := MergeLocals(xs[i].locals, ys[i].locals, inA);
      rs := rs + [xs[i].(locals := ls)];
    }
  }

  // ---------------------------------------------------------------- the merge

  /** Where one of the two states is possible, `inA` tells whether it is the first. */
  lemma {:induction false} SuffixDecides(ca: set<Expr>, cb: set<Expr>, inA: Expr, inB: Expr)
    requires forall a: Assignment :: Holds(inA, a) <==> AllHold(ca - (ca * cb), a)
    requires forall a: Assignment :: Holds(inB, a) <==> AllHold(cb - (ca * cb), a)
    ensures forall a: Assignment ::
      (AllHold(ca * cb, a) && (Holds(inA, a) || Holds(inB, a)) <==> AllHold(ca, a) || AllHold(cb, a))
    ensures forall a: Assignment :: AllHold(ca, a) || AllHold(cb, a) ==> (Holds(inA, a) <==> AllHold(ca, a))
  {
    hide Holds;
    forall a: Assignment
      ensures AllHold(ca, a) <==> AllHold(ca * cb, a) && AllHold(ca - (ca * cb), a)
      ensures AllHold(cb, a) <==> AllHold(ca * cb, a) && AllHold(cb - (ca * cb), a)
    {
      SplitSet(ca, ca * cb, a);
      SplitSet(cb, ca * cb, a);
    }
  }

  lemma {:induction false} SplitSet(all: set<Expr>, part: set<Expr>, a: Assignment)
    requires part <= all
    ensures AllHold(all, a) <==> AllHold(part, a) && AllHold(all - part, a)
  {
    hide Holds;
    forall c | c in all && AllHold(part, a) && AllHold(all - part, a) ensures Holds(c, a) {
      assert c in part || c in all - part;
    }
  }

  class ExecutionState {
    var pc: int
    var symbolics: seq<(int, Array)>
    var stack: seq<Frame>
    var constraints: ConstraintManager
    var cowKey: nat
    var names: seq<int>
    var objects: seq<ObjectState>

    constructor (pc: int, symbolics: seq<(int, Array)>, stack: seq<Frame>, constraints: ConstraintManager,
                 cowKey: nat, names: seq<int>, objects: seq<ObjectState>)
      ensures this.pc == pc && this.symbolics == symbolics && this.stack == stack
      ensures this.constraints == constraints && this.cowKey == cowKey
      ensures this.names == names && this.objects == objects
    {
      this.pc, this.symbolics, this.stack := pc, symbolics, stack;
      this.constraints, this.cowKey, this.names, this.objects := constraints, cowKey, names, objects;
    }

    /** Main theorem: the merge succeeds exactly if place, inputs, calls and bindings agree.
        Then an assignment is possible in the merged state exactly if it was possible in one
        of the two, every register set in both and every byte of memory has the value it had
        in the first state where that was possible, and the value it had in the second
        otherwise. Objects the first state does not own, and all of the second state, keep
        what they hold or denote; a merge that fails touches nothing. */
    method Merge(b: ExecutionState) returns (merged: bool)
      requires this != b && constraints.Valid() && b.constraints.Valid() && FramesMatch(stack, b.stack)
      requires AllCanon(constraints.constraints) && AllCanon(b.constraints.constraints)
      requires exists a: Assignment :: Sat(constraints.constraints, a) || Sat(b.constraints.constraints, a)
      requires |names| == |objects| && |b.names| == |b.objects| && AllValid(objects) && AllValid(b.objects)
      requires names == b.names ==> Apart(objects, b.objects) && Writable(objects, b.objects)
      modifies this, objects`concreteMask, objects`flushMask, objects`knownSymbolics, objects`root, objects`head,
        b.objects`root, b.objects`head, Stores(objects)
      ensures merged <==> old(pc == b.pc && symbolics == b.symbolics && names == b.names && |stack| == |b.stack|
        && forall i :: 0 <= i < |stack| ==> stack[i].caller == b.stack[i].caller && stack[i].kf == b.stack[i].kf)
      ensures !merged ==> unchanged(this) && unchanged(objects) && unchanged(Stores(objects)) && unchanged(b.objects)
      ensures pc == old(pc) && symbolics == old(symbolics) && names == old(names) && cowKey == old(cowKey)
      ensures constraints.Valid() && AllCanon(constraints.constraints) && |objects| == old(|objects|)
      ensures AllDenote(b.objects, old(Images(b.objects)))
      ensures merged ==> forall a: Assignment ::
        (Sat(constraints.constraints, a)
         <==> Sat(old(constraints.constraints), a) || Sat(old(b.constraints.constraints), a))
      ensures |stack| == old(|stack|) && forall i :: 0 <= i < |stack| ==>
        stack[i].caller == old(stack)[i].caller && stack[i].kf == old(stack)[i].kf
      ensures merged ==> StackMerged(stack, old(stack), old(b.stack), old(constraints.constraints), constraints.constraints)
      ensures merged ==> |objects| == |b.objects| && forall i :: 0 <= i < |objects| ==>
        && ObjectMerged(objects[i], old(Images(objects))[i], old(Images(b.objects))[i], old(constraints.constraints), constraints.constraints)
        && Rebound(old(objects)[i], b.objects[i], objects[i], cowKey, old(Holdings(objects))[i])
    {
      hide *;
      SameCallsMeans(stack, b.stack);
      if pc != b.pc || symbolics != b.symbolics || !SameCalls(stack, b.stack) || names != b.names {
        assert Images(b.objects) == old(Images(b.objects));
        return false;
      }
      MergeWith(b);
      StackMergedCalls(stack, old(stack), old(b.stack), old(constraints.constraints), constraints.constraints);
      merged := true;
    }

    /** The merge itself, once place, inputs, calls and bindings agree. */
    method MergeWith(b: ExecutionState)
      requires this != b && constraints.Valid() && b.constraints.Valid() && FramesMatch(stack, b.stack)
      requires AllCanon(constraints.constraints) && AllCanon(b.constraints.constraints)
      requires exists a: Assignment :: Sat(constraints.constraints, a) || Sat(b.constraints.constraints, a)
      requires AllValid(objects) && AllValid(b.objects)
      requires SameCalls(stack, b.stack) && Apart(objects, b.objects) && Writable(objects, b.objects)
      modifies this`stack, this`objects, this`constraints, objects`concreteMask, objects`flushMask, objects`knownSymbolics,
        objects`root, objects`head, b.objects`root, b.objects`head, Stores(objects)
      ensures constraints.Valid() && AllCanon(constraints.constraints)
      ensures AllDenote(b.objects, old(Images(b.objects)))
      ensures forall a: Assignment ::
        (Sat(constraints.constraints, a)
         <==> Sat(old(constraints.constraints), a) || Sat(old(b.constraints.constraints), a))
      ensures StackMerged(stack, old(stack), old(b.stack), old(constraints.constraints), constraints.constraints)
      ensures |objects| == |b.objects| == old(|objects|) && forall i :: 0 <= i < |objects| ==>
        && ObjectMerged(objects[i], old(Images(objects))[i], old(Images(b.objects))[i], old(constraints.constraints), constraints.constraints)
        && Rebound(old(objects)[i], b.objects[i], objects[i], cowKey, old(Holdings(objects))[i])
    {
      hide *;
      PendingAt(objects, b.objects);
      var frames, bound, kept := MergeParts(stack, b.stack, constraints, b.constraints, objects, b.objects, cowKey,
        Images(objects), Images(b.objects), Holdings(objects));
      stack, objects, constraints := frames, bound, kept;
      EachDenotes(b.objects, old(Images(b.objects)));
    }
  }

  /** All parts of a merged state. */
  method MergeParts(fx: seq<Frame>, fy: seq<Frame>, ca: ConstraintManager, cb: ConstraintManager,
      xs: seq<ObjectState>, ys: seq<ObjectState>, cowKey: nat,
      ghost dxs: seq<imap<Assignment, seq<nat>>>, ghost dys: seq<imap<Assignment, seq<nat>>>, ghost hs: seq<Contents>)
    returns (stack: seq<Frame>, ws: seq<ObjectState>, cm: ConstraintManager)
    requires ca.Valid() && cb.Valid() && AllCanon(ca.constraints) && AllCanon(cb.constraints)
    requires SameCalls(fx, fy) && FramesMatch(fx, fy)
    requires exists a: Assignment :: Sat(ca.constraints, a) || Sat(cb.constraints, a)
    requires AllPending(xs, ys, dxs, hs) && AllDenote(ys, dys) && Apart(xs, ys)
    modifies xs`concreteMask, xs`flushMask, xs`knownSymbolics, xs`root, xs`head, ys`root, ys`head, Stores(xs)
    ensures fresh(cm) && cm.Valid() && AllCanon(cm.constraints)
    ensures forall a: Assignment :: (Sat(cm.constraints, a) <==> Sat(ca.constraints, a) || Sat(cb.constraints, a))
    ensures StackMerged(stack, fx, fy, ca.constraints, cm.constraints)
    ensures |ws| == |xs| == |ys| == |dxs| == |dys| == |hs| && forall i :: 0 <= i < |ys| ==> Denotes(ys[i], dys[i])
    ensures forall i :: 0 <= i < |xs| ==>
      && ObjectMerged(ws[i], dxs[i], dys[i], ca.constraints, cm.constraints)
      && Rebound(xs[i], ys[i], ws[i], cowKey, hs[i])
  {
    hide *;
    EachPending(xs, ys, dxs, hs);
    EachDenotes(ys, dys);
    var inA;
    inA, stack, cm := MergeValues(fx, fy, ca, cb);
    EachPending(xs, ys, dxs, hs);
    EachDenotes(ys, dys);
    ws := MergeDecided(xs, ys, cowKey, inA, dxs, dys, hs, ca.constraints, cm.constraints);
  }

  /** The merged memory, where the constraints tell which state is meant. */
  method MergeDecided(xs: seq<ObjectState>, ys: seq<ObjectState>, cowKey: nat, inA: Expr,
      ghost dxs: seq<imap<Assignment, seq<nat>>>, ghost dys: seq<imap<Assignment, seq<nat>>>, ghost hs: seq<Contents>,
      ghost csA: seq<Expr>, ghost cs: seq<Expr>)
    returns (ws: seq<ObjectState>)
    requires IsCond(inA) && Apart(xs, ys) && AllPending(xs, ys, dxs, hs) && AllDenote(ys, dys)
    requires forall a: Assignment :: Sat(cs, a) ==> (Holds(inA, a) <==> Sat(csA, a))
    modifies xs`concreteMask, xs`flushMask, xs`knownSymbolics, xs`root, xs`head, ys`root, ys`head, Stores(xs)
    ensures |ws| == |xs| == |ys| == |dxs| == |dys| == |hs| && forall i :: 0 <= i < |ys| ==> Denotes(ys[i], dys[i])
    ensures forall i :: 0 <= i < |xs| ==> ObjectMerged(ws[i], dxs[i], dys[i], csA, cs) && Rebound(xs[i], ys[i], ws[i], cowKey, hs[i])
  {
    hide *;
    ws := MergeMemory(xs, ys, cowKey, inA, dxs, dys, hs);
    EachDenotes(ys, dys);
    AllSettled(xs, ys, ws, cowKey, inA, dxs, dys, hs, csA, cs);
  }

  /** Registers and constraints of the merged state, and the condition to be in the first. */
  method MergeValues(xs: seq<Frame>, ys: seq<Frame>, ca: ConstraintManager, cb: ConstraintManager)
    returns (inA: Expr, stack: seq<Frame>, cm: ConstraintManager)
    requires ca.Valid() && cb.Valid() && AllCanon(ca.constraints) && AllCanon(cb.constraints)
    requires SameCalls(xs, ys) && FramesMatch(xs, ys)
    requires exists a: Assignment :: Sat(ca.constraints, a) || Sat(cb.constraints, a)
    ensures IsCond(inA) && fresh(cm) && cm.Valid() && AllCanon(cm.constraints)
    ensures StackMerged(stack, xs, ys, ca.constraints, cm.constraints)
    ensures forall a: Assignment :: (Sat(cm.constraints, a) <==> Sat(ca.constraints, a) || Sat(cb.constraints, a))
    ensures forall a: Assignment :: Sat(cm.constraints, a) ==> (Holds(inA, a) <==> Sat(ca.constraints, a))
  {
    hide *;
    var inB, common;
    inA, inB, common := Distinguish(ca, cb);
    stack := MergeStack(xs, ys, inA);
    cm := MergeConstraints(common, inA, inB);
    StackDecided(stack, xs, ys, inA, ca.constraints, cm.constraints);
  }

  /** The object bound afterwards, and what became of the one bound before. */
  ghost predicate Rebound(x: ObjectState, y: ObjectState, w: ObjectState, cowKey: nat, h: Contents)
    reads x, x.concreteStore, w
  {
    BoundAs(x, y, cowKey, w) && (x == y || x.copyOnWriteOwner != cowKey ==> x.Holding() == h)
  }

  lemma {:induction false} SettledMeans(x: ObjectState, y: ObjectState, w: ObjectState, cowKey: nat, inA: Expr,
      dx: imap<Assignment, seq<nat>>, dy: imap<Assignment, seq<nat>>, h: Contents)
    requires Settled(x, y, w, cowKey, inA, dx, dy, h)
    ensures DenotesChoice(w, inA, dx, dy, x.size) && Rebound(x, y, w, cowKey, h)
  {
    hide BoundAs, DenotesChoice;
  }

  lemma {:induction false} AllSettled(xs: seq<ObjectState>, ys: seq<ObjectState>, ws: seq<ObjectState>, cowKey: nat, inA: Expr,
      dxs: seq<imap<Assignment, seq<nat>>>, dys: seq<imap<Assignment, seq<nat>>>, hs: seq<Contents>, csA: seq<Expr>, cs: seq<Expr>)
    requires |ws| == |xs| == |ys| == |dxs| == |dys| == |hs|
    requires forall i :: 0 <= i < |xs| ==> Settled(xs[i], ys[i], ws[i], cowKey, inA, dxs[i], dys[i], hs[i])
    requires forall a: Assignment :: Sat(cs, a) ==> (Holds(inA, a) <==> Sat(csA, a))
    ensures forall i :: 0 <= i < |xs| ==> ObjectMerged(ws[i], dxs[i], dys[i], csA, cs) && Rebound(xs[i], ys[i], ws[i], cowKey, hs[i])
  {
    hide *;
    forall i | 0 <= i < |xs| ensures ObjectMerged(ws[i], dxs[i], dys[i], csA, cs) && Rebound(xs[i], ys[i], ws[i], cowKey, hs[i]) {
      SettledMeans(xs[i], ys[i], ws[i], cowKey, inA, dxs[i], dys[i], hs[i]);
      ObjectDecided(ws[i], dxs[i], dys[i], xs[i].size, inA, csA, cs);
    }
  }

  lemma {:induction false} PendingAt(xs: seq<ObjectState>, ys: seq<ObjectState>)
    requires AllValid(xs) && Writable(xs, ys)
    ensures AllPending(xs, ys, Images(xs), Holdings(xs))
  {
    EachDenotes(xs, Images(xs));
    hide Denotes;
  }

  /** The object denotes `dx` where the first constraints hold, and `dy` elsewhere. */
  ghost predicate ObjectMerged(o: ObjectState, dx: imap<Assignment, seq<nat>>, dy: imap<Assignment, seq<nat>>, csA: seq<Expr>, cs: seq<Expr>)
    reads o, o.concreteStore
  {
    o.Valid() && forall a: Assignment :: Sat(cs, a) ==>
      a in dx && a in dy && o.Bytes(a) == if Sat(csA, a) then dx[a] else dy[a]
  }

  lemma {:induction false} ObjectDecided(o: ObjectState, dx: imap<Assignment, seq<nat>>, dy: imap<Assignment, seq<nat>>, size: nat,
      inA: Expr, csA: seq<Expr>, cs: seq<Expr>)
    requires DenotesChoice(o, inA, dx, dy, size)
    requires forall a: Assignment :: Sat(cs, a) ==> (Holds(inA, a) <==> Sat(csA, a))
    ensures ObjectMerged(o, dx, dy, csA, cs)
  {
    hide Sat, Holds, ObjectState.Valid, ObjectState.Bytes, Choice;
    forall a: Assignment | Sat(cs, a)
      ensures a in dx && a in dy && o.Bytes(a) == if Sat(csA, a) then dx[a] else dy[a]
    {
      assert o.Denotation()[a] == o.Bytes(a);
    }
  }

  ghost predicate Writable(xs: seq<ObjectState>, ys: seq<ObjectState>)
    reads xs
  {
    |xs| == |ys| && forall i :: 0 <= i < |xs| && xs[i] != ys[i] ==> !xs[i].readOnly
  }

  /** Every register set in both stacks has the first state's value where that state
      was possible, and the second's elsewhere. */
  ghost predicate StackMerged(rs: seq<Frame>, xs: seq<Frame>, ys: seq<Frame>, csA: seq<Expr>, cs: seq<Expr>) {
    && SameCalls(rs, xs) && SameCalls(xs, ys) && FramesMatch(xs, ys)
    && forall i :: 0 <= i < |xs| ==> |rs[i].locals| == |xs[i].locals| && forall k :: 0 <= k < |xs[i].locals| ==>
         LocalMerged(rs[i].locals[k], xs[i].locals[k], ys[i].locals[k], csA, cs)
  }

  ghost predicate LocalMerged(r: Option<Expr>, x: Option<Expr>, y: Option<Expr>, csA: seq<Expr>, cs: seq<Expr>) {
    if x.Some? && y.Some? then
      r.Some? && (Canon(x.value) && Canon(y.value) ==> Canon(r.value)) && forall a: Assignment :: Sat(cs, a) ==>
        Eval(r.value, a) == if Sat(csA, a) then Eval(x.value, a) else Eval(y.value, a)
    else r == x
  }

  lemma {:induction false} StackMergedCalls(rs: seq<Frame>, xs: seq<Frame>, ys: seq<Frame>, csA: seq<Expr>, cs: seq<Expr>)
    requires StackMerged(rs, xs, ys, csA, cs)
    ensures |rs| == |xs| && forall i :: 0 <= i < |xs| ==> rs[i].caller == xs[i].caller && rs[i].kf == xs[i].kf
  { }

  lemma {:induction false} StackDecided(rs: seq<Frame>, xs: seq<Frame>, ys: seq<Frame>, inA: Expr, csA: seq<Expr>, cs: seq<Expr>)
    requires SameCalls(xs, ys) && FramesMatch(xs, ys) && StackChooses(rs, xs, ys, inA)
    requires forall a: Assignment :: Sat(cs, a) ==> (Holds(inA, a) <==> Sat(csA, a))
    ensures StackMerged(rs, xs, ys, csA, cs)
  {
    hide Eval, Holds, Sat, SameWidth;
    forall i, k | 0 <= i < |xs| && 0 <= k < |xs[i].locals|
      ensures LocalMerged(rs[i].locals[k], xs[i].locals[k], ys[i].locals[k], csA, cs)
    {
      assert Chooses(rs[i].locals[k], xs[i].locals[k], ys[i].locals[k], inA);
    }
  }

  /** What only the first state requires, what only the second does, and what both do. */
  method Distinguish(ca: ConstraintManager, cb: ConstraintManager) returns (inA: Expr, inB: Expr, common: set<Expr>)
    requires ca.Valid() && cb.Valid() && AllCanon(ca.constraints) && AllCanon(cb.constraints)
    requires exists a: Assignment :: Sat(ca.constraints, a) || Sat(cb.constraints, a)
    ensures IsCond(inA) && IsCond(inB) && AllBoolSet(common)
    ensures exists a: Assignment :: AllHold(common, a) && (Holds(inA, a) || Holds(inB, a))
    ensures forall a: Assignment ::
      (AllHold(common, a) && (Holds(inA, a) || Holds(inB, a)) <==> Sat(ca.constraints, a) || Sat(cb.constraints, a))
    ensures forall a: Assignment :: Sat(ca.constraints, a) || Sat(cb.constraints, a) ==>
      (Holds(inA, a) <==> Sat(ca.constraints, a))
  {
    hide IsCond, Holds, Sat, AllHold;
    var xs := CollectSet(ca.constraints);
    var ys := CollectSet(cb.constraints);
    SatAsSet(ca.constraints);
    SatAsSet(cb.constraints);
    common := xs * ys;
    inA := Conjoin(xs - common);
    inB := Conjoin(ys - common);
    SuffixDecides(xs, ys, inA, inB);
    ghost var sample: Assignment :| Sat(ca.constraints, sample) || Sat(cb.constraints, sample);
    assert AllHold(common, sample) && (Holds(inA, sample) || Holds(inB, sample));
  }
}
