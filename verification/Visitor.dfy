/** Replacement visitors: a pure description of what visiting an expression
    yields, and the memoising visitor that computes it. */
module Visitors {
  import opened Bits
  import opened Exprs
  import opened Create
  import opened CreateMeaning
  import opened Canonical

  function SumWeight(es: seq<Expr>): (n: nat) {
    if es == [] then 0 else Weight(es[0]) + SumWeight(es[1..])
  }

  /** The visited children.  The writes of a read are not among them. */
  function Kids(e: Expr): (ks: seq<Expr>) {
    match e
    case Constant(_, _) => []
    case NotOptimized(s) => [s]
    case Read(_, _, i) => [i]
    case Select(c, t, f) => [c, t, f]
    case Concat(l, r) => [l, r]
    case Extract(s, _, _) => [s]
    case ZExt(s, _) => [s]
    case SExt(s, _) => [s]
    case Not(s) => [s]
    case Binary(_, l, r) => [l, r]
  }

  /** `ks` can stand in for the children of `e`. */
  predicate Replaces(ks: seq<Expr>, from: seq<Expr>) {
    |ks| == |from| && forall i :: 0 <= i < |ks| ==> Wf(from[i]) && Wf(ks[i]) && Width(ks[i]) == Width(from[i])
  }

  function Rebuild(e: Expr, ks: seq<Expr>): (r: Expr)
    requires Wf(e) && !e.Constant? && Replaces(ks, Kids(e))
    ensures Wf(r) && Width(r) == Width(e)
    ensures Weight(r) + SumWeight(Kids(e)) <= Weight(e) + SumWeight(ks)
  {
    hide Apply, Pow2, BinaryCreate, ReadCreate, SelectCreate, ConcatCreate, ExtractCreate, ZExtCreate, SExtCreate, NotCreate;
    KidWeights(e, ks);
    match e
    case NotOptimized(_) => NotOptimized(ks[0])
    case Read(root, us, _) => ReadCreate(root, us, ks[0])
    case Select(_, _, _) => SelectCreate(ks[0], ks[1], ks[2])
    case Concat(_, _) => ConcatCreate(ks[0], ks[1])
    case Extract(_, off, w) => ExtractCreate(ks[0], off, w)
    case ZExt(_, w) => ZExtCreate(ks[0], w)
    case SExt(_, w) => SExtCreate(ks[0], w)
    case Not(_) => NotCreate(ks[0])
    case Binary(k, _, _) => BinaryCreate(k, ks[0], ks[1])
  }

  lemma {:induction false} KidWeights(e: Expr, ks: seq<Expr>)
    requires |ks| == |Kids(e)| && !e.Constant?
    ensures SumWeight(ks) == if |ks| == 1 then Weight(ks[0])
                             else if |ks| == 2 then Weight(ks[0]) + Weight(ks[1])
                             else Weight(ks[0]) + Weight(ks[1]) + Weight(ks[2])
    ensures SumWeight(Kids(e)) == if |ks| == 1 then Weight(Kids(e)[0])
                             else if |ks| == 2 then Weight(Kids(e)[0]) + Weight(Kids(e)[1])
                             else Weight(Kids(e)[0]) + Weight(Kids(e)[1]) + Weight(Kids(e)[2])
    ensures Wf(e) ==> SumWeight(Kids(e)) < Weight(e)
    ensures Wf(e) ==> forall i :: 0 <= i < |ks| ==> Wf(Kids(e)[i])
  {
    hide Pow2;
    SmallSums(ks);
    SmallSums(Kids(e));
  }

  lemma {:induction false} SmallSums(ks: seq<Expr>)
    ensures |ks| == 1 ==> SumWeight(ks) == Weight(ks[0])
    ensures |ks| == 2 ==> SumWeight(ks) == Weight(ks[0]) + Weight(ks[1])
    ensures |ks| == 3 ==> SumWeight(ks) == Weight(ks[0]) + Weight(ks[1]) + Weight(ks[2])
  {
    hide Weight;
    if |ks| > 0 {
      var t := ks[1..];
      assert SumWeight(ks) == Weight(ks[0]) + SumWeight(t);
      if |t| > 0 {
        var u := t[1..];
        assert SumWeight(t) == Weight(t[0]) + SumWeight(u);
        if |u| == 1 {
          assert u[1..] == [];
        }
      }
    }
  }

  // ------------------------------------------------------------- the visitors

  /** `before` is consulted on the way down and `after` on the way up; `again` asks
      for a rebuilt node to be visited once more. */
  datatype Visitor = Visitor(before: map<Expr, Expr>, after: map<Expr, Expr>, again: bool)

  predicate ToConstants(m: map<Expr, Expr>) {
    forall k :: k in m ==> m[k].Constant? && Wf(m[k]) && Width(m[k]) == Width(k)
  }

  predicate ValidVisitor(v: Visitor) {
    ToConstants(v.before) && ToConstants(v.after)
  }

  /** The visitor that replaces one expression. */
  function ReplaceOne(src: Expr, dst: Expr): (v: Visitor) {
    Visitor(map[src := dst], map[src := dst], false)
  }

  /** The recursive visitor that replaces by a table. */
  function ReplaceMany(m: map<Expr, Expr>): (v: Visitor) {
    Visitor(map[], m, true)
  }

  /** The result is the same expression or a strictly lighter one. */
  predicate Shrinks(r: Expr, e: Expr) {
    Wf(r) && Width(r) == Width(e) && (r == e || Weight(r) < Weight(e))
  }

  function After(v: Visitor, e: Expr): (r: Expr) {
    if !e.Constant? && e in v.after then v.after[e] else e
  }

  function Visit(v: Visitor, e: Expr): (r: Expr)
    requires ValidVisitor(v) && Wf(e)
    ensures Shrinks(r, e)
    decreases Weight(e), 0
  {
    hide Pow2, Apply, Rebuild, Weight, Wf, Width;
    if e.Constant? then e
    else if e in v.before then ConstantLighter(v.before[e], e); v.before[e]
    else
      KidWeights(e, Kids(e));
      var ks := VisitAll(v, Kids(e));
      var r := if ks == Kids(e) then e
               else var b := Rebuild(e, ks); if v.again then Visit(v, b) else b;
      AfterShrinks(v, r);
      After(v, r)
  }

  function VisitAll(v: Visitor, es: seq<Expr>): (rs: seq<Expr>)
    requires ValidVisitor(v) && forall i :: 0 <= i < |es| ==> Wf(es[i])
    ensures Replaces(rs, es)
    ensures rs == es || SumWeight(rs) < SumWeight(es)
    decreases SumWeight(es), 1
  {
    hide Pow2, Apply, Weight, Wf, Width;
    if es == [] then [] else
      var r, rest := Visit(v, es[0]), VisitAll(v, es[1..]);
      OneMoreVisited(r, rest, es);
      hide Shrinks, Replaces;
      [r] + rest
  }

  lemma {:induction false} OneMoreVisited(r: Expr, rest: seq<Expr>, es: seq<Expr>)
    requires es != [] && Wf(es[0]) && Shrinks(r, es[0])
    requires Replaces(rest, es[1..]) && (rest == es[1..] || SumWeight(rest) < SumWeight(es[1..]))
    ensures Replaces([r] + rest, es) && ([r] + rest == es || SumWeight([r] + rest) < SumWeight(es))
  {
    hide Weight, Wf, Width;
    var rs := [r] + rest;
    assert rs[1..] == rest;
    assert r == es[0] && rest == es[1..] ==> rs == es;
    forall i | 0 <= i < |rs| ensures Wf(es[i]) && Wf(rs[i]) && Width(rs[i]) == Width(es[i]) {
      if i > 0 { assert rs[i] == rest[i - 1] && es[i] == es[1..][i - 1]; }
    }
  }

  lemma {:induction false} ConstantLighter(c: Expr, e: Expr)
    requires Wf(e) && !e.Constant? && c.Constant?
    ensures Weight(c) < Weight(e)
  {
    hide Pow2;
  }

  lemma {:induction false} AfterShrinks(v: Visitor, e: Expr)
    requires ValidVisitor(v) && Wf(e)
    ensures Shrinks(After(v, e), e)
  {
    hide Pow2, Weight, Wf, Width;
    if !e.Constant? && e in v.after { ConstantLighter(v.after[e], e); }
  }

  // ------------------------------------------------------- meaning preserved

  lemma {:induction false} RebuildMeaning(e: Expr, ks: seq<Expr>, a: Assignment)
    requires Wf(e) && !e.Constant? && Replaces(ks, Kids(e))
    requires forall i :: 0 <= i < |ks| ==> Eval(ks[i], a) == Eval(Kids(e)[i], a)
    ensures Eval(Rebuild(e, ks), a) == Eval(e, a)
  {
    hide Apply, Pow2, Weight, Wrap, SignExtend, ConcatBits, ExtractBits, BinaryCreate, ReadCreate, SelectCreate;
    hide ConcatCreate, ExtractCreate, ZExtCreate, SExtCreate, NotCreate;
    match e
    case NotOptimized(_) =>
    case Read(root, us, _) => ReadMeaning(root, us, ks[0], a);
    case Select(_, _, _) => SelectMeaning(ks[0], ks[1], ks[2], a);
    case Concat(_, _) => ConcatMeaning(ks[0], ks[1], a);
    case Extract(_, off, w) => ExtractMeaning(ks[0], off, w, a);
    case ZExt(s, w) =>
      ZExtMeaning(ks[0], w, a);
      Pow2Monotonic(Width(s), w);
      WrapSmall(Eval(s, a), w);
    case SExt(_, w) => SExtMeaning(ks[0], w, a);
    case Not(s) => NotMeaning(ks[0], a); WrapComplement(Eval(s, a), Width(s));
    case Binary(k, _, _) => BinaryMeaning(k, ks[0], ks[1], a);
  }

  predicate AgreesUnder(m: map<Expr, Expr>, a: Assignment) {
    forall k :: k in m ==> Eval(m[k], a) == Eval(k, a)
  }

  /** Visiting keeps the value under every assignment on which the replaced
      expressions equal their replacements. */
  lemma {:induction false} VisitMeaning(v: Visitor, e: Expr, a: Assignment)
    requires ValidVisitor(v) && Wf(e) && AgreesUnder(v.before, a) && AgreesUnder(v.after, a)
    ensures Eval(Visit(v, e), a) == Eval(e, a)
    decreases Weight(e), 0
  {
    hide Pow2, Apply, Rebuild, Weight, Wf, Width, Eval, Kids;
    if !e.Constant? && e !in v.before {
      KidWeights(e, Kids(e));
      VisitAllMeaning(v, Kids(e), a);
      var ks := VisitAll(v, Kids(e));
      if ks != Kids(e) {
        RebuildMeaning(e, ks, a);
        if v.again { VisitMeaning(v, Rebuild(e, ks), a); }
      }
    }
  }

  lemma {:induction false} VisitAllMeaning(v: Visitor, es: seq<Expr>, a: Assignment)
    requires ValidVisitor(v) && forall i :: 0 <= i < |es| ==> Wf(es[i])
    requires AgreesUnder(v.before, a) && AgreesUnder(v.after, a)
    ensures forall i :: 0 <= i < |es| ==> Eval(VisitAll(v, es)[i], a) == Eval(es[i], a)
    decreases SumWeight(es), 1
  {
    hide Pow2, Apply, Weight, Wf, Width, Eval;
    if es == [] {
    } else {
      VisitMeaning(v, es[0], a);
      VisitAllMeaning(v, es[1..], a);
    }
  }

  // -------------------------------------------------------- canonical form kept

  predicate AllCanon(es: seq<Expr>) {
    forall i :: 0 <= i < |es| ==> Canon(es[i])
  }

  lemma {:induction false} KidsCanon(e: Expr)
    requires Canon(e)
    ensures AllCanon(Kids(e))
  { }

  lemma {:induction false} CastCanon(x: Expr, w: nat)
    requires Wf(x) && Canon(x) && 0 < w
    ensures Canon(ZExtCreate(x, w)) && Canon(SExtCreate(x, w)) && Canon(NotCreate(x))
  {
    hide Wf, Width, Pow2, ExtractCreate;
    if w < Width(x) { ExtractCanon(x, 0, w); }
  }

  lemma {:induction false} RebuildCanon(e: Expr, ks: seq<Expr>)
    requires Wf(e) && Canon(e) && !e.Constant? && Replaces(ks, Kids(e)) && AllCanon(ks)
    ensures Canon(Rebuild(e, ks))
  {
    hide Apply, Pow2, Weight, BinaryCreate, ReadCreate, SelectCreate, ConcatCreate, ExtractCreate;
    hide ZExtCreate, SExtCreate, NotCreate;
    match e
    case NotOptimized(_) =>
    case Read(root, us, _) => ReadCanon(root, us, ks[0]);
    case Select(_, _, _) => SelectCanon(ks[0], ks[1], ks[2]);
    case Concat(_, _) => ConcatCanon(ks[0], ks[1]);
    case Extract(_, off, w) => ExtractCanon(ks[0], off, w);
    case ZExt(_, w) => CastCanon(ks[0], w);
    case SExt(_, w) => CastCanon(ks[0], w);
    case Not(_) => CastCanon(ks[0], 1);
    case Binary(k, _, _) => BinaryCanon(k, ks[0], ks[1]);
  }

  /** Visiting keeps canonical form, since replacements are constants. */
  lemma {:induction false} VisitCanon(v: Visitor, e: Expr)
    requires ValidVisitor(v) && Wf(e) && Canon(e)
    ensures Canon(Visit(v, e))
    decreases Weight(e), 0
  {
    hide Pow2, Apply, Rebuild, Weight, Wf, Width, Kids;
    if !e.Constant? && e !in v.before {
      KidWeights(e, Kids(e));
      KidsCanon(e);
      VisitAllCanon(v, Kids(e));
      var ks := VisitAll(v, Kids(e));
      if ks != Kids(e) {
        RebuildCanon(e, ks);
        if v.again { VisitCanon(v, Rebuild(e, ks)); }
      }
    }
  }

  lemma {:induction false} VisitAllCanon(v: Visitor, es: seq<Expr>)
    requires ValidVisitor(v) && (forall i :: 0 <= i < |es| ==> Wf(es[i])) && AllCanon(es)
    ensures AllCanon(VisitAll(v, es))
    decreases SumWeight(es), 1
  {
    hide Pow2, Apply, Weight, Wf, Width, Canon;
    if es == [] {
    } else {
      VisitCanon(v, es[0]);
      VisitAllCanon(v, es[1..]);
    }
  }

  // ------------------------------------------------------- nothing left to replace

  /** No part of the expression is one of the keys. */
  ghost predicate Normal(keys: set<Expr>, e: Expr)
    requires Wf(e)
    decreases Weight(e)
  {
    e.Constant? || (e !in keys && NormalParts(keys, e))
  }

  ghost predicate NormalParts(keys: set<Expr>, e: Expr)
    requires Wf(e) && !e.Constant?
    decreases Weight(e), 0
  {
    PartsLighter(e);
    forall k :: 0 <= k < |Kids(e)| ==> Normal(keys, Kids(e)[k])
  }

  lemma {:induction false} PartsLighter(e: Expr)
    requires Wf(e) && !e.Constant?
    ensures forall k :: 0 <= k < |Kids(e)| ==> Wf(Kids(e)[k]) && Weight(Kids(e)[k]) < Weight(e)
  {
    hide Wf, Width, Weight, Kids;
    KidWeights(e, Kids(e));
    forall k | 0 <= k < |Kids(e)| ensures Weight(Kids(e)[k]) < Weight(e) { OneOfMany(Kids(e), k); }
  }

  /** Visiting rebuilt nodes again leaves nothing that could still be replaced. */
  lemma {:induction false} VisitNormal(m: map<Expr, Expr>, e: Expr)
    requires ToConstants(m) && Wf(e)
    ensures Normal(m.Keys, Visit(ReplaceMany(m), e))
    decreases Weight(e)
  {
    hide Pow2, Apply, Rebuild, Weight, Wf, Width, Kids, Normal, NormalParts;
    var v := ReplaceMany(m);
    if e.Constant? {
      ConstantNormal(m.Keys, e);
    } else {
      KidWeights(e, Kids(e));
      PartsLighter(e);
      var ks := VisitAll(v, Kids(e));
      if ks == Kids(e) {
        forall k | 0 <= k < |ks| ensures Normal(m.Keys, ks[k]) {
          VisitNormal(m, ks[k]);
          VisitAllAt(v, ks, k);
        }
        PartsNormal(m, e);
      } else {
        VisitNormal(m, Rebuild(e, ks));
        StillNormal(m, Visit(v, Rebuild(e, ks)));
      }
    }
  }

  lemma {:induction false} ConstantNormal(keys: set<Expr>, e: Expr)
    requires Wf(e) && e.Constant?
    ensures Normal(keys, e)
  { }

  lemma {:induction false} PartsNormal(m: map<Expr, Expr>, e: Expr)
    requires ToConstants(m) && Wf(e) && !e.Constant?
    requires forall k :: 0 <= k < |Kids(e)| ==> Wf(Kids(e)[k]) && Normal(m.Keys, Kids(e)[k])
    ensures Wf(After(ReplaceMany(m), e)) && Normal(m.Keys, After(ReplaceMany(m), e)) && NormalParts(m.Keys, e)
  {
    hide Wf, Width, Kids;
  }

  lemma {:induction false} StillNormal(m: map<Expr, Expr>, e: Expr)
    requires ToConstants(m) && Wf(e) && Normal(m.Keys, e)
    ensures After(ReplaceMany(m), e) == e
  {
    hide Wf, Width, NormalParts;
  }

  /** An expression without such parts is replaced if it is a key itself, and stays otherwise. */
  lemma {:induction false} VisitKey(m: map<Expr, Expr>, e: Expr)
    requires ToConstants(m) && Wf(e) && !e.Constant? && NormalParts(m.Keys, e)
    ensures Visit(ReplaceMany(m), e) == if e in m then m[e] else e
    decreases Weight(e)
  {
    hide Pow2, Apply, Rebuild, Weight, Wf, Width, Kids;
    var v := ReplaceMany(m);
    PartsLighter(e);
    KidWeights(e, Kids(e));
    forall k | 0 <= k < |Kids(e)| ensures VisitAll(v, Kids(e))[k] == Kids(e)[k] {
      VisitAllAt(v, Kids(e), k);
      if !Kids(e)[k].Constant? { VisitKey(m, Kids(e)[k]); }
    }
    hide NormalParts, Normal;
    assert VisitAll(v, Kids(e)) == Kids(e);
  }

  /** Replacing one expression changes exactly the expressions that have it as a part, and
      turns the expression itself into its replacement. */
  lemma {:induction false} VisitChanges(src: Expr, dst: Expr, e: Expr)
    requires ValidVisitor(ReplaceOne(src, dst)) && Wf(e)
    ensures Visit(ReplaceOne(src, dst), e) == e <==> Normal({src}, e)
    ensures e == src && !src.Constant? ==> Visit(ReplaceOne(src, dst), e) == dst
    decreases Weight(e)
  {
    hide Pow2, Apply, Rebuild, Weight, Wf, Width, Kids;
    var v := ReplaceOne(src, dst);
    if !e.Constant? && e != src {
      PartsLighter(e);
      KidWeights(e, Kids(e));
      var ks := VisitAll(v, Kids(e));
      forall k | 0 <= k < |ks| ensures ks[k] == Kids(e)[k] <==> Normal({src}, Kids(e)[k]) {
        VisitAllAt(v, Kids(e), k);
        VisitChanges(src, dst, Kids(e)[k]);
      }
      hide Normal;
      if forall k :: 0 <= k < |ks| ==> ks[k] == Kids(e)[k] {
        assert ks == Kids(e);
      }
    }
  }

  // ------------------------------------------------------ the memoising visitor

  class ExprVisitor {
    const v: Visitor
    var visited: map<Expr, Expr>

    /** The memo table only ever holds results of visits. */
    ghost predicate Valid()
      reads this
    {
      && ValidVisitor(v)
      && forall e :: e in visited ==> Wf(e) && visited[e] == Visit(v, e)
    }

    constructor (v: Visitor)
      requires ValidVisitor(v)
      ensures Valid() && this.v == v
    {
      this.v := v;
      visited := map[];
    }

    /** The memo table is used for everything but constants. */
    method VisitMemo(e: Expr) returns (r: Expr)
      requires Valid() && Wf(e)
      modifies this
      ensures Valid() && r == Visit(v, e)
      ensures old(visited).Keys <= visited.Keys && (e.Constant? || e in visited)
      decreases Weight(e), 1
    {
      hide Visit, Weight, Wf, Pow2, Apply;
      if e.Constant? {
        r := VisitActual(e);
      } else if e in visited {
        r := visited[e];
      } else {
        r := VisitActual(e);
        visited := visited[e := r];
      }
    }

    method VisitActual(e: Expr) returns (r: Expr)
      requires Valid() && Wf(e)
      modifies this
      ensures Valid() && r == Visit(v, e) && old(visited).Keys <= visited.Keys
      decreases Weight(e), 0
    {
      hide Pow2, Apply, Rebuild, Weight, Wf, Width, Kids, VisitAll;
      if e.Constant? {
        return e;
      }
      if e in v.before {
        return v.before[e];
      }
      KidWeights(e, Kids(e));
      var kids, rebuild := VisitKids(Kids(e));
      r := e;
      if rebuild {
        r := Rebuild(e, kids);
        if v.again {
          r := VisitMemo(r);
        }
      }
      if !r.Constant? && r in v.after {
        r := v.after[r];
      }
    }

    /** Visits every child and reports whether any of them changed. */
    method VisitKids(es: seq<Expr>) returns (kids: seq<Expr>, rebuild: bool)
      requires Valid() && forall i :: 0 <= i < |es| ==> Wf(es[i])
      modifies this
      ensures Valid() && kids == VisitAll(v, es)
      ensures (rebuild <==> kids != es) && old(visited).Keys <= visited.Keys
      decreases SumWeight(es), 2
    {
      hide Pow2, Apply, Weight, Wf, Width, Visit, VisitAll;
      kids, rebuild := [], false;
      for i := 0 to |es|
        invariant Valid() && old(visited).Keys <= visited.Keys
        invariant |VisitAll(v, es)| == |es| && kids == VisitAll(v, es)[..i]
        invariant rebuild <==> kids != es[..i]
      {
        OneOfMany(es, i);
        VisitAllAt(v, es, i);
        var kid := VisitMemo(es[i]);
        if kid != es[i] { rebuild := true; }
        assert es[..i + 1] == es[..i] + [es[i]];
        kids := kids + [kid];
      }
      assert es[..|es|] == es;
    }
  }

  lemma {:induction false} OneOfMany(es: seq<Expr>, i: nat)
    requires i < |es|
    ensures Weight(es[i]) <= SumWeight(es)
  {
    hide Weight;
    if i == 0 {
    } else {
      OneOfMany(es[1..], i - 1);
    }
  }

  lemma {:induction false} VisitAllAt(v: Visitor, es: seq<Expr>, i: nat)
    requires ValidVisitor(v) && (forall j :: 0 <= j < |es| ==> Wf(es[j])) && i < |es|
    ensures VisitAll(v, es)[i] == Visit(v, es[i])
  {
    hide Visit, Wf, Weight, Width;
    if i == 0 {
    } else {
      VisitAllAt(v, es[1..], i - 1);
    }
  }
}
