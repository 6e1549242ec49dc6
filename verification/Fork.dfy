/** Forking: how branches, switches and memory accesses split execution states. A path
    condition is a predicate on assignments, and the solver answers exactly or times out. */
module Forking {
  import opened Options
  import PTrees

  datatype Answer = TimedOut | True | False | Unknown

  datatype Solver<!A> = Solver(
    evaluate: (A -> bool, A -> bool) -> Answer,
    mayBeTrue: (A -> bool, A -> bool) -> bool)

  ghost predicate Possible<A(!new)>(pc: A -> bool, c: A -> bool) {
    exists a :: pc(a) && c(a)
  }

  ghost predicate Exact<A(!new)>(s: Solver<A>) {
    && (forall pc: A -> bool, c: A -> bool ::
         && (s.evaluate(pc, c) == True ==> forall a :: pc(a) ==> c(a))
         && (s.evaluate(pc, c) == False ==> forall a :: pc(a) ==> !c(a))
         && (s.evaluate(pc, c) == Unknown ==> Possible(pc, c) && Possible(pc, Neg(c))))
    && (forall pc: A -> bool, c: A -> bool :: s.mayBeTrue(pc, c) <==> Possible(pc, c))
  }

  lemma {:induction false} AnswerMeans<A(!new)>(s: Solver<A>, pc: A -> bool, c: A -> bool)
    requires Exact(s)
    ensures s.evaluate(pc, c) == True ==> forall a :: pc(a) ==> c(a)
    ensures s.evaluate(pc, c) == False ==> forall a :: pc(a) ==> !c(a)
    ensures s.evaluate(pc, c) == Unknown ==> Possible(pc, c) && Possible(pc, Neg(c))
  { }

  datatype State<!A> = State(pc: A -> bool, depth: nat, block: int)

  function Conj<A(!new)>(p: A -> bool, q: A -> bool): (r: A -> bool)
    ensures forall a :: r(a) <==> p(a) && q(a)
  {
    a => p(a) && q(a)
  }

  function Neg<A(!new)>(p: A -> bool): (r: A -> bool)
    ensures forall a :: r(a) <==> !p(a)
  {
    a => !p(a)
  }

  function Disj<A(!new)>(p: A -> bool, q: A -> bool): (r: A -> bool)
    ensures forall a :: r(a) <==> p(a) || q(a)
  {
    a => p(a) || q(a)
  }

  // ------------------------------------------------------------------ partition

  /** Assignment `a` follows state `k`. */
  predicate Holds<A>(t: map<int, State<A>>, k: int, a: A) {
    k in t && t[k].pc(a)
  }

  /** Every initial assignment follows exactly one state, and no other assignment does. */
  ghost predicate Partition<A(!new)>(t: map<int, State<A>>, init: A -> bool) {
    && (forall a, k :: Holds(t, k, a) ==> init(a))
    && (forall a :: init(a) ==> exists k :: Holds(t, k, a))
    && (forall a, j, k :: Holds(t, j, a) && Holds(t, k, a) ==> j == k)
  }

  /** Every state has at least one assignment that follows it. */
  ghost predicate Feasible<A(!new)>(t: map<int, State<A>>) {
    forall k :: k in t ==> exists a :: Holds(t, k, a)
  }

  /** State `id` of `t` is split into the states `parts` of `r`. */
  ghost predicate Splits<A(!new)>(t: map<int, State<A>>, r: map<int, State<A>>, id: int, parts: seq<int>) {
    && id in t && id in parts
    && (forall k :: k in r <==> k in t || k in parts)
    && (forall k :: k in t && k in parts ==> k == id)
    && (forall k :: k in t && k != id ==> r[k] == t[k])
    && (forall k, a :: k in parts && Holds(r, k, a) ==> Holds(t, id, a))
    && (forall a :: Holds(t, id, a) ==> exists k :: k in parts && Holds(r, k, a))
    && (forall j, k, a :: j in parts && k in parts && Holds(r, j, a) && Holds(r, k, a) ==> j == k)
  }

  lemma {:induction false} SplitKeepsPartition<A(!new)>(
      t: map<int, State<A>>, r: map<int, State<A>>, id: int, parts: seq<int>, init: A -> bool)
    requires Partition(t, init) && Splits(t, r, id, parts)
    ensures Partition(r, init)
  {
    forall a, k | Holds(r, k, a) ensures Holds(t, if k in parts then id else k, a) { }
    forall a | init(a) ensures exists k :: Holds(r, k, a) {
      var k :| Holds(t, k, a);
      if k != id { assert Holds(r, k, a); }
    }
    forall a, j, k | Holds(r, j, a) && Holds(r, k, a) ensures j == k {
      assert Holds(t, if j in parts then id else j, a);
      assert Holds(t, if k in parts then id else k, a);
    }
  }

  lemma {:induction false} OneState<A(!new)>(t: map<int, State<A>>, init: A -> bool)
    requires t.Keys == {0} && t[0].pc == init && exists a :: init(a)
    ensures Partition(t, init) && Feasible(t)
  {
    forall a ensures init(a) <==> Holds(t, 0, a) { }
  }

  lemma {:induction false} UnchangedSplits<A(!new)>(t: map<int, State<A>>, id: int)
    requires id in t
    ensures Splits(t, t, id, [id])
  {
    forall a | Holds(t, id, a) ensures exists k :: k in [id] && Holds(t, k, a) { assert id in [id]; }
  }

  /** The two sides of a branch. */
  lemma {:induction false} SidesSplit<A(!new)>(t: map<int, State<A>>, r: map<int, State<A>>, id: int, child: int, c: A -> bool)
    requires id in t && child !in t && r.Keys == t.Keys + {child}
    requires forall k :: k in t && k != id ==> r[k] == t[k]
    requires forall a :: r[id].pc(a) <==> t[id].pc(a) && c(a)
    requires forall a :: r[child].pc(a) <==> t[id].pc(a) && !c(a)
    ensures Splits(t, r, id, [id, child])
  {
    forall a | Holds(t, id, a) ensures exists k :: k in [id, child] && Holds(r, k, a) {
      assert id in [id, child] && child in [id, child];
      assert Holds(r, if c(a) then id else child, a);
    }
  }

  lemma {:induction false} SidesFeasible<A(!new)>(t: map<int, State<A>>, r: map<int, State<A>>, id: int, child: int, c: A -> bool)
    requires Feasible(t)
    requires id in t && child !in t && r.Keys == t.Keys + {child}
    requires forall k :: k in t && k != id ==> r[k] == t[k]
    requires exists a :: r[id].pc(a)
    requires exists a :: r[child].pc(a)
    ensures Feasible(r)
  {
    forall k | k in r ensures exists a :: Holds(r, k, a) {
      if k != id && k != child {
        var a :| Holds(t, k, a);
        assert Holds(r, k, a);
      } else {
        var a :| r[k].pc(a);
        assert Holds(r, k, a);
      }
    }
  }

  predicate Distinct(xs: seq<int>) {
    forall i, j :: 0 <= i < j < |xs| ==> xs[i] != xs[j]
  }

  lemma {:induction false} EraseOne(xs: seq<int>, i: nat)
    requires Distinct(xs) && i < |xs|
    ensures Distinct(xs[..i] + xs[i + 1..])
    ensures forall k :: k in xs[..i] + xs[i + 1..] <==> k in xs && k != xs[i]
  {
    var ys := xs[..i] + xs[i + 1..];
    forall k | k in xs && k != xs[i] ensures k in ys {
      var j :| 0 <= j < |xs| && xs[j] == k;
      assert k == ys[if j < i then j else j - 1];
    }
  }

  /** Splitting a part splits the whole. */
  lemma {:induction false} SplitAgain<A(!new)>(
      t: map<int, State<A>>, r: map<int, State<A>>, q: map<int, State<A>>, id: int, parts: seq<int>, u: int, more: seq<int>)
    requires Splits(t, r, id, parts) && Splits(r, q, u, more) && u in parts
    ensures Splits(t, q, id, parts + more)
  {
    var all := parts + more;
    forall k, a | k in all && Holds(q, k, a) ensures Holds(r, if k in more then u else k, a) { }
    forall a | Holds(t, id, a) ensures exists k :: k in all && Holds(q, k, a) {
      var k :| k in parts && Holds(r, k, a);
      if k == u {
        var j :| j in more && Holds(q, j, a);
        assert j in all;
      } else {
        assert k in all && Holds(q, k, a);
      }
    }
    forall j, k, a | j in all && k in all && Holds(q, j, a) && Holds(q, k, a) ensures j == k {
      assert Holds(r, if j in more then u else j, a);
      assert Holds(r, if k in more then u else k, a);
    }
    forall k | k in t && k in all ensures k == id { }
    forall k ensures k in q <==> k in t || k in all { }
  }

  /** State `id` of `t` became the states `ways` of `r`; way `i` also satisfies condition `i`. */
  ghost predicate Ways<A(!new)>(t: map<int, State<A>>, r: map<int, State<A>>, id: int, ways: seq<int>, conditions: seq<A -> bool>) {
    && id in t && |ways| == |conditions| > 0 && ways[0] == id && Distinct(ways)
    && (forall k :: k in r <==> k in t || k in ways)
    && (forall k :: k in t && k in ways ==> k == id)
    && (forall k :: k in t && k != id ==> r[k] == t[k])
    && (forall i, a :: 0 <= i < |ways| ==> (Holds(r, ways[i], a) <==> Holds(t, id, a) && conditions[i](a)))
  }

  /** Exactly condition `chosen(a)` holds for an assignment of the path condition. */
  ghost predicate Chooses<A(!new)>(pc: A -> bool, conditions: seq<A -> bool>, chosen: A -> int) {
    && (forall a :: pc(a) ==> 0 <= chosen(a) < |conditions|)
    && (forall i, a :: 0 <= i < |conditions| && pc(a) ==> (conditions[i](a) <==> i == chosen(a)))
  }

  lemma {:induction false} WaysSplit<A(!new)>(
      t: map<int, State<A>>, r: map<int, State<A>>, id: int, ways: seq<int>, conditions: seq<A -> bool>, chosen: A -> int)
    requires Ways(t, r, id, ways, conditions) && Chooses(t[id].pc, conditions, chosen)
    ensures Splits(t, r, id, ways)
  {
    assert id == ways[0] && id in ways;
    forall a | Holds(t, id, a) ensures exists k :: k in ways && Holds(r, k, a) {
      var k := ways[chosen(a)];
      assert k in ways && Holds(r, k, a);
    }
  }

  lemma {:induction false} WaysFeasible<A(!new)>(
      t: map<int, State<A>>, r: map<int, State<A>>, id: int, ways: seq<int>, conditions: seq<A -> bool>)
    requires Feasible(t) && Ways(t, r, id, ways, conditions)
    requires forall i :: 0 <= i < |conditions| ==> Possible(t[id].pc, conditions[i])
    ensures Feasible(r)
  {
    assert id == ways[0] && id in ways;
    forall k | k in r ensures exists a :: Holds(r, k, a) {
      if k in ways {
        var i :| 0 <= i < |ways| && ways[i] == k;
        assert Possible(t[id].pc, conditions[i]);
        var a :| t[id].pc(a) && conditions[i](a);
        assert Holds(t, id, a);
        assert Holds(r, ways[i], a);
      } else {
        var a :| Holds(t, k, a);
        assert Holds(r, k, a);
      }
    }
  }

  /** The share of the search that states at these depths have together. */
  ghost function Share<A>(t: map<int, State<A>>, ks: seq<int>): (r: real)
    requires forall k :: k in ks ==> k in t
  {
    if ks == [] then 0.0
    else
      var k := ks[|ks| - 1];
      assert k in ks;
      Share(t, ks[..|ks| - 1]) + PTrees.Share(t[k].depth)
  }

  /** The ways of state `id` share what it had, half for each level. */
  ghost predicate Shares<A>(t: map<int, State<A>>, r: map<int, State<A>>, id: int, ways: seq<int>) {
    && id in t && (forall k :: k in ways ==> k in r && r[k].depth >= t[id].depth)
    && Share(r, ways) == PTrees.Share(t[id].depth)
  }

  lemma {:induction false} SharesStart<A>(t: map<int, State<A>>, id: int)
    requires id in t
    ensures Shares(t, t, id, [id])
  {
    assert [id][..0] == [];
  }

  lemma {:induction false} SameShare<A>(t: map<int, State<A>>, r: map<int, State<A>>, ks: seq<int>)
    requires forall k :: k in ks ==> k in t && k in r && r[k].depth == t[k].depth
    ensures Share(r, ks) == Share(t, ks)
  {
    if ks == [] {
    } else {
      var k := ks[|ks| - 1];
      assert k in ks && r[k].depth == t[k].depth;
      SameShare(t, r, ks[..|ks| - 1]);
    }
  }

  lemma {:induction false} HalfShare<A>(t: map<int, State<A>>, r: map<int, State<A>>, ks: seq<int>, from: int)
    requires Distinct(ks) && from in ks && forall k :: k in ks ==> k in t && k in r
    requires forall k :: k in ks && k != from ==> r[k].depth == t[k].depth
    requires r[from].depth == t[from].depth + 1
    ensures Share(r, ks) + PTrees.Share(r[from].depth) == Share(t, ks)
  {
    var n := |ks| - 1;
    assert ks[n] in ks;
    if ks[n] == from {
      SameShare(t, r, ks[..n]);
    } else {
      HalfShare(t, r, ks[..n], from);
    }
  }

  lemma {:induction false} CopyShares<A>(t: map<int, State<A>>, mid: map<int, State<A>>, r: map<int, State<A>>, id: int, ways: seq<int>,
      from: int, copy: int)
    requires Shares(t, mid, id, ways) && Distinct(ways) && from in ways && copy !in ways
    requires copy in r && forall k :: k in ways ==> k in r
    requires forall k :: k in ways && k != from ==> r[k] == mid[k]
    requires r[from].depth == r[copy].depth == mid[from].depth + 1
    ensures Shares(t, r, id, ways + [copy])
  {
    HalfShare(mid, r, ways, from);
    assert (ways + [copy])[..|ways|] == ways;
  }

  lemma {:induction false} SharesStay<A>(t: map<int, State<A>>, mid: map<int, State<A>>, r: map<int, State<A>>, id: int, ways: seq<int>)
    requires Shares(t, mid, id, ways)
    requires forall k :: k in ways ==> k in r && r[k].depth == mid[k].depth
    ensures Shares(t, r, id, ways)
  {
    SameShare(mid, r, ways);
  }

  lemma {:induction false} WaysMeans<A(!new)>(
      t: map<int, State<A>>, r: map<int, State<A>>, id: int, ways: seq<int>, conditions: seq<A -> bool>)
    requires Ways(t, r, id, ways, conditions)
    ensures |ways| == |conditions| && Distinct(ways) && forall i :: 0 <= i < |ways| ==> ways[i] in r
  { }

  /** Table `r` is `t` with each way at its block. */
  ghost predicate Moved<A(!new)>(t: map<int, State<A>>, r: map<int, State<A>>, ways: seq<int>, blocks: seq<int>) {
    && |ways| == |blocks| && r.Keys == t.Keys
    && (forall k :: k in t && k !in ways ==> r[k] == t[k])
    && (forall k :: k in t ==> r[k].pc == t[k].pc && r[k].depth == t[k].depth)
    && (forall i :: 0 <= i < |ways| ==> ways[i] in r && r[ways[i]].block == blocks[i])
  }

  lemma {:induction false} MovedShares<A(!new)>(
      t: map<int, State<A>>, mid: map<int, State<A>>, r: map<int, State<A>>, id: int, ways: seq<int>, blocks: seq<int>)
    requires Shares(t, mid, id, ways) && Moved(mid, r, ways, blocks)
    ensures Shares(t, r, id, ways)
  {
    SharesStay(t, mid, r, id, ways);
  }

  /** Moving the ways to other blocks changes nothing about this. */
  lemma {:induction false} WaysMove<A(!new)>(
      t: map<int, State<A>>, mid: map<int, State<A>>, r: map<int, State<A>>, id: int, ways: seq<int>, conditions: seq<A -> bool>,
      blocks: seq<int>)
    requires Ways(t, mid, id, ways, conditions) && Moved(mid, r, ways, blocks)
    ensures Ways(t, r, id, ways, conditions)
  {
    SameConditions(mid, r);
    forall k | k in t && k != id ensures r[k] == t[k] { assert k !in ways; }
  }

  /** Where an assignment goes when each way has been sent to its block. */
  lemma {:induction false} WayOf<A(!new)>(
      t: map<int, State<A>>, r: map<int, State<A>>, id: int, ways: seq<int>, conditions: seq<A -> bool>, chosen: A -> int,
      k: int, a: A)
    requires Ways(t, r, id, ways, conditions) && Chooses(t[id].pc, conditions, chosen)
    requires k in ways && Holds(r, k, a)
    ensures t[id].pc(a) && 0 <= chosen(a) < |ways| && k == ways[chosen(a)]
  {
    var i :| 0 <= i < |ways| && ways[i] == k;
    assert Holds(r, ways[i], a) <==> Holds(t, id, a) && conditions[i](a);
  }

  lemma {:induction false} WaysArrive<A(!new)>(
      t: map<int, State<A>>, r: map<int, State<A>>, id: int, ways: seq<int>, conditions: seq<A -> bool>, chosen: A -> int,
      blocks: seq<int>, goal: A -> int)
    requires Ways(t, r, id, ways, conditions) && Chooses(t[id].pc, conditions, chosen) && |blocks| == |ways|
    requires forall i :: 0 <= i < |ways| ==> r[ways[i]].block == blocks[i]
    requires forall a :: t[id].pc(a) && 0 <= chosen(a) < |blocks| ==> blocks[chosen(a)] == goal(a)
    ensures forall k, a :: k in ways && Holds(r, k, a) ==> r[k].block == goal(a)
  {
    hide Ways, Chooses;
    forall k, a | k in ways && Holds(r, k, a) ensures r[k].block == goal(a) {
      WayOf(t, r, id, ways, conditions, chosen, k, a);
    }
  }

  lemma {:induction false} SameConditions<A(!new)>(t: map<int, State<A>>, r: map<int, State<A>>)
    requires r.Keys == t.Keys && forall k :: k in t ==> r[k].pc == t[k].pc
    ensures forall k, a :: Holds(r, k, a) <==> Holds(t, k, a)
    ensures Feasible(t) ==> Feasible(r)
  {
    if Feasible(t) {
      forall k | k in r ensures exists a :: Holds(r, k, a) {
        var a :| Holds(t, k, a);
        assert Holds(r, k, a);
      }
    }
  }

  // ------------------------------------------------------------ lowering a switch

  /** The target of the first case with value `v`. */
  function FirstCase(cases: seq<(int, int)>, v: int): (r: Option<int>) {
    if cases == [] then None
    else if cases[0].0 == v then Some(cases[0].1)
    else FirstCase(cases[1..], v)
  }

  /** Where concrete execution goes. */
  function Successor(cases: seq<(int, int)>, default: int, v: int): (r: int) {
    var c := FirstCase(cases, v);
    if c.Some? then c.value else default
  }

  function Goal<A(!new)>(cases: seq<(int, int)>, default: int, cond: A -> int): (r: A -> int)
    ensures forall a :: r(a) == Successor(cases, default, cond(a))
  {
    a => Successor(cases, default, cond(a))
  }

  lemma {:induction false} FirstCaseAppend(cases: seq<(int, int)>, c: (int, int), v: int)
    ensures FirstCase(cases + [c], v) ==
      if FirstCase(cases, v).Some? then FirstCase(cases, v) else if c.0 == v then Some(c.1) else None
  {
    if cases == [] {
    } else {
      assert (cases + [c])[1..] == cases[1..] + [c];
      FirstCaseAppend(cases[1..], c, v);
    }
  }

  /** The table of case values; a repeated value keeps its first target. */
  method OrderCases(cases: seq<(int, int)>) returns (m: map<int, int>)
    ensures forall v :: FirstCase(cases, v) == if v in m then Some(m[v]) else None
  {
    m := map[];
    for i := 0 to |cases|
      invariant forall v :: FirstCase(cases[..i], v) == if v in m then Some(m[v]) else None
    {
      assert cases[..i + 1] == cases[..i] + [cases[i]];
      forall v ensures FirstCase(cases[..i + 1], v) ==
        if FirstCase(cases[..i], v).Some? then FirstCase(cases[..i], v)
        else if cases[i].0 == v then Some(cases[i].1) else None
      {
        FirstCaseAppend(cases[..i], cases[i], v);
      }
      if cases[i].0 !in m { m := m[cases[i].0 := cases[i].1]; }
    }
    assert cases[..|cases|] == cases;
  }

  function Dest(m: map<int, int>, default: int, v: int): (r: int) {
    if v in m then m[v] else default
  }

  /** Conditions collected so far: `done` holds the case values already treated. */
  ghost predicate Collected<A(!new)>(pc: A -> bool, cond: A -> int, m: map<int, int>, default: int,
      done: set<int>, targets: map<int, A -> bool>, other: A -> bool) {
    && done <= m.Keys && default !in targets
    && (forall b, a :: b in targets && pc(a) ==> (targets[b](a) <==> cond(a) in done && m[cond(a)] == b))
    && (forall a :: pc(a) && cond(a) in done && m[cond(a)] != default ==> m[cond(a)] in targets)
    && (forall a :: other(a) <==> !(cond(a) in done && m[cond(a)] != default))
    && (forall b :: b in targets ==> Possible(pc, targets[b]))
  }

  function IsCase<A(!new)>(cond: A -> int, v: int): (r: A -> bool)
    ensures forall a :: r(a) <==> cond(a) == v
  {
    a => cond(a) == v
  }

  function AddMatch<A(!new)>(targets: map<int, A -> bool>, b: int, hit: A -> bool): (r: map<int, A -> bool>)
    ensures r.Keys == targets.Keys + {b}
    ensures forall c :: c in targets && c != b ==> r[c] == targets[c]
    ensures forall a :: r[b](a) <==> hit(a) || (b in targets && targets[b](a))
  {
    targets[b := if b in targets then Disj(hit, targets[b]) else hit]
  }

  lemma {:induction false} CollectSkip<A(!new)>(pc: A -> bool, cond: A -> int, m: map<int, int>, default: int,
      done: set<int>, targets: map<int, A -> bool>, other: A -> bool, v: int)
    requires Collected(pc, cond, m, default, done, targets, other) && v in m && m[v] == default
    ensures Collected(pc, cond, m, default, done + {v}, targets, other)
  { }

  lemma {:induction false} CollectImpossible<A(!new)>(pc: A -> bool, cond: A -> int, m: map<int, int>, default: int,
      done: set<int>, targets: map<int, A -> bool>, other: A -> bool, v: int)
    requires Collected(pc, cond, m, default, done, targets, other) && v in m && m[v] != default
    requires !Possible(pc, IsCase(cond, v))
    ensures Collected(pc, cond, m, default, done + {v}, targets, Conj(other, Neg(IsCase(cond, v))))
  { }

  lemma {:induction false} CollectMatch<A(!new)>(pc: A -> bool, cond: A -> int, m: map<int, int>, default: int,
      done: set<int>, targets: map<int, A -> bool>, other: A -> bool, v: int)
    requires Collected(pc, cond, m, default, done, targets, other) && v in m && m[v] != default
    requires Possible(pc, IsCase(cond, v))
    ensures Collected(pc, cond, m, default, done + {v},
      AddMatch(targets, m[v], IsCase(cond, v)), Conj(other, Neg(IsCase(cond, v))))
  {
    var r := AddMatch(targets, m[v], IsCase(cond, v));
    forall b | b in r ensures Possible(pc, r[b]) {
      if b == m[v] {
        var a :| pc(a) && IsCase(cond, v)(a);
        assert r[b](a);
      } else {
        var a :| pc(a) && targets[b](a);
        assert r[b](a);
      }
    }
  }

  /** Each assignment of the path condition satisfies the condition of the block that
      concrete execution would take, and no other. */
  ghost predicate Routes<A(!new)>(pc: A -> bool, cond: A -> int, m: map<int, int>, default: int,
      blocks: seq<int>, conditions: seq<A -> bool>) {
    && |blocks| == |conditions|
    && (forall i, a :: 0 <= i < |blocks| && pc(a) ==> (conditions[i](a) <==> blocks[i] == Dest(m, default, cond(a))))
    && (forall a :: pc(a) ==> Dest(m, default, cond(a)) in blocks)
    && (forall i :: 0 <= i < |blocks| ==> Possible(pc, conditions[i]))
  }

  lemma {:induction false} MayMeans<A(!new)>(s: Solver<A>, pc: A -> bool, c: A -> bool)
    requires Exact(s)
    ensures s.mayBeTrue(pc, c) <==> Possible(pc, c)
  { }

  method CollectOne<A(!new)>(solver: Solver<A>, pc: A -> bool, cond: A -> int, m: map<int, int>, default: int,
      v: int, ghost done: set<int>, order: seq<int>, targets: map<int, A -> bool>, other: A -> bool)
    returns (order': seq<int>, targets': map<int, A -> bool>, other': A -> bool)
    requires Exact(solver) && v in m
    requires Collected(pc, cond, m, default, done, targets, other)
    requires Distinct(order) && forall b :: b in order <==> b in targets
    ensures Collected(pc, cond, m, default, done + {v}, targets', other')
    ensures Distinct(order') && forall b :: b in order' <==> b in targets'
  {
    hide Exact, Collected, AddMatch;
    order', targets', other' := order, targets, other;
    if m[v] == default {
      CollectSkip(pc, cond, m, default, done, targets, other, v);
    } else {
      var hit := IsCase(cond, v);
      MayMeans(solver, pc, hit);
      other' := Conj(other, Neg(hit));
      if solver.mayBeTrue(pc, hit) {
        CollectMatch(pc, cond, m, default, done, targets, other, v);
        if m[v] !in targets { order' := order + [m[v]]; }
        targets' := AddMatch(targets, m[v], hit);
      } else {
        CollectImpossible(pc, cond, m, default, done, targets, other, v);
      }
    }
  }

  method CollectTargets<A(!new)>(solver: Solver<A>, pc: A -> bool, cond: A -> int, m: map<int, int>, default: int)
    returns (order: seq<int>, targets: map<int, A -> bool>, other: A -> bool)
    requires Exact(solver)
    ensures Collected(pc, cond, m, default, m.Keys, targets, other)
    ensures Distinct(order) && forall b :: b in order <==> b in targets
  {
    order, targets, other := [], map[], a => true;
    var todo := m.Keys;
    assert Collected(pc, cond, m, default, {}, targets, other);
    hide Exact, Collected;
    assert m.Keys - todo == {};
    while todo != {}
      invariant todo <= m.Keys
      invariant Collected(pc, cond, m, default, m.Keys - todo, targets, other)
      invariant Distinct(order) && forall b :: b in order <==> b in targets
      decreases |todo|
    {
      assert (forall x :: x !in todo) ==> todo == {};
      var v :| v in todo;
      ghost var done := m.Keys - todo;
      assert m.Keys - (todo - {v}) == done + {v};
      order, targets, other := CollectOne(solver, pc, cond, m, default, v, done, order, targets, other);
      todo := todo - {v};
    }
    assert m.Keys - todo == m.Keys;
  }

  lemma {:induction false} CollectedRoutes<A(!new)>(pc: A -> bool, cond: A -> int, m: map<int, int>, default: int,
      targets: map<int, A -> bool>, other: A -> bool, reaches: bool, blocks: seq<int>, conditions: seq<A -> bool>)
    requires Collected(pc, cond, m, default, m.Keys, targets, other)
    requires |blocks| == |conditions| && (reaches <==> Possible(pc, other))
    requires forall b :: b in blocks <==> b in targets || (b == default && reaches)
    requires forall i :: 0 <= i < |blocks| ==>
      conditions[i] == if blocks[i] in targets then targets[blocks[i]] else other
    ensures Routes(pc, cond, m, default, blocks, conditions)
  {
    forall a | pc(a) ensures Dest(m, default, cond(a)) in blocks {
      if cond(a) !in m || m[cond(a)] == default { assert other(a); }
    }
    forall i, a | 0 <= i < |blocks| && pc(a)
      ensures conditions[i](a) <==> blocks[i] == Dest(m, default, cond(a))
    {
      assert blocks[i] in blocks;
    }
    forall i | 0 <= i < |blocks| ensures Possible(pc, conditions[i]) {
      assert blocks[i] in blocks;
      var b := blocks[i];
      if b in targets {
        assert conditions[i] == targets[b];
        assert Possible(pc, targets[b]);
      } else {
        assert reaches && conditions[i] == other;
      }
    }
  }

  function IndexOf(xs: seq<int>, x: int): (i: int)
    ensures x in xs ==> 0 <= i < |xs| && xs[i] == x
  {
    if xs == [] then 0 else if xs[0] == x then 0 else 1 + IndexOf(xs[1..], x)
  }

  /** Successor blocks of a switch on `cond`, each with the condition to go there. */
  method LowerSwitch<A(!new)>(solver: Solver<A>, pc: A -> bool, cond: A -> int, m: map<int, int>, default: int)
    returns (blocks: seq<int>, conditions: seq<A -> bool>)
    requires Exact(solver)
    ensures Distinct(blocks) && Routes(pc, cond, m, default, blocks, conditions)
  {
    var order, targets, other := CollectTargets(solver, pc, cond, m, default);
    var reaches := solver.mayBeTrue(pc, other);
    MayMeans(solver, pc, other);
    hide Exact;
    blocks := if reaches then order + [default] else order;
    conditions := seq(|blocks|, i requires 0 <= i < |blocks| =>
      if blocks[i] in targets then targets[blocks[i]] else other);
    CollectedRoutes(pc, cond, m, default, targets, other, reaches, blocks, conditions);
  }

  lemma {:induction false} RoutesChoose<A(!new)>(pc: A -> bool, cond: A -> int, m: map<int, int>, default: int,
      blocks: seq<int>, conditions: seq<A -> bool>, chosen: A -> int)
    requires Routes(pc, cond, m, default, blocks, conditions) && Distinct(blocks)
    requires forall a :: chosen(a) == IndexOf(blocks, Dest(m, default, cond(a)))
    ensures Chooses(pc, conditions, chosen)
  {
    hide IndexOf, Dest;
    forall a | pc(a) ensures 0 <= chosen(a) < |blocks| && blocks[chosen(a)] == Dest(m, default, cond(a)) { }
  }

  /** Conditions that send every assignment of `pc` to its block `goal(a)`, each possible. */
  ghost predicate Plan<A(!new)>(pc: A -> bool, goal: A -> int, blocks: seq<int>, conditions: seq<A -> bool>, chosen: A -> int) {
    && |blocks| == |conditions| > 0 && Chooses(pc, conditions, chosen)
    && (forall i :: 0 <= i < |conditions| ==> Possible(pc, conditions[i]))
    && (forall a :: pc(a) && 0 <= chosen(a) < |blocks| ==> blocks[chosen(a)] == goal(a))
  }

  lemma {:induction false} PlanArrives<A(!new)>(
      t: map<int, State<A>>, mid: map<int, State<A>>, r: map<int, State<A>>, id: int, ways: seq<int>,
      goal: A -> int, blocks: seq<int>, conditions: seq<A -> bool>, chosen: A -> int)
    requires Ways(t, mid, id, ways, conditions) && Moved(mid, r, ways, blocks)
    requires Plan(t[id].pc, goal, blocks, conditions, chosen)
    ensures Splits(t, r, id, ways)
    ensures forall k, a :: k in ways && Holds(r, k, a) ==> r[k].block == goal(a)
    ensures Feasible(mid) ==> Feasible(r)
  {
    SameConditions(mid, r);
    WaysMove(t, mid, r, id, ways, conditions, blocks);
    hide Ways, Chooses, Splits, Feasible;
    WaysSplit(t, r, id, ways, conditions, chosen);
    WaysArrive(t, r, id, ways, conditions, chosen, blocks, goal);
  }

  lemma {:induction false} PlanMeans<A(!new)>(pc: A -> bool, goal: A -> int, blocks: seq<int>, conditions: seq<A -> bool>, chosen: A -> int)
    requires Plan(pc, goal, blocks, conditions, chosen)
    ensures |blocks| == |conditions| > 0
    ensures forall i :: 0 <= i < |conditions| ==> Possible(pc, conditions[i])
  { }

  /** A switch as an `n`-way branch: the blocks, their conditions, and for each assignment
      the index of the block that concrete execution would take. */
  method PlanSwitch<A(!new)>(solver: Solver<A>, pc: A -> bool, cond: A -> int, cases: seq<(int, int)>, default: int)
    returns (blocks: seq<int>, conditions: seq<A -> bool>, ghost chosen: A -> int)
    requires Exact(solver) && exists a :: pc(a)
    ensures Plan(pc, Goal(cases, default, cond), blocks, conditions, chosen)
  {
    var m := OrderCases(cases);
    forall v ensures Dest(m, default, v) == Successor(cases, default, v) { }
    blocks, conditions := LowerSwitch(solver, pc, cond, m, default);
    assert |blocks| > 0 by {
      var a :| pc(a);
      assert Dest(m, default, cond(a)) in blocks;
    }
    var bs := blocks;
    chosen := a => IndexOf(bs, Dest(m, default, cond(a)));
    hide Exact, FirstCase, Dest, IndexOf, Successor;
    RoutesChoose(pc, cond, m, default, blocks, conditions, chosen);
  }

  // ------------------------------------------------------ access to several objects

  predicate NoneBefore<A>(checks: seq<A -> bool>, n: nat, a: A)
    requires n <= |checks|
  {
    forall i :: 0 <= i < n ==> !checks[i](a)
  }

  /** State `k` of `r` has exactly the assignments of `id` in `t` for which object `i` is
      the first one in bounds. */
  ghost predicate ServedBy<A(!new)>(t: map<int, State<A>>, id: int, r: map<int, State<A>>, checks: seq<A -> bool>, i: nat, k: int)
    requires i < |checks|
  {
    forall a :: Holds(r, k, a) <==> Holds(t, id, a) && NoneBefore(checks, i, a) && checks[i](a)
  }

  /** State `k` of `r` has exactly the assignments of `id` in `t` out of bounds of the
      first `n` objects. */
  ghost predicate Unserved<A(!new)>(t: map<int, State<A>>, id: int, r: map<int, State<A>>, checks: seq<A -> bool>, n: nat, k: int)
    requires n <= |checks|
  {
    forall a :: Holds(r, k, a) <==> Holds(t, id, a) && NoneBefore(checks, n, a)
  }

  /** The objects treated so far: the states bound to them, and the state left over. */
  ghost predicate Serving<A(!new)>(t: map<int, State<A>>, id: int, r: map<int, State<A>>, checks: seq<A -> bool>,
      bound: seq<Option<int>>, parts: seq<int>, unbound: int) {
    && |bound| <= |checks|
    && Splits(t, r, id, parts) && unbound in parts
    && Unserved(t, id, r, checks, |bound|, unbound)
    && Bound(t, id, r, checks, bound)
    && forall i :: 0 <= i < |bound| && bound[i].Some? ==> bound[i].value != unbound
  }

  ghost predicate Bound<A(!new)>(t: map<int, State<A>>, id: int, r: map<int, State<A>>, checks: seq<A -> bool>,
      bound: seq<Option<int>>)
    requires |bound| <= |checks|
  {
    && (forall i :: 0 <= i < |bound| && bound[i].Some? ==>
         bound[i].value in r && ServedBy(t, id, r, checks, i, bound[i].value))
    && (forall i, a :: 0 <= i < |bound| && bound[i].None? && Holds(t, id, a) && NoneBefore(checks, i, a) ==> !checks[i](a))
  }

  /** All parts of state `id` go on at its block, at most `levels` levels deeper. */
  ghost predicate Stays<A>(t: map<int, State<A>>, r: map<int, State<A>>, id: int, parts: seq<int>, levels: nat) {
    id in t && forall k :: k in parts ==>
      k in r && r[k].block == t[id].block && t[id].depth <= r[k].depth <= t[id].depth + levels
  }

  lemma {:induction false} StaysAgain<A(!new)>(
      t: map<int, State<A>>, r: map<int, State<A>>, q: map<int, State<A>>, id: int, parts: seq<int>, u: int, more: seq<int>, levels: nat)
    requires Splits(r, q, u, more) && u in parts && Stays(t, r, id, parts, levels) && Stays(r, q, u, more, 1)
    ensures Stays(t, q, id, parts + more, levels + 1)
  {
    forall k | k in parts + more
      ensures k in q && q[k].block == t[id].block && t[id].depth <= q[k].depth <= t[id].depth + levels + 1
    {
      if k !in more { assert k in r && k != u && q[k] == r[k]; }
    }
  }

  lemma {:induction false} StaysStarts<A>(t: map<int, State<A>>, id: int)
    requires id in t
    ensures Stays(t, t, id, [id], 0)
  { }

  lemma {:induction false} StaysAt<A>(t: map<int, State<A>>, r: map<int, State<A>>, id: int, parts: seq<int>, levels: nat, k: int)
    requires Stays(t, r, id, parts, levels) && k in parts
    ensures id in t && k in r && t[id].depth <= r[k].depth <= t[id].depth + levels
  { }

  lemma {:induction false} StaysWithin<A>(t: map<int, State<A>>, r: map<int, State<A>>, id: int, parts: seq<int>, levels: nat, more: nat)
    requires Stays(t, r, id, parts, levels) && levels <= more
    ensures Stays(t, r, id, parts, more)
  { }

  /** What a fork of state `u` on condition `c` yields. */
  ghost predicate Forked<A(!new)>(r: map<int, State<A>>, q: map<int, State<A>>, u: int, c: A -> bool,
      t: Option<int>, f: Option<int>, parts: seq<int>) {
    && Splits(r, q, u, parts)
    && (t.Some? ==> t.value in parts && forall a :: Holds(q, t.value, a) <==> Holds(r, u, a) && c(a))
    && (f.Some? ==> f.value in parts && forall a :: Holds(q, f.value, a) <==> Holds(r, u, a) && !c(a))
    && (t.None? && f.Some? ==> forall a :: Holds(r, u, a) ==> !c(a))
    && (t.Some? && f.None? ==> forall a :: Holds(r, u, a) ==> c(a))
    && (t.Some? && f.Some? ==> t.value != f.value)
    && Stays(r, q, u, parts, 1)
  }

  lemma {:induction false} ForkedApart<A(!new)>(r: map<int, State<A>>, q: map<int, State<A>>, u: int, c: A -> bool,
      t: Option<int>, f: Option<int>, parts: seq<int>)
    requires Forked(r, q, u, c, t, f, parts)
    ensures t.Some? && f.Some? ==> t.value != f.value
    ensures t.Some? ==> t.value in parts
    ensures f.Some? ==> f.value in parts
    ensures Splits(r, q, u, parts) && Stays(r, q, u, parts, 1)
  { }

  /** A fork yields no side at all: the query times out, or both sides would be too deep. */
  predicate GivesUp<A>(solver: Solver<A>, maxDepth: nat, s: State<A>, c: A -> bool) {
    || solver.evaluate(s.pc, c) == TimedOut
    || (solver.evaluate(s.pc, c) == Unknown && 0 < maxDepth <= s.depth + 1)
  }

  /** Both sides of a fork that was decided neither way are one level deeper. */
  ghost predicate Deeper<A(!new)>(solver: Solver<A>, t: map<int, State<A>>, r: map<int, State<A>>, id: int, c: A -> bool, parts: seq<int>) {
    id in t && forall k :: k in parts ==>
      k in r && r[k].depth == t[id].depth + if solver.evaluate(t[id].pc, c) == Unknown then 1 else 0
  }

  /** A fork that the solver decides, or times out on, leaves the state as it is. */
  lemma {:induction false} DecidedForks<A(!new)>(solver: Solver<A>, t: map<int, State<A>>, id: int, c: A -> bool)
    requires Exact(solver) && id in t && solver.evaluate(t[id].pc, c) != Unknown
    ensures var res := solver.evaluate(t[id].pc, c);
            && Forked(t, t, id, c, if res == True then Some(id) else None, if res == False then Some(id) else None, [id])
            && Deeper(solver, t, t, id, c, [id])
  {
    AnswerMeans(solver, t[id].pc, c);
    UnchangedSplits(t, id);
    hide Exact, Splits;
  }

  lemma {:induction false} BothForked<A(!new)>(solver: Solver<A>, t: map<int, State<A>>, r: map<int, State<A>>, id: int, c: A -> bool, child: int)
    requires id in t && solver.evaluate(t[id].pc, c) == Unknown && Splits(t, r, id, [id, child]) && id in r && child in r
    requires forall a :: Holds(r, id, a) <==> Holds(t, id, a) && c(a)
    requires forall a :: Holds(r, child, a) <==> Holds(t, id, a) && !c(a)
    requires child != id && r[id].depth == r[child].depth == t[id].depth + 1 && r[id].block == r[child].block == t[id].block
    ensures Forked(t, r, id, c, Some(id), Some(child), [id, child]) && Forked(t, r, id, c, None, None, [id, child])
    ensures Deeper(solver, t, r, id, c, [id, child])
  {
    hide Splits;
  }

  /** The access stopped at object `i`: a state with exactly the assignments out of bounds
      of the objects before it, at a depth the forks so far account for, gave up. */
  ghost predicate StoppedAt<A(!new)>(solver: Solver<A>, maxDepth: nat, t: map<int, State<A>>, id: int, checks: seq<A -> bool>,
      i: nat, s: State<A>)
    requires id in t
  {
    && i < |checks|
    && (forall a :: s.pc(a) <==> Holds(t, id, a) && NoneBefore(checks, i, a))
    && t[id].depth <= s.depth <= t[id].depth + i
    && GivesUp(solver, maxDepth, s, checks[i])
  }

  lemma {:induction false} StopMeans<A(!new)>(solver: Solver<A>, maxDepth: nat, t: map<int, State<A>>, id: int, r: map<int, State<A>>,
      checks: seq<A -> bool>, bound: seq<Option<int>>, parts: seq<int>, u: int)
    requires id in t && u in r && Progress(t, id, r, checks, bound, parts, Some(u), true) && |bound| < |checks|
    requires t[id].depth <= r[u].depth <= t[id].depth + |bound|
    requires GivesUp(solver, maxDepth, r[u], checks[|bound|])
    ensures StoppedAt(solver, maxDepth, t, id, checks, |bound|, r[u])
  {
    hide GivesUp, Bound, Splits, NoneBefore;
    forall a ensures r[u].pc(a) <==> Holds(r, u, a) { }
  }

  /** Without time-outs and depth limit nothing gives up. */
  lemma {:induction false} StopCause<A(!new)>(solver: Solver<A>, maxDepth: nat, t: map<int, State<A>>, id: int, checks: seq<A -> bool>,
      i: nat, s: State<A>)
    requires id in t && StoppedAt(solver, maxDepth, t, id, checks, i, s)
    ensures maxDepth > 0 || exists pc, c :: solver.evaluate(pc, c) == TimedOut
  { }

  /** State `k` goes on with one of the objects. */
  predicate GoesOn(bound: seq<Option<int>>, readOnly: seq<bool>, isWrite: bool, k: int)
    requires |bound| <= |readOnly|
  {
    exists i :: 0 <= i < |bound| && bound[i] == Some(k) && !(isWrite && readOnly[i])
  }

  lemma {:induction false} GoesOnNext(bound: seq<Option<int>>, b: Option<int>, readOnly: seq<bool>, isWrite: bool, k: int)
    requires |bound| < |readOnly|
    ensures GoesOn(bound + [b], readOnly, isWrite, k) <==>
      GoesOn(bound, readOnly, isWrite, k) || (b == Some(k) && !(isWrite && readOnly[|bound|]))
  {
    var more := bound + [b];
    if GoesOn(bound, readOnly, isWrite, k) {
      var i :| 0 <= i < |bound| && bound[i] == Some(k) && !(isWrite && readOnly[i]);
      assert more[i] == Some(k);
    }
    assert more[|bound|] == b;
  }

  lemma {:induction false} StillServed<A(!new)>(t: map<int, State<A>>, id: int, r: map<int, State<A>>, q: map<int, State<A>>,
      checks: seq<A -> bool>, i: nat, k: int, u: int, more: seq<int>)
    requires i < |checks| && ServedBy(t, id, r, checks, i, k) && k in r && k != u && Splits(r, q, u, more)
    ensures ServedBy(t, id, q, checks, i, k) && k in q && k !in more
  {
    forall a ensures Holds(q, k, a) <==> Holds(r, k, a) { }
  }

  lemma {:induction false} ServeNext<A(!new)>(t: map<int, State<A>>, id: int, r: map<int, State<A>>, q: map<int, State<A>>,
      checks: seq<A -> bool>, bound: seq<Option<int>>, parts: seq<int>, u: int, b: Option<int>, f: Option<int>, more: seq<int>)
    requires Serving(t, id, r, checks, bound, parts, u) && |bound| < |checks|
    requires Forked(r, q, u, checks[|bound|], b, f, more)
    ensures Splits(t, q, id, parts + more)
    ensures f.Some? ==> Serving(t, id, q, checks, bound + [b], parts + more, f.value)
    ensures f.None? && b.Some? ==>
      && Bound(t, id, q, checks, bound + [b])
      && (forall a :: Holds(t, id, a) ==> !NoneBefore(checks, |bound| + 1, a))
    ensures Bound(t, id, q, checks, bound)
    ensures forall i :: 0 <= i < |bound| && bound[i].Some? ==> bound[i].value != u && bound[i].value !in more
  {
    SplitAgain(t, r, q, id, parts, u, more);
    forall i | 0 <= i < |bound| && bound[i].Some?
      ensures bound[i].value in q && bound[i].value !in more && ServedBy(t, id, q, checks, i, bound[i].value)
    {
      StillServed(t, id, r, q, checks, i, bound[i].value, u, more);
    }
    if b.Some? {
      forall a ensures Holds(q, b.value, a) <==> Holds(t, id, a) && NoneBefore(checks, |bound|, a) && checks[|bound|](a) { }
      assert ServedBy(t, id, q, checks, |bound|, b.value);
    }
  }

  /** Where the loop over the objects stands. */
  ghost predicate Progress<A(!new)>(t: map<int, State<A>>, id: int, r: map<int, State<A>>, checks: seq<A -> bool>,
      bound: seq<Option<int>>, parts: seq<int>, unbound: Option<int>, complete: bool) {
    && |bound| <= |checks|
    && Splits(t, r, id, parts) && Bound(t, id, r, checks, bound)
    && (unbound.Some? ==> complete && Serving(t, id, r, checks, bound, parts, unbound.value))
    && (complete && unbound.None? ==> forall a :: Holds(t, id, a) ==> !NoneBefore(checks, |bound|, a))
  }

  lemma {:induction false} ProgressStarts<A(!new)>(t: map<int, State<A>>, id: int, checks: seq<A -> bool>)
    requires id in t
    ensures Progress(t, id, t, checks, [], [id], Some(id), true)
  {
    UnchangedSplits(t, id);
    assert id in [id];
  }

  lemma {:induction false} ProgressGoesOn<A(!new)>(t: map<int, State<A>>, id: int, r: map<int, State<A>>, q: map<int, State<A>>,
      checks: seq<A -> bool>, bound: seq<Option<int>>, parts: seq<int>, u: int, b: Option<int>, f: Option<int>, more: seq<int>)
    requires Progress(t, id, r, checks, bound, parts, Some(u), true) && |bound| < |checks|
    requires Forked(r, q, u, checks[|bound|], b, f, more)
    ensures var complete := b.Some? || f.Some?;
            Progress(t, id, q, checks, if complete then bound + [b] else bound, parts + more, f, complete)
    ensures forall i :: 0 <= i < |bound| && bound[i].Some? ==> bound[i].value != u && bound[i].value !in more
  {
    ServeNext(t, id, r, q, checks, bound, parts, u, b, f, more);
    hide Bound, Splits, Unserved, Forked;
  }

  lemma {:induction false} ProgressApart<A(!new)>(t: map<int, State<A>>, id: int, r: map<int, State<A>>, checks: seq<A -> bool>,
      bound: seq<Option<int>>, parts: seq<int>, u: int)
    requires Progress(t, id, r, checks, bound, parts, Some(u), true)
    ensures u in parts && forall i :: 0 <= i < |bound| && bound[i].Some? ==> bound[i].value != u
  { }

  /** The state left over is neither an older state nor one that goes on with an object. */
  lemma {:induction false} LeftOverApart<A(!new)>(t: map<int, State<A>>, id: int, r: map<int, State<A>>, checks: seq<A -> bool>,
      bound: seq<Option<int>>, parts: seq<int>, u: int, readOnly: seq<bool>, isWrite: bool, k: int)
    requires Progress(t, id, r, checks, bound, parts, Some(u), true) && |checks| == |readOnly|
    ensures k in t && k != id ==> k != u && k in r
    ensures |bound| <= |readOnly| && (GoesOn(bound, readOnly, isWrite, k) ==> k != u && k in r)
  {
    hide Unserved, ServedBy, NoneBefore;
  }

  /** After a fork of the state left over, neither is one of the new sides. */
  lemma {:induction false} SidesApart<A(!new)>(t: map<int, State<A>>, id: int, r: map<int, State<A>>, q: map<int, State<A>>,
      checks: seq<A -> bool>, bound: seq<Option<int>>, parts: seq<int>, u: int, c: A -> bool,
      b: Option<int>, f: Option<int>, more: seq<int>, readOnly: seq<bool>, isWrite: bool, k: int)
    requires Progress(t, id, r, checks, bound, parts, Some(u), true) && |checks| == |readOnly|
    requires Forked(r, q, u, c, b, f, more)
    ensures |bound| <= |readOnly|
    ensures (k in t && k != id) || GoesOn(bound, readOnly, isWrite, k) ==> k != u && b != Some(k) && f != Some(k)
  {
    LeftOverApart(t, id, r, checks, bound, parts, u, readOnly, isWrite, k);
    hide Progress, GoesOn;
  }

  lemma {:induction false} NobodyGoesOn(readOnly: seq<bool>, isWrite: bool)
    ensures forall k :: !GoesOn([], readOnly, isWrite, k)
  { }

  lemma {:induction false} ProgressEnds<A(!new)>(t: map<int, State<A>>, id: int, r: map<int, State<A>>, checks: seq<A -> bool>,
      bound: seq<Option<int>>, parts: seq<int>, unbound: Option<int>, complete: bool)
    requires Progress(t, id, r, checks, bound, parts, unbound, complete)
    ensures Splits(t, r, id, parts) && |bound| <= |checks| && Bound(t, id, r, checks, bound)
    ensures unbound.Some? ==> complete && Unserved(t, id, r, checks, |bound|, unbound.value)
    ensures complete && unbound.None? ==> forall a :: Holds(t, id, a) ==> !NoneBefore(checks, |bound|, a)
  { }

  lemma {:induction false} ForkedSplits<A(!new)>(r: map<int, State<A>>, q: map<int, State<A>>, u: int, c: A -> bool,
      t: Option<int>, f: Option<int>, parts: seq<int>)
    requires Forked(r, q, u, c, t, f, parts)
    ensures Splits(r, q, u, parts)
  { }

  lemma {:induction false} SplitKeepsPartitions<A(!new)>(t: map<int, State<A>>, r: map<int, State<A>>, id: int, parts: seq<int>)
    requires Splits(t, r, id, parts)
    ensures forall init :: Partition(t, init) ==> Partition(r, init)
  {
    hide *;
    forall init: A -> bool | Partition(t, init) ensures Partition(r, init) {
      SplitKeepsPartition(t, r, id, parts, init);
    }
  }

  /** The steps of a run; an access gives the bounds check of each object and whether the
      object is read-only. */
  datatype Event<!A> =
    | ForkOn(id: int, c: A -> bool)
    | SwitchOn(id: int, cond: A -> int, cases: seq<(int, int)>, default: int, random: nat -> nat)
    | Access(id: int, checks: seq<A -> bool>, readOnly: seq<bool>, isWrite: bool)
    | Finish(id: int)
    | Update

  /** All states there are, which of them are live, and which the searcher knows. */
  datatype Snapshot<!A> = Snapshot(table: map<int, State<A>>, live: set<int>, known: set<int>)

  /** The event has its effect between two snapshots: what it does to the state it names, and
      nothing to the liveness of any other. Only an update tells the searcher. */
  ghost predicate Takes<A(!new)>(solver: Solver<A>, maxDepth: nat, e: Event<A>, w: Snapshot<A>, r: Snapshot<A>) {
    r.known == (if e.Update? then w.live else w.known) &&
    match e
    case Update => r == w.(known := w.live)
    case Finish(id) => r == w.(live := w.live - {id})
    case ForkOn(id, c) =>
      if id !in w.live then r == w
      else id in w.table && exists t, f, parts :: TakesFork(solver, maxDepth, id, c, w, r, t, f, parts)
    case SwitchOn(id, cond, cases, default, _) =>
      if id !in w.live then r == w
      else exists ways :: TakesSwitch(id, Goal(cases, default, cond), w, r, ways)
    case Access(id, checks, readOnly, isWrite) =>
      if id !in w.live || |readOnly| != |checks| then r == w
      else id in w.table && exists bound, error, parts ::
        TakesAccess(solver, maxDepth, id, checks, readOnly, isWrite, w, r, bound, error, parts)
  }

  ghost predicate TakesFork<A(!new)>(solver: Solver<A>, maxDepth: nat, id: int, c: A -> bool,
      w: Snapshot<A>, r: Snapshot<A>, t: Option<int>, f: Option<int>, parts: seq<int>)
    requires id in w.table
  {
    && Forked(w.table, r.table, id, c, t, f, parts)
    && (t.None? && f.None? <==> GivesUp(solver, maxDepth, w.table[id], c))
    && Deeper(solver, w.table, r.table, id, c, parts)
    && (forall k :: k in r.live <==> (k in w.live && k != id) || t == Some(k) || f == Some(k))
  }

  ghost predicate TakesSwitch<A(!new)>(id: int, goal: A -> int, w: Snapshot<A>, r: Snapshot<A>, ways: seq<int>) {
    && Splits(w.table, r.table, id, ways) && Shares(w.table, r.table, id, ways)
    && (forall k, a :: k in ways && Holds(r.table, k, a) ==> r.table[k].block == goal(a))
    && (forall k :: k in r.live <==> k in w.live || k in ways)
  }

  ghost predicate TakesAccess<A(!new)>(solver: Solver<A>, maxDepth: nat, id: int, checks: seq<A -> bool>, readOnly: seq<bool>,
      isWrite: bool, w: Snapshot<A>, r: Snapshot<A>, bound: seq<Option<int>>, error: Option<int>, parts: seq<int>)
    requires id in w.table && |readOnly| == |checks|
  {
    && Splits(w.table, r.table, id, parts) && Stays(w.table, r.table, id, parts, |checks|)
    && |bound| <= |checks| && Bound(w.table, id, r.table, checks, bound)
    && (forall k :: k in r.live <==> (k in w.live && k != id) || GoesOn(bound, readOnly, isWrite, k))
    && Served(solver, maxDepth, w.table, id, r.table, checks, bound, error)
  }

  /** Every assignment of the state is with an object, in the error state, or in a state
      that gave up. */
  ghost predicate Served<A(!new)>(solver: Solver<A>, maxDepth: nat, t: map<int, State<A>>, id: int, r: map<int, State<A>>,
      checks: seq<A -> bool>, bound: seq<Option<int>>, error: Option<int>)
    requires id in t && |bound| <= |checks|
  {
    || (error.Some? && Unserved(t, id, r, checks, |checks|, error.value))
    || (forall a :: Holds(t, id, a) ==> !NoneBefore(checks, |bound|, a))
    || (exists s :: StoppedAt(solver, maxDepth, t, id, checks, |bound|, s))
  }

  // --------------------------------------------------------------- the executor

  class Executor<!A(!new)> {
    const solver: Solver<A>
    const maxDepth: nat
    var table: map<int, State<A>>
    var states: set<int>
    var addedStates: seq<int>
    var removedStates: seq<int>
    var finished: set<int>
    var next: int

    ghost predicate Valid()
      reads this
    {
      Exact(solver) && Feasible(table) && Listed()
    }

    /** Live and finished states make up the table; removed ones have reached the searcher. */
    ghost predicate Listed()
      reads this
    {
      && (forall k :: k in table ==> k < next)
      && (forall k :: k in table <==> k in states || k in addedStates || k in finished)
      && (forall k :: k in finished ==> k !in states && k !in addedStates)
      && (forall k :: k in states ==> k !in addedStates)
      && Distinct(addedStates)
      && (forall k :: k in removedStates ==> k in states)
    }

    constructor (solver: Solver<A>, maxDepth: nat, init: A -> bool)
      requires Exact(solver) && exists a :: init(a)
      ensures Valid() && Partition(table, init) && this.solver == solver && this.maxDepth == maxDepth
      ensures table == map[0 := State(init, 0, 0)] && Live(0)
    {
      this.solver, this.maxDepth := solver, maxDepth;
      table := map[0 := State(init, 0, 0)];
      states, addedStates, removedStates, finished, next := {0}, [], [], {}, 1;
      new;
      hide Exact, Feasible, Partition;
      OneState(table, init);
    }

    predicate Live(k: int)
      reads this
    {
      (k in states || k in addedStates) && k !in removedStates
    }

    lemma {:induction false} LiveIsKnown()
      requires Valid()
      ensures forall k :: Live(k) ==> k in table
    { }

    lemma {:induction false} LiveIsFeasible(k: int)
      requires Valid() && Live(k)
      ensures Exact(solver) && k in table && exists a :: table[k].pc(a)
    {
      var a :| Holds(table, k, a);
      assert table[k].pc(a);
    }

    /** A state that never reached the searcher is deleted at once. */
    method TerminateState(k: int)
      requires Valid() && Live(k)
      modifies this`addedStates, this`removedStates, this`finished
      ensures Valid() && !Live(k)
      ensures forall j :: j != k ==> (Live(j) <==> old(Live(j)))
    {
      hide Exact, Feasible;
      if k in addedStates {
        var i :| 0 <= i < |addedStates| && addedStates[i] == k;
        EraseOne(addedStates, i);
        addedStates := addedStates[..i] + addedStates[i + 1..];
        finished := finished + {k};
      } else {
        removedStates := removedStates + [k];
      }
    }

    method UpdateStates()
      requires Valid()
      modifies this`states, this`addedStates, this`removedStates, this`finished
      ensures Valid() && addedStates == [] && removedStates == []
      ensures forall k :: (Live(k) <==> old(Live(k))) && (k in states <==> Live(k))
    {
      states := states + (set k | k in addedStates);
      addedStates := [];
      finished := finished + (set k | k in removedStates);
      states := states - (set k | k in removedStates);
      removedStates := [];
    }

    /** The state keeps the assignments with `c`; a copy of it takes the others. */
    method Split(id: int, c: A -> bool) returns (child: int)
      requires Valid() && Live(id)
      requires Possible(table[id].pc, c) && Possible(table[id].pc, Neg(c))
      modifies this`table, this`addedStates, this`next
      ensures Valid() && Splits(old(table), table, id, [id, child]) && child != id
      ensures forall a :: Holds(table, id, a) <==> Holds(old(table), id, a) && c(a)
      ensures forall a :: Holds(table, child, a) <==> Holds(old(table), id, a) && !c(a)
      ensures forall j :: Live(j) <==> old(Live(j)) || j == child
      ensures child in table && table[id].depth == table[child].depth == old(table)[id].depth + 1
      ensures table[id].block == table[child].block == old(table)[id].block
    {
      hide Exact, Feasible, Splits;
      var s := table[id];
      child := next;
      next := next + 1;
      ghost var before := table;
      table := table[child := State(Conj(s.pc, Neg(c)), s.depth + 1, s.block)]
                    [id := State(Conj(s.pc, c), s.depth + 1, s.block)];
      addedStates := addedStates + [child];
      SidesSplit(before, table, id, child, c);
      SidesFeasible(before, table, id, child, c);
    }

    /** A branch: the solver decides whether one side is impossible; otherwise both
        sides go on, unless the depth limit is reached. */
    method Fork(id: int, c: A -> bool) returns (t: Option<int>, f: Option<int>, ghost parts: seq<int>)
      requires Valid() && Live(id)
      modifies this
      ensures Valid() && Forked(old(table), table, id, c, t, f, parts)
      ensures id in old(table)
      ensures t.None? && f.None? <==> GivesUp(solver, maxDepth, old(table)[id], c)
      ensures Deeper(solver, old(table), table, id, c, parts)
      ensures forall j :: Live(j) <==> (old(Live(j)) && j != id) || t == Some(j) || f == Some(j)
      ensures states == old(states)
    {
      assert id in table;
      var res := solver.evaluate(table[id].pc, c);
      AnswerMeans(solver, table[id].pc, c);
      ghost var before := table;
      if res != Unknown { DecidedForks(solver, table, id, c); }
      hide Exact, Feasible, Splits, Listed, Forked, Deeper;
      parts := [id];
      if res == TimedOut {
        TerminateState(id);
        t, f := None, None;
      } else if res == True {
        t, f := Some(id), None;
      } else if res == False {
        t, f := None, Some(id);
      } else {
        var child := Split(id, c);
        parts := [id, child];
        t, f := Some(id), Some(child);
        BothForked(solver, before, table, id, c, child);
        if maxDepth > 0 && maxDepth <= table[id].depth {
          TerminateState(id);
          TerminateState(child);
          t, f := None, None;
        }
      }
    }

    /** Copies for an `n`-way branch. Which earlier copy the next one is taken from does
        not matter, since none has been constrained yet. */
    method CopyMany(id: int, n: nat, random: nat -> nat) returns (result: seq<int>)
      requires Listed() && Live(id) && n > 0
      modifies this`table, this`addedStates, this`next
      ensures Listed()
      ensures |result| == n && result[0] == id && Distinct(result)
      ensures forall k :: k in table <==> k in old(table) || k in result
      ensures forall k :: k in old(table) && k in result ==> k == id
      ensures forall k :: k in old(table) && k != id ==> table[k] == old(table)[k]
      ensures forall k :: k in result ==> table[k].pc == old(table)[id].pc && table[k].block == old(table)[id].block
      ensures Shares(old(table), table, id, result)
      ensures forall j :: Live(j) <==> old(Live(j)) || j in result
    {
      result := [id];
      SharesStart(table, id);
      hide Shares;
      while |result| < n
        invariant Listed()
        invariant 0 < |result| <= n && result[0] == id && Distinct(result)
        invariant forall k :: k in table <==> k in old(table) || k in result
        invariant forall k :: k in old(table) && k in result ==> k == id
        invariant forall k :: k in old(table) && k != id ==> table[k] == old(table)[k]
        invariant forall k :: k in result ==> table[k].pc == old(table)[id].pc && table[k].block == old(table)[id].block
        invariant Shares(old(table), table, id, result)
        invariant forall j :: Live(j) <==> old(Live(j)) || j in result
        decreases n - |result|
      {
        var from := result[random(|result|) % |result|];
        ghost var mid := table;
        var copy := CopyOne(from);
        CopyShares(old(table), mid, table, id, result, from, copy);
        result := result + [copy];
      }
    }

    method CopyOne(from: int) returns (copy: int)
      requires Listed() && from in table
      modifies this`table, this`addedStates, this`next
      ensures Listed()
      ensures copy !in old(table) && table.Keys == old(table).Keys + {copy}
      ensures forall k :: k in old(table) && k != from ==> table[k] == old(table)[k]
      ensures table[from].pc == table[copy].pc == old(table)[from].pc
      ensures table[from].block == table[copy].block == old(table)[from].block
      ensures table[from].depth == table[copy].depth == old(table)[from].depth + 1
      ensures forall j :: Live(j) <==> old(Live(j)) || j == copy
    {
      copy := next;
      next := next + 1;
      var s := table[from].(depth := table[from].depth + 1);
      table := table[from := s][copy := s];
      addedStates := addedStates + [copy];
    }

    method Constrain(result: seq<int>, conditions: seq<A -> bool>)
      requires |result| == |conditions| && Distinct(result) && forall i :: 0 <= i < |result| ==> result[i] in table
      modifies this`table
      ensures table.Keys == old(table).Keys
      ensures forall k :: k in table && k !in result ==> table[k] == old(table)[k]
      ensures forall i :: 0 <= i < |result| ==>
        table[result[i]] == old(table)[result[i]].(pc := Conj(old(table)[result[i]].pc, conditions[i]))
    {
      hide Conj;
      for i := 0 to |result|
        invariant table.Keys == old(table).Keys
        invariant forall k :: k in table && k !in result ==> table[k] == old(table)[k]
        invariant forall j :: 0 <= j < i ==>
          table[result[j]] == old(table)[result[j]].(pc := Conj(old(table)[result[j]].pc, conditions[j]))
        invariant forall j :: i <= j < |result| ==> table[result[j]] == old(table)[result[j]]
      {
        var k := result[i];
        table := table[k := table[k].(pc := Conj(table[k].pc, conditions[i]))];
      }
    }

    /** An `n`-way branch: way `i` keeps the assignments that satisfy condition `i`. */
    method Branch(id: int, conditions: seq<A -> bool>, random: nat -> nat) returns (result: seq<int>)
      requires Valid() && Live(id) && |conditions| > 0
      requires forall i :: 0 <= i < |conditions| ==> Possible(table[id].pc, conditions[i])
      modifies this`table, this`addedStates, this`next
      ensures Valid()
      ensures Ways(old(table), table, id, result, conditions) && Shares(old(table), table, id, result)
      ensures forall k :: k in result ==> k in table && table[k].block == old(table)[id].block
      ensures forall j :: Live(j) <==> old(Live(j)) || j in result
    {
      assert Listed() && id in table;
      ghost var before := table;
      result := CopyMany(id, |conditions|, random);
      ghost var mid := table;
      hide Exact, Feasible;
      Constrain(result, conditions);
      assert Listed();
      SharesStay(before, mid, table, id, result);
      forall i, a | 0 <= i < |result|
        ensures Holds(table, result[i], a) <==> Holds(before, id, a) && conditions[i](a)
      {
        assert result[i] in result;
      }
      assert Ways(before, table, id, result, conditions);
      WaysFeasible(before, table, id, result, conditions);
    }

    /** Each way continues at its block. */
    method Transfer(ways: seq<int>, blocks: seq<int>)
      requires Valid()
      requires |ways| == |blocks| && Distinct(ways) && forall i :: 0 <= i < |ways| ==> ways[i] in table
      modifies this`table
      ensures Moved(old(table), table, ways, blocks)
      ensures Valid() && forall j :: Live(j) <==> old(Live(j))
    {
      hide Exact, Feasible, Listed;
      for i := 0 to |ways|
        invariant table.Keys == old(table).Keys
        invariant forall k :: k in table && k !in ways ==> table[k] == old(table)[k]
        invariant forall k :: k in table ==> table[k].pc == old(table)[k].pc && table[k].depth == old(table)[k].depth
        invariant forall j :: 0 <= j < i ==> table[ways[j]].block == blocks[j]
      {
        table := table[ways[i] := table[ways[i]].(block := blocks[i])];
      }
      SameConditions(old(table), table);
      StillListed();
    }

    twostate lemma {:induction false} StillListed()
      requires old(Listed()) && table.Keys == old(table).Keys
      requires states == old(states) && addedStates == old(addedStates) && removedStates == old(removedStates)
      requires finished == old(finished) && next == old(next)
      ensures Listed()
    { }

    /** A switch on a symbolic value: every assignment follows the way that goes where
        concrete execution would go. */
    method Switch(id: int, cond: A -> int, cases: seq<(int, int)>, default: int, random: nat -> nat)
      returns (ways: seq<int>)
      requires Valid() && Live(id)
      modifies this`table, this`addedStates, this`next
      ensures Valid() && Splits(old(table), table, id, ways) && Shares(old(table), table, id, ways)
      ensures forall k, a :: k in ways && Holds(table, k, a) ==> table[k].block == Successor(cases, default, cond(a))
      ensures forall j :: Live(j) <==> old(Live(j)) || j in ways
    {
      hide *;
      ghost var before := table;
      LiveIsFeasible(id);
      var pc := table[id].pc;
      var blocks, conditions, chosen := PlanSwitch(solver, pc, cond, cases, default);
      PlanMeans(pc, Goal(cases, default, cond), blocks, conditions, chosen);
      ways := Branch(id, conditions, random);
      WaysMeans(before, table, id, ways, conditions);
      ghost var mid := table;
      Transfer(ways, blocks);
      PlanArrives(before, mid, table, id, ways, Goal(cases, default, cond), blocks, conditions, chosen);
      MovedShares(before, mid, table, id, ways, blocks);
    }

    /** An access that may lie in several objects: each object in turn takes the assignments
        in its bounds, and what is left over is an out-of-bounds error. The answer is
        complete unless a fork on the way gave up. */
    method AccessObjects(id: int, checks: seq<A -> bool>, readOnly: seq<bool>, isWrite: bool)
      returns (bound: seq<Option<int>>, error: Option<int>, complete: bool, ghost parts: seq<int>)
      requires Valid() && Live(id) && |readOnly| == |checks|
      modifies this
      ensures Valid() && id in old(table) && Splits(old(table), table, id, parts) && Stays(old(table), table, id, parts, |checks|)
      ensures |bound| <= |checks| && Bound(old(table), id, table, checks, bound)
      ensures error.Some? ==> complete && Unserved(old(table), id, table, checks, |checks|, error.value)
      ensures complete && error.None? ==> forall a :: Holds(old(table), id, a) ==> !NoneBefore(checks, |bound|, a)
      ensures !complete ==> exists s :: StoppedAt(solver, maxDepth, old(table), id, checks, |bound|, s)
      ensures (forall pc, c :: solver.evaluate(pc, c) != TimedOut) && maxDepth == 0 ==> complete
      ensures forall k :: Live(k) <==> (old(Live(k)) && k != id) || GoesOn(bound, readOnly, isWrite, k)
      ensures states == old(states)
    {
      hide *;
      ghost var before := table;
      LiveIsFeasible(id);
      LiveIsKnown();
      bound, error, complete, parts := [], None, true, [id];
      ProgressStarts(table, id, checks);
      StaysStarts(table, id);
      NobodyGoesOn(readOnly, isWrite);
      var unbound := Some(id);
      while |bound| < |checks| && unbound.Some?
        invariant Valid() && |bound| <= |checks| && states == old(states)
        invariant Progress(before, id, table, checks, bound, parts, unbound, complete)
        invariant unbound.Some? ==> complete
        invariant !complete ==> |bound| < |checks|
        invariant Stays(before, table, id, parts, if complete then |bound| else |bound| + 1)
        invariant !complete ==> exists s :: StoppedAt(solver, maxDepth, before, id, checks, |bound|, s)
        invariant forall k :: Live(k) <==>
          (old(Live(k)) && k != id) || GoesOn(bound, readOnly, isWrite, k) || unbound == Some(k)
        decreases |checks| - |bound|, if unbound.Some? then 1 else 0
      {
        ghost var mid, u := table, unbound.value;
        ProgressApart(before, id, mid, checks, bound, parts, u);
        StaysAt(before, mid, id, parts, |bound|, u);
        var b, f, more := Fork(unbound.value, checks[|bound|]);
        ProgressGoesOn(before, id, mid, table, checks, bound, parts, u, b, f, more);
        ForkedApart(mid, table, u, checks[|bound|], b, f, more);
        StaysAgain(before, mid, table, id, parts, u, more, |bound|);
        if b.Some? && isWrite && readOnly[|bound|] {
          TerminateState(b.value);
        }
        forall k
          ensures (Live(k) <==> (old(Live(k)) && k != id) || GoesOn(bound, readOnly, isWrite, k)
                                || (b == Some(k) && !(isWrite && readOnly[|bound|])) || f == Some(k))
        {
          SidesApart(before, id, mid, table, checks, bound, parts, u, checks[|bound|], b, f, more, readOnly, isWrite, k);
        }
        unbound := f;
        parts := parts + more;
        complete := b.Some? || f.Some?;
        if complete {
          forall k { GoesOnNext(bound, b, readOnly, isWrite, k); }
          bound := bound + [b];
        } else {
          StopMeans(solver, maxDepth, before, id, mid, checks, bound, parts[..|parts| - |more|], u);
        }
      }
      ProgressEnds(before, id, table, checks, bound, parts, unbound, complete);
      StaysWithin(before, table, id, parts, if complete then |bound| else |bound| + 1, |checks|);
      if !complete {
        ghost var s :| StoppedAt(solver, maxDepth, before, id, checks, |bound|, s);
        StopCause(solver, maxDepth, before, id, checks, |bound|, s);
      }
      if unbound.Some? {
        ProgressApart(before, id, table, checks, bound, parts, unbound.value);
        forall k ensures (old(Live(k)) && k != id) || GoesOn(bound, readOnly, isWrite, k) ==> k != unbound.value {
          LeftOverApart(before, id, table, checks, bound, parts, unbound.value, readOnly, isWrite, k);
        }
        error := unbound;
        TerminateState(unbound.value);
      }
    }

    ghost function Now(): (w: Snapshot<A>)
      reads this
      ensures w.table == table && (forall k :: k in w.live <==> Live(k)) && w.known == states
    {
      Snapshot(table, (states + set k | k in addedStates) - (set k | k in removedStates), states)
    }

    /** One step on a live state, or the update of the state sets after it. */
    method Perform(e: Event<A>)
      requires Valid()
      modifies this
      ensures Valid() && Takes(solver, maxDepth, e, old(Now()), Now())
      ensures forall init :: Partition(old(table), init) ==> Partition(table, init)
    {
      hide Exact, Feasible, Listed, Splits, Forked, Bound, Served, GivesUp, GoesOn, Holds, Goal, Partition, Live, Now;
      ghost var w := Now();
      match e
      case Update =>
        UpdateStates();
        forall k ensures (k in Now().live <==> k in w.live) && (k in states <==> k in w.live) { assert Live(k) <==> old(Live(k)); }
        assert Now().live == w.live == states;
      case Finish(id) =>
        if Live(id) { TerminateState(id); }
        forall k ensures k in Now().live <==> k in w.live && k != id { assert Live(k) <==> old(Live(k)) && k != id; }
        assert Now().live == w.live - {id};
      case ForkOn(id, c) =>
        if Live(id) {
          var t, f, parts := Fork(id, c);
          ForkedSplits(w.table, table, id, c, t, f, parts);
          SplitKeepsPartitions(w.table, table, id, parts);
          assert TakesFork(solver, maxDepth, id, c, w, Now(), t, f, parts);
        }
      case SwitchOn(id, cond, cases, default, random) =>
        if Live(id) {
          var ways := Switch(id, cond, cases, default, random);
          SplitKeepsPartitions(w.table, table, id, ways);
          assert TakesSwitch(id, Goal(cases, default, cond), w, Now(), ways);
        }
      case Access(id, checks, readOnly, isWrite) =>
        if Live(id) && |readOnly| == |checks| {
          var bound, error, complete, parts := AccessObjects(id, checks, readOnly, isWrite);
          SplitKeepsPartitions(w.table, table, id, parts);
          ServedIf(solver, maxDepth, w.table, id, table, checks, bound, error, complete);
          assert TakesAccess(solver, maxDepth, id, checks, readOnly, isWrite, w, Now(), bound, error, parts);
        }
    }

    /** Main theorem: any run takes its events one after another, and after it every
        initial assignment follows exactly one live or finished state, and every state is
        followed by some assignment. */
    method Run(events: seq<Event<A>>, ghost init: A -> bool) returns (ghost history: seq<Snapshot<A>>)
      requires Valid() && Partition(table, init)
      modifies this
      ensures Valid() && Partition(table, init)
      ensures forall k :: k in table <==> k in states || k in addedStates || k in finished
      ensures |history| == |events| + 1 && history[0] == old(Now()) && history[|events|] == Now()
      ensures forall i :: 0 <= i < |events| ==> Takes(solver, maxDepth, events[i], history[i], history[i + 1])
    {
      history := [Now()];
      for i := 0 to |events|
        invariant Valid() && Partition(table, init)
        invariant |history| == i + 1 && history[0] == old(Now()) && history[i] == Now()
        invariant forall j :: 0 <= j < i ==> Takes(solver, maxDepth, events[j], history[j], history[j + 1])
      {
        hide *;
        Perform(events[i]);
        history := history + [Now()];
      }
    }
  }

  lemma {:induction false} ServedIf<A(!new)>(solver: Solver<A>, maxDepth: nat, t: map<int, State<A>>, id: int, r: map<int, State<A>>,
      checks: seq<A -> bool>, bound: seq<Option<int>>, error: Option<int>, complete: bool)
    requires id in t && |bound| <= |checks|
    requires error.Some? ==> Unserved(t, id, r, checks, |checks|, error.value)
    requires complete && error.None? ==> forall a :: Holds(t, id, a) ==> !NoneBefore(checks, |bound|, a)
    requires !complete ==> exists s :: StoppedAt(solver, maxDepth, t, id, checks, |bound|, s)
    ensures Served(solver, maxDepth, t, id, r, checks, bound, error)
  { }
}
