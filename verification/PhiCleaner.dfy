/** The pass that lets the PHI instructions of a block be executed one after another,
    with one operand index for all of them. */
module PhiCleaner {

  datatype Value = Reg(r: int) | Constant(c: int)

  datatype Incoming = Incoming(block: nat, value: Value)

  datatype Phi = Phi(reg: int, incoming: seq<Incoming>)

  /** A copy of `value` to the temporary `tmp`, at the end of a block. */
  datatype Move = Move(tmp: int, value: Value)

  /** Index of the first entry for block `b`, or the number of entries. */
  function Index(xs: seq<Incoming>, b: nat): (i: nat)
    ensures i <= |xs|
    ensures i < |xs| ==> xs[i].block == b
    ensures forall k :: 0 <= k < i ==> xs[k].block != b
  {
    if xs == [] then 0 else if xs[0].block == b then 0 else 1 + Index(xs[1..], b)
  }

  predicate Covers(p: Phi, b: nat) { Index(p.incoming, b) < |p.incoming| }

  function ValueFor(p: Phi, b: nat): (v: Value)
    requires Covers(p, b)
  {
    p.incoming[Index(p.incoming, b)].value
  }

  // -------------------------------------------------------------------- execution

  type Env = map<int, int>

  ghost function Get(env: Env, v: Value): (n: int) {
    match v
    case Reg(r) => if r in env then env[r] else 0
    case Constant(c) => c
  }

  ghost function RunMoves(ms: seq<Move>, env: Env): (r: Env) {
    if ms == [] then env
    else
      var before := RunMoves(ms[..|ms| - 1], env);
      var m := ms[|ms| - 1];
      before[m.tmp := Get(before, m.value)]
  }

  /** The PHIs in order, each reading operand `i` and seeing what the earlier ones wrote. */
  ghost function RunPhis(ps: seq<Phi>, i: nat, env: Env): (r: Env)
    requires forall j :: 0 <= j < |ps| ==> i < |ps[j].incoming|
  {
    if ps == [] then env
    else
      var before := RunPhis(ps[..|ps| - 1], i, env);
      var p := ps[|ps| - 1];
      before[p.reg := Get(before, p.incoming[i].value)]
  }

  /** The meaning of PHIs: on entry from `src` all operands are read before any result
      is written. */
  ghost predicate Simultaneous(ps: seq<Phi>, src: nat, env: Env, r: Env, n: int)
    requires forall j :: 0 <= j < |ps| ==> Covers(ps[j], src)
  {
    && (forall j :: 0 <= j < |ps| ==> Get(r, Reg(ps[j].reg)) == Get(env, ValueFor(ps[j], src)))
    && (forall x :: x < n && (forall j :: 0 <= j < |ps| ==> ps[j].reg != x) ==> Get(r, Reg(x)) == Get(env, Reg(x)))
  }

  // -------------------------------------------------------------- well-formedness

  /** Registers of the original program are numbered below `n`. */
  ghost predicate Below(v: Value, n: int) { v.Reg? ==> v.r < n }

  /** Every PHI of a block has one entry per incoming edge, and entries for the same
      block agree. */
  ghost predicate WfPhi(p: Phi, ref: seq<Incoming>, n: int, blocks: nat) {
    && p.reg < n && |p.incoming| == |ref|
    && (forall i :: 0 <= i < |ref| ==> Covers(p, ref[i].block))
    && (forall i :: 0 <= i < |ref| ==> p.incoming[i].block < blocks && Below(p.incoming[i].value, n))
    && (forall i :: 0 <= i < |ref| && Covers(p, p.incoming[i].block) ==> p.incoming[i].value == ValueFor(p, p.incoming[i].block))
  }

  ghost predicate WfBlock(ps: seq<Phi>, n: int, blocks: nat) {
    && (forall j :: 0 <= j < |ps| ==> WfPhi(ps[j], ps[0].incoming, n, blocks))
    && (forall j, k :: 0 <= j < k < |ps| ==> ps[j].reg != ps[k].reg)
  }

  /** Temporaries are new, written once, and copy original registers only. */
  ghost predicate WfMoves(ms: seq<Move>, n: int, next: int) {
    && (forall k :: 0 <= k < |ms| ==> n <= ms[k].tmp < next && Below(ms[k].value, n))
    && (forall j, k :: 0 <= j < k < |ms| ==> ms[j].tmp != ms[k].tmp)
  }

  // ----------------------------------------------------------------- what is clean

  /** After the moves, `v'` holds what `v` held before them. */
  ghost predicate Stands(ms: seq<Move>, v': Value, v: Value) {
    v' == v || exists k :: 0 <= k < |ms| && v' == Reg(ms[k].tmp) && ms[k].value == v
  }

  /** PHI `p` has its entries in the order of `ref`, stands for the original `p0`, and
      does not read any register of `early`. */
  ghost predicate CleanPhi(p0: Phi, p: Phi, ref: seq<Incoming>, early: seq<Phi>, moves: seq<seq<Move>>) {
    && p.reg == p0.reg && |p.incoming| == |ref|
    && forall i :: 0 <= i < |ref| ==> CleanEntry(p0, p, ref, early, moves, i)
  }

  ghost predicate CleanEntry(p0: Phi, p: Phi, ref: seq<Incoming>, early: seq<Phi>, moves: seq<seq<Move>>, i: nat)
    requires i < |ref| && |p.incoming| == |ref|
  {
    var b := ref[i].block;
    && p.incoming[i].block == b && b < |moves| && Covers(p0, b)
    && Stands(moves[b], p.incoming[i].value, ValueFor(p0, b))
    && forall j :: 0 <= j < |early| ==> p.incoming[i].value != Reg(early[j].reg)
  }

  ghost predicate CleanBlock(ps0: seq<Phi>, ps: seq<Phi>, moves: seq<seq<Move>>) {
    && |ps| == |ps0|
    && forall j :: 0 <= j < |ps| ==> CleanPhi(ps0[j], ps[j], ps0[0].incoming, ps0[..j], moves)
  }

  // ------------------------------------------------------- clean blocks run correctly

  lemma {:induction false} MovesWriteTemps(ms: seq<Move>, n: int, next: int, env: Env, x: int)
    requires WfMoves(ms, n, next) && x < n
    ensures Get(RunMoves(ms, env), Reg(x)) == Get(env, Reg(x))
  {
    if ms == [] {
    } else {
      MovesWriteTemps(ms[..|ms| - 1], n, next, env, x);
    }
  }

  lemma {:induction false} MoveHolds(ms: seq<Move>, n: int, next: int, env: Env, k: nat)
    requires WfMoves(ms, n, next) && k < |ms|
    ensures Get(RunMoves(ms, env), Reg(ms[k].tmp)) == Get(env, ms[k].value)
  {
    var m := |ms| - 1;
    if k < m {
      MoveHolds(ms[..m], n, next, env, k);
      assert ms[..m][k] == ms[k];
    } else if ms[k].value.Reg? {
      MovesWriteTemps(ms[..m], n, next, env, ms[k].value.r);
    }
  }

  lemma {:induction false} StandsMeans(ms: seq<Move>, n: int, next: int, env: Env, v': Value, v: Value)
    requires WfMoves(ms, n, next) && Stands(ms, v', v) && Below(v, n)
    ensures Get(RunMoves(ms, env), v') == Get(env, v)
  {
    if v' == v {
      if v.Reg? { MovesWriteTemps(ms, n, next, env, v.r); }
    } else {
      var k :| 0 <= k < |ms| && v' == Reg(ms[k].tmp) && ms[k].value == v;
      MoveHolds(ms, n, next, env, k);
    }
  }

  /** PHIs that read no earlier result read what was there before the first of them. */
  lemma {:induction false} PhisInOrder(ps: seq<Phi>, i: nat, env: Env)
    requires forall j :: 0 <= j < |ps| ==> i < |ps[j].incoming|
    requires forall j, k :: 0 <= j < k < |ps| ==> ps[k].incoming[i].value != Reg(ps[j].reg) && ps[j].reg != ps[k].reg
    ensures forall j :: 0 <= j < |ps| ==> Get(RunPhis(ps, i, env), Reg(ps[j].reg)) == Get(env, ps[j].incoming[i].value)
    ensures forall v :: (forall j :: 0 <= j < |ps| ==> v != Reg(ps[j].reg)) ==> Get(RunPhis(ps, i, env), v) == Get(env, v)
  {
    if ps == [] {
    } else {
      var n := |ps| - 1;
      PhisInOrder(ps[..n], i, env);
      assert forall j :: 0 <= j < n ==> ps[..n][j] == ps[j];
      var before := RunPhis(ps[..n], i, env);
      assert Get(before, ps[n].incoming[i].value) == Get(env, ps[n].incoming[i].value);
    }
  }

  /** Operand `i` of a clean PHI, after the moves of its block. */
  lemma {:induction false} OperandHolds(ps0: seq<Phi>, ps: seq<Phi>, moves: seq<seq<Move>>, n: int, next: int, i: nat, j: nat, env: Env)
    requires WfBlock(ps0, n, |moves|) && CleanBlock(ps0, ps, moves) && j < |ps| && i < |ps0[0].incoming|
    ensures |ps[j].incoming| == |ps0[0].incoming| && ps[j].reg == ps0[j].reg && ps0[j].reg < n
    ensures var src := ps0[0].incoming[i].block;
            && ps[j].incoming[i].block == src && src < |moves| && Covers(ps0[j], src)
            && (WfMoves(moves[src], n, next) ==>
                 Get(RunMoves(moves[src], env), ps[j].incoming[i].value) == Get(env, ValueFor(ps0[j], src)))
    ensures forall k :: 0 <= k < j ==> ps[j].incoming[i].value != Reg(ps0[k].reg)
  {
    var src := ps0[0].incoming[i].block;
    assert WfPhi(ps0[j], ps0[0].incoming, n, |moves|);
    assert CleanPhi(ps0[j], ps[j], ps0[0].incoming, ps0[..j], moves);
    assert CleanEntry(ps0[j], ps[j], ps0[0].incoming, ps0[..j], moves, i);
    forall k | 0 <= k < j ensures ps[j].incoming[i].value != Reg(ps0[k].reg) { assert ps0[..j][k] == ps0[k]; }
    if WfMoves(moves[src], n, next) {
      StandsMeans(moves[src], n, next, env, ps[j].incoming[i].value, ValueFor(ps0[j], src));
    }
  }

  lemma {:induction false} FirstEntries(ps0: seq<Phi>, ps: seq<Phi>, moves: seq<seq<Move>>, src: nat)
    requires |ps0| > 0 && CleanBlock(ps0, ps, moves) && Covers(ps[0], src)
    ensures var i := Index(ps[0].incoming, src); i < |ps0[0].incoming| && ps0[0].incoming[i].block == src
  {
    var i := Index(ps[0].incoming, src);
    assert CleanPhi(ps0[0], ps[0], ps0[0].incoming, ps0[..0], moves);
    assert CleanEntry(ps0[0], ps[0], ps0[0].incoming, ps0[..0], moves, i);
  }

  /** The claim about one edge: run the moves at the end of `src`, find the operand index
      from the first PHI, and execute the PHIs in order. */
  ghost predicate EdgeAgrees(ps0: seq<Phi>, ps: seq<Phi>, ms: seq<Move>, n: int, src: nat, env: Env) {
    && |ps| == |ps0| > 0
    && var i := Index(ps[0].incoming, src);
       && (forall j :: 0 <= j < |ps| ==> i < |ps[j].incoming| && Covers(ps0[j], src))
       && Simultaneous(ps0, src, env, RunPhis(ps, i, RunMoves(ms, env)), n)
  }

  lemma {:induction false} CleanEdge(ps0: seq<Phi>, ps: seq<Phi>, moves: seq<seq<Move>>, n: int, next: int, src: nat, env: Env)
    requires |ps0| > 0 && WfBlock(ps0, n, |moves|) && CleanBlock(ps0, ps, moves)
    requires Covers(ps[0], src) && src < |moves| && WfMoves(moves[src], n, next)
    ensures EdgeAgrees(ps0, ps, moves[src], n, src, env)
  {
    FirstEntries(ps0, ps, moves, src);
    var i := Index(ps[0].incoming, src);
    assert |ps| == |ps0| && (forall j, k :: 0 <= j < k < |ps0| ==> ps0[j].reg != ps0[k].reg);
    forall j | 0 <= j < |ps|
      ensures i < |ps[j].incoming| && Covers(ps0[j], src) && ps[j].reg == ps0[j].reg && ps0[j].reg < n
      ensures Get(RunMoves(moves[src], env), ps[j].incoming[i].value) == Get(env, ValueFor(ps0[j], src))
      ensures forall k :: 0 <= k < j ==> ps[j].incoming[i].value != Reg(ps0[k].reg)
    {
      OperandHolds(ps0, ps, moves, n, next, i, j, env);
    }
    hide *;
    var mid := RunMoves(moves[src], env);
    forall x | x < n ensures Get(mid, Reg(x)) == Get(env, Reg(x)) { MovesWriteTemps(moves[src], n, next, env, x); }
    InOrderIsSimultaneous(ps0, ps, i, src, env, mid, n);
    EdgeMeans(ps0, ps, moves[src], n, src, env);
  }

  lemma {:induction false} EdgeMeans(ps0: seq<Phi>, ps: seq<Phi>, ms: seq<Move>, n: int, src: nat, env: Env)
    requires |ps| == |ps0| > 0
    requires forall j :: 0 <= j < |ps| ==> Index(ps[0].incoming, src) < |ps[j].incoming| && Covers(ps0[j], src)
    requires Simultaneous(ps0, src, env, RunPhis(ps, Index(ps[0].incoming, src), RunMoves(ms, env)), n)
    ensures EdgeAgrees(ps0, ps, ms, n, src, env)
  { }

  lemma {:induction false} InOrderIsSimultaneous(ps0: seq<Phi>, ps: seq<Phi>, i: nat, src: nat, env: Env, mid: Env, n: int)
    requires |ps| == |ps0|
    requires forall j, k :: 0 <= j < k < |ps0| ==> ps0[j].reg != ps0[k].reg
    requires forall j :: 0 <= j < |ps| ==> i < |ps[j].incoming| && Covers(ps0[j], src) && ps[j].reg == ps0[j].reg
    requires forall j :: 0 <= j < |ps| ==> Get(mid, ps[j].incoming[i].value) == Get(env, ValueFor(ps0[j], src))
    requires forall j, k :: 0 <= k < j < |ps| ==> ps[j].incoming[i].value != Reg(ps0[k].reg)
    requires forall x :: x < n ==> Get(mid, Reg(x)) == Get(env, Reg(x))
    ensures Simultaneous(ps0, src, env, RunPhis(ps, i, mid), n)
  {
    PhisInOrder(ps, i, mid);
    hide RunPhis, Get, Index, ValueFor, Covers;
  }

  // ------------------------------------------------------------------ moves only grow

  ghost predicate Grown(a: seq<seq<Move>>, b: seq<seq<Move>>) {
    |a| == |b| && forall k :: 0 <= k < |a| ==> a[k] <= b[k]
  }

  lemma {:induction false} StandsGrown(a: seq<Move>, b: seq<Move>, v': Value, v: Value)
    requires Stands(a, v', v) && a <= b
    ensures Stands(b, v', v)
  {
    if v' != v {
      var k :| 0 <= k < |a| && v' == Reg(a[k].tmp) && a[k].value == v;
      assert b[k] == a[k];
    }
  }

  lemma {:induction false} EntryGrown(p0: Phi, p: Phi, ref: seq<Incoming>, early: seq<Phi>, a: seq<seq<Move>>, b: seq<seq<Move>>, i: nat)
    requires Grown(a, b) && i < |ref| && |p.incoming| == |ref| && CleanEntry(p0, p, ref, early, a, i)
    ensures CleanEntry(p0, p, ref, early, b, i)
  {
    var k := ref[i].block;
    StandsGrown(a[k], b[k], p.incoming[i].value, ValueFor(p0, k));
  }

  lemma {:induction false} PhiGrown(p0: Phi, p: Phi, ref: seq<Incoming>, early: seq<Phi>, a: seq<seq<Move>>, b: seq<seq<Move>>)
    requires Grown(a, b) && CleanPhi(p0, p, ref, early, a)
    ensures CleanPhi(p0, p, ref, early, b)
  {
    forall i | 0 <= i < |ref| ensures CleanEntry(p0, p, ref, early, b, i) { EntryGrown(p0, p, ref, early, a, b, i); }
  }

  lemma {:induction false} BlockGrown(ps0: seq<Phi>, ps: seq<Phi>, a: seq<seq<Move>>, b: seq<seq<Move>>)
    requires Grown(a, b) && CleanBlock(ps0, ps, a)
    ensures CleanBlock(ps0, ps, b)
  {
    forall j | 0 <= j < |ps| ensures CleanPhi(ps0[j], ps[j], ps0[0].incoming, ps0[..j], b) {
      PhiGrown(ps0[j], ps[j], ps0[0].incoming, ps0[..j], a, b);
    }
  }

  ghost predicate AllMoves(moves: seq<seq<Move>>, n: int, next: int) {
    n <= next && forall b :: 0 <= b < |moves| ==> WfMoves(moves[b], n, next)
  }

  function AddMove(moves: seq<seq<Move>>, b: nat, m: Move): (r: seq<seq<Move>>)
    requires b < |moves|
  {
    moves[b := moves[b] + [m]]
  }

  lemma {:induction false} MoveAdded(moves: seq<seq<Move>>, n: int, next: int, b: nat, v: Value)
    requires AllMoves(moves, n, next) && b < |moves| && Below(v, n)
    ensures var r := AddMove(moves, b, Move(next, v));
            && AllMoves(r, n, next + 1) && Grown(moves, r) && Stands(r[b], Reg(next), v)
  {
    var r := AddMove(moves, b, Move(next, v));
    assert r[b][|moves[b]|] == Move(next, v);
    forall k | 0 <= k < |r| ensures WfMoves(r[k], n, next + 1) {
      assert WfMoves(moves[k], n, next);
    }
  }

  // --------------------------------------------------------------------- the pass

  /** `p` with its entries in the order of `ref`. */
  ghost predicate Ordered(p0: Phi, p: Phi, ref: seq<Incoming>) {
    && p.reg == p0.reg && |p.incoming| == |ref|
    && forall i :: 0 <= i < |ref| ==> Covers(p0, ref[i].block) && p.incoming[i] == Incoming(ref[i].block, ValueFor(p0, ref[i].block))
  }

  lemma {:induction false} InPlaceIsOrdered(p0: Phi, ref: seq<Incoming>, n: int, blocks: nat)
    requires WfPhi(p0, ref, n, blocks) && forall i :: 0 <= i < |ref| ==> p0.incoming[i].block == ref[i].block
    ensures Ordered(p0, p0, ref)
  {
    hide Index, ValueFor;
  }

  method InOrder(p0: Phi, ref: seq<Incoming>) returns (yes: bool)
    requires |p0.incoming| == |ref|
    ensures yes <==> forall i :: 0 <= i < |ref| ==> p0.incoming[i].block == ref[i].block
  {
    var i := 0;
    while i < |ref| && p0.incoming[i].block == ref[i].block
      invariant 0 <= i <= |ref| && forall k :: 0 <= k < i ==> p0.incoming[k].block == ref[k].block
    {
      i := i + 1;
    }
    return i == |ref|;
  }

  /** The values in the new order are collected first, then written back. */
  method Rewrite(p0: Phi, ref: seq<Incoming>) returns (p: Phi)
    requires |p0.incoming| == |ref| && forall i :: 0 <= i < |ref| ==> Covers(p0, ref[i].block)
    ensures Ordered(p0, p, ref)
  {
    hide Covers, ValueFor;
    var values: seq<Value> := [];
    for k := 0 to |ref|
      invariant |values| == k && forall m :: 0 <= m < k ==> values[m] == ValueFor(p0, ref[m].block)
    {
      values := values + [ValueFor(p0, ref[k].block)];
    }
    var entries := p0.incoming;
    for k := 0 to |ref|
      invariant |entries| == |ref|
      invariant forall m :: 0 <= m < k ==> entries[m] == Incoming(ref[m].block, values[m])
    {
      entries := entries[k := Incoming(ref[k].block, values[k])];
    }
    p := Phi(p0.reg, entries);
  }

  /** Entries are rewritten only if some entry is out of order. */
  method Reorder(p0: Phi, ref: seq<Incoming>, ghost n: int, ghost blocks: nat) returns (p: Phi)
    requires WfPhi(p0, ref, n, blocks)
    ensures Ordered(p0, p, ref)
  {
    var yes := InOrder(p0, ref);
    if yes {
      InPlaceIsOrdered(p0, ref, n, blocks);
      p := p0;
    } else {
      p := Rewrite(p0, ref);
    }
  }

  lemma {:induction false} EntryKept(p0: Phi, p: Phi, p': Phi, ref: seq<Incoming>, early: seq<Phi>, a: seq<seq<Move>>, b: seq<seq<Move>>, i: nat)
    requires Grown(a, b) && i < |ref| && |p.incoming| == |p'.incoming| == |ref| && p'.incoming[i] == p.incoming[i]
    requires CleanEntry(p0, p, ref, early, a, i)
    ensures CleanEntry(p0, p', ref, early, b, i)
  {
    EntryGrown(p0, p, ref, early, a, b, i);
  }

  /** Writing the temporary of a new move into entry `i` makes it clean. */
  lemma {:induction false} MovedEntry(p0: Phi, p: Phi, ref: seq<Incoming>, early: seq<Phi>, moves: seq<seq<Move>>, n: int, next: int, i: nat)
    requires i < |ref| && |p.incoming| == |ref| && ref[i].block < |moves| && Covers(p0, ref[i].block) && n <= next
    requires p.incoming[i] == Incoming(ref[i].block, Reg(next))
    requires Stands(moves[ref[i].block], Reg(next), ValueFor(p0, ref[i].block))
    requires forall j :: 0 <= j < |early| ==> early[j].reg < n
    ensures CleanEntry(p0, p, ref, early, moves, i)
  { }

  class Cleaner {
    var phis: seq<seq<Phi>>
    var moves: seq<seq<Move>>
    var next: int

    constructor (phis: seq<seq<Phi>>, next: int)
      ensures this.phis == phis && this.next == next
      ensures |moves| == |phis| && forall b :: 0 <= b < |moves| ==> moves[b] == []
    {
      this.phis, this.next := phis, next;
      moves := seq(|phis|, _ => []);
    }

    /** Entry `i`, if it reads an earlier PHI, reads a temporary instead. */
    method CleanOperand(p0: Phi, p: Phi, ref: seq<Incoming>, early: seq<Phi>, i: nat, ghost n: int) returns (p': Phi)
      requires WfPhi(p0, ref, n, |moves|) && AllMoves(moves, n, next)
      requires |p.incoming| == |ref| && i < |ref| && ref[i].block < |moves|
      requires p.incoming[i] == Incoming(ref[i].block, ValueFor(p0, ref[i].block)) && Below(p.incoming[i].value, n)
      requires forall j :: 0 <= j < |early| ==> early[j].reg < n
      modifies this`moves, this`next
      ensures AllMoves(moves, n, next) && Grown(old(moves), moves)
      ensures p'.reg == p.reg && |p'.incoming| == |ref| && CleanEntry(p0, p', ref, early, moves, i)
      ensures forall k :: 0 <= k < |ref| && k != i ==> p'.incoming[k] == p.incoming[k]
      ensures if exists j :: 0 <= j < |early| && p.incoming[i].value == Reg(early[j].reg)
              then next == old(next) + 1 && p'.incoming[i].value == Reg(old(next))
              else next == old(next) && moves == old(moves) && p' == p
    {
      p' := p;
      var v, b := p.incoming[i].value, ref[i].block;
      if exists j :: 0 <= j < |early| && v == Reg(early[j].reg) {
        MoveAdded(moves, n, next, b, v);
        hide AllMoves, Grown, Stands, WfPhi, AddMove;
        var tmp := next;
        moves, next := AddMove(moves, b, Move(tmp, v)), next + 1;
        p' := p.(incoming := p.incoming[i := Incoming(b, Reg(tmp))]);
        MovedEntry(p0, p', ref, early, moves, n, tmp, i);
      }
    }

    /** One PHI after the first. */
    method CleanOne(p0: Phi, ref: seq<Incoming>, early: seq<Phi>, ghost n: int) returns (p: Phi)
      requires WfPhi(p0, ref, n, |moves|) && AllMoves(moves, n, next)
      requires forall i :: 0 <= i < |ref| ==> ref[i].block < |moves|
      requires forall j :: 0 <= j < |early| ==> early[j].reg < n
      modifies this`moves, this`next
      ensures AllMoves(moves, n, next) && Grown(old(moves), moves)
      ensures CleanPhi(p0, p, ref, early, moves)
    {
      p := Reorder(p0, ref, n, |moves|);
      ghost var q := p;
      OrderedBelow(p0, p, ref, n, |moves|);
      hide Grown, AllMoves, WfPhi, CleanEntry, Ordered;
      GrownRefl(moves);
      for i := 0 to |ref|
        invariant AllMoves(moves, n, next) && Grown(old(moves), moves) && |moves| == |old(moves)|
        invariant p.reg == p0.reg && |p.incoming| == |ref|
        invariant forall k :: i <= k < |ref| ==> p.incoming[k] == q.incoming[k]
        invariant forall k :: 0 <= k < i ==> CleanEntry(p0, p, ref, early, moves, k)
      {
        ghost var before, ms := p, moves;
        p := CleanOperand(p0, p, ref, early, i, n);
        GrownTrans(old(moves), ms, moves);
        forall k | 0 <= k < i ensures CleanEntry(p0, p, ref, early, moves, k) {
          EntryKept(p0, before, p, ref, early, ms, moves, k);
        }
      }
    }

    /** The PHIs of block `b`, the first of which is the reference. */
    method CleanAt(b: nat, ghost n: int)
      requires b < |phis| && WfBlock(phis[b], n, |moves|) && AllMoves(moves, n, next)
      modifies this
      ensures AllMoves(moves, n, next) && Grown(old(moves), moves)
      ensures |phis| == |old(phis)| && forall c :: 0 <= c < |phis| && c != b ==> phis[c] == old(phis)[c]
      ensures CleanBlock(old(phis)[b], phis[b], moves)
    {
      var ps0 := phis[b];
      GrownRefl(moves);
      if phis[b] != [] {
        var ref := phis[b][0].incoming;
        FirstIsClean(phis[b], moves, n);
        for j := 1 to |phis[b]|
          invariant AllMoves(moves, n, next) && Grown(old(moves), moves) && |moves| == |old(moves)|
          invariant |phis| == |old(phis)| && forall c :: 0 <= c < |phis| && c != b ==> phis[c] == old(phis)[c]
          invariant CleanUpTo(ps0, phis[b], moves, j)
        {
          hide Grown, AllMoves, CleanPhi, WfPhi;
          RefInside(ps0, n, |moves|, j);
          ghost var ms, ps := moves, phis[b];
          var p := CleanOne(phis[b][j], ref, ps0[..j], n);
          GrownTrans(old(moves), ms, moves);
          OneMoreClean(ps0, ps, p, ms, moves, j);
          phis := phis[b := phis[b][j := p]];
        }
      }
    }

    /** Main theorem: after the pass, for every block, every edge into it and every
        environment, executing the PHIs in order with the operand index of the first one
        has the effect of the original PHIs executed at once. No PHI appears or goes, and
        on any other edge out of a block its moves are invisible. */
    method RunOnFunction()
      requires |moves| == |phis| && forall b :: 0 <= b < |moves| ==> moves[b] == []
      requires forall b :: 0 <= b < |phis| ==> WfBlock(phis[b], next, |moves|)
      modifies this
      ensures |phis| == |old(phis)| == |moves|
      ensures forall b :: 0 <= b < |phis| ==> |phis[b]| == |old(phis)[b]|
      ensures forall b, src, env :: 0 <= b < |phis| && old(phis)[b] != [] && 0 <= src < |moves| && Covers(old(phis)[b][0], src) ==>
        EdgeAgrees(old(phis)[b], phis[b], moves[src], old(next), src, env)
      ensures forall src, env, x :: 0 <= src < |moves| && x < old(next) ==>
        Get(RunMoves(moves[src], env), Reg(x)) == Get(env, Reg(x))
    {
      ghost var n := next;
      for b := 0 to |phis|
        invariant |phis| == |old(phis)| == |moves| && AllMoves(moves, n, next)
        invariant forall c :: b <= c < |phis| ==> phis[c] == old(phis)[c]
        invariant forall c :: 0 <= c < b ==> CleanBlock(old(phis)[c], phis[c], moves)
      {
        hide CleanBlock, AllMoves, WfBlock;
        ghost var ms, before := moves, phis;
        CleanAt(b, n);
        forall c | 0 <= c < b ensures CleanBlock(old(phis)[c], phis[c], moves) {
          BlockGrown(old(phis)[c], phis[c], ms, moves);
        }
      }
      hide CleanBlock, WfBlock, WfMoves, Covers, EdgeAgrees, RunMoves, Get;
      forall b | 0 <= b < |phis| ensures |phis[b]| == |old(phis)[b]| { SameLength(old(phis)[b], phis[b], moves); }
      forall src: nat, env, x | 0 <= src < |moves| && x < n
        ensures Get(RunMoves(moves[src], env), Reg(x)) == Get(env, Reg(x))
      {
        MovesWriteTemps(moves[src], n, next, env, x);
      }
      forall b, src: nat, env | 0 <= b < |phis| && old(phis)[b] != [] && 0 <= src < |moves| && Covers(old(phis)[b][0], src)
        ensures EdgeAgrees(old(phis)[b], phis[b], moves[src], n, src, env)
      {
        StillCovers(old(phis)[b], phis[b], moves, src);
        CleanEdge(old(phis)[b], phis[b], moves, n, next, src, env);
      }
    }
  }

  /** The first PHI keeps its edges. */
  lemma {:induction false} StillCovers(ps0: seq<Phi>, ps: seq<Phi>, moves: seq<seq<Move>>, src: nat)
    requires ps0 != [] && CleanBlock(ps0, ps, moves) && Covers(ps0[0], src)
    ensures |ps| == |ps0| && Covers(ps[0], src)
  {
    var i := Index(ps0[0].incoming, src);
    assert CleanPhi(ps0[0], ps[0], ps0[0].incoming, ps0[..0], moves);
    assert CleanEntry(ps0[0], ps[0], ps0[0].incoming, ps0[..0], moves, i);
  }

  lemma {:induction false} SameLength(ps0: seq<Phi>, ps: seq<Phi>, moves: seq<seq<Move>>)
    requires CleanBlock(ps0, ps, moves)
    ensures |ps| == |ps0|
  { }

  lemma {:induction false} GrownRefl(a: seq<seq<Move>>)
    ensures Grown(a, a)
  { }

  lemma {:induction false} GrownTrans(a: seq<seq<Move>>, b: seq<seq<Move>>, c: seq<seq<Move>>)
    requires Grown(a, b) && Grown(b, c)
    ensures Grown(a, c) && |b| == |c|
  { }

  lemma {:induction false} OrderedBelow(p0: Phi, p: Phi, ref: seq<Incoming>, n: int, blocks: nat)
    requires WfPhi(p0, ref, n, blocks) && Ordered(p0, p, ref)
    ensures p.reg == p0.reg && |p.incoming| == |ref|
    ensures forall i :: 0 <= i < |ref| ==> Covers(p0, ref[i].block) && p.incoming[i] == Incoming(ref[i].block, ValueFor(p0, ref[i].block))
    ensures forall i :: 0 <= i < |ref| ==> Below(p.incoming[i].value, n)
  { }

  ghost predicate CleanUpTo(ps0: seq<Phi>, ps: seq<Phi>, moves: seq<seq<Move>>, m: nat) {
    && |ps| == |ps0| && m <= |ps|
    && (forall j :: 0 <= j < m ==> CleanPhi(ps0[j], ps[j], ps0[0].incoming, ps0[..j], moves))
    && (forall j :: m <= j < |ps| ==> ps[j] == ps0[j])
  }

  lemma {:induction false} FirstIsClean(ps: seq<Phi>, moves: seq<seq<Move>>, n: int)
    requires |ps| > 0 && WfBlock(ps, n, |moves|)
    ensures CleanUpTo(ps, ps, moves, 1)
  {
    assert WfPhi(ps[0], ps[0].incoming, n, |moves|);
  }

  lemma {:induction false} RefInside(ps0: seq<Phi>, n: int, blocks: nat, j: nat)
    requires WfBlock(ps0, n, blocks) && j < |ps0|
    ensures WfPhi(ps0[j], ps0[0].incoming, n, blocks)
    ensures forall i :: 0 <= i < |ps0[0].incoming| ==> ps0[0].incoming[i].block < blocks
    ensures forall k :: 0 <= k < j ==> ps0[..j][k].reg < n
  {
    assert WfPhi(ps0[0], ps0[0].incoming, n, blocks);
    forall k | 0 <= k < j ensures ps0[..j][k].reg < n { assert WfPhi(ps0[k], ps0[0].incoming, n, blocks); }
  }

  lemma {:induction false} OneMoreClean(ps0: seq<Phi>, ps: seq<Phi>, p: Phi, a: seq<seq<Move>>, b: seq<seq<Move>>, j: nat)
    requires CleanUpTo(ps0, ps, a, j) && Grown(a, b) && j < |ps|
    requires CleanPhi(ps0[j], p, ps0[0].incoming, ps0[..j], b)
    ensures CleanUpTo(ps0, ps[j := p], b, j + 1)
  {
    forall k | 0 <= k < j ensures CleanPhi(ps0[k], ps[k], ps0[0].incoming, ps0[..k], b) {
      PhiGrown(ps0[k], ps[k], ps0[0].incoming, ps0[..k], a, b);
    }
  }
}
