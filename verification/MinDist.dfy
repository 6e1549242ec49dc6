/** Shortest distances to a function's return, across calls: a sweep over all
    instructions, repeated until nothing changes. 0 stands for unreachable. */
module MinDist {

  /** An instruction; the next one of its block follows it in the module unless it is a
      terminator, which has the first instructions of the successor blocks instead. */
  datatype Inst = Inst(isRet: bool, isCall: bool, targets: seq<nat>, isTerminator: bool, branches: seq<nat>, fn: nat)

  datatype Function = Declaration(doesNotReturn: bool) | Definition(entry: nat)

  datatype Program = Program(insts: seq<Inst>, fns: seq<Function>)

  /** Control may pass from instruction `i` to `to`. */
  predicate Follows(p: Program, i: nat, to: nat)
    requires i < |p.insts|
  {
    if p.insts[i].isTerminator then to in p.insts[i].branches else to == i + 1
  }

  function Succs(p: Program, i: nat): (s: seq<nat>)
    requires i < |p.insts|
    ensures forall to: nat :: to in s <==> Follows(p, i, to)
  {
    if p.insts[i].isTerminator then p.insts[i].branches else [i + 1]
  }

  ghost predicate Wf(p: Program) {
    && (forall i :: 0 <= i < |p.insts| ==> WfInst(p, i))
    && (forall f :: 0 <= f < |p.fns| && p.fns[f].Definition? ==>
         p.fns[f].entry < |p.insts| && p.insts[p.fns[f].entry].fn == f)
  }

  ghost predicate WfInst(p: Program, i: nat)
    requires i < |p.insts|
  {
    var inst := p.insts[i];
    && (forall to: nat :: Follows(p, i, to) ==> to < |p.insts|)
    && (forall f :: f in inst.targets ==> f < |p.fns|)
    && (inst.isRet ==> (forall to: nat :: !Follows(p, i, to)) && !inst.isCall)
    && inst.fn < |p.fns| && p.fns[inst.fn].Definition?
  }

  // ----------------------------------------------------------------- executions

  /** A properly nested execution from an instruction to the return of its function. */
  datatype Exec =
    | Done
    | Step(to: nat, rest: Exec)
    | External(target: nat, to: nat, rest: Exec)
    | Call(target: nat, body: Exec, to: nat, rest: Exec)

  ghost predicate Runs(p: Program, i: nat, e: Exec)
    decreases e
  {
    && i < |p.insts|
    && match e
       case Done => p.insts[i].isRet
       case Step(to, rest) => !p.insts[i].isCall && Follows(p, i, to) && Runs(p, to, rest)
       case External(f, to, rest) =>
         && p.insts[i].isCall && f in p.insts[i].targets && Follows(p, i, to)
         && f < |p.fns| && p.fns[f] == Declaration(false)
         && Runs(p, to, rest)
       case Call(f, body, to, rest) =>
         && p.insts[i].isCall && f in p.insts[i].targets && Follows(p, i, to)
         && f < |p.fns| && p.fns[f].Definition? && Runs(p, p.fns[f].entry, body)
         && Runs(p, to, rest)
  }

  /** One per instruction, and one for the whole of a function that is only declared. */
  function Cost(e: Exec): (n: nat)
    ensures n > 0
  {
    match e
    case Done => 1
    case Step(_, rest) => 1 + Cost(rest)
    case External(_, _, rest) => 2 + Cost(rest)
    case Call(_, body, _, rest) => 1 + Cost(body) + Cost(rest)
  }

  ghost predicate Reaches(p: Program, i: nat, n: nat) {
    exists e :: Runs(p, i, e) && Cost(e) == n
  }

  /** The specification: `n` is the least cost, or 0 if there is no execution at all. */
  ghost predicate LeastCost(p: Program, i: nat, n: nat) {
    && (n == 0 <==> forall e :: !Runs(p, i, e))
    && (n != 0 ==> Reaches(p, i, n))
    && (forall e :: Runs(p, i, e) ==> n <= Cost(e))
  }

  // ------------------------------------------------------------------ invariants

  ghost predicate Shaped(p: Program, d: seq<nat>, sp: seq<nat>) {
    |d| == |p.insts| && |sp| == |p.fns|
  }

  /** Every distance found is the cost of some execution. */
  ghost predicate Sound(p: Program, d: seq<nat>, sp: seq<nat>)
    requires Shaped(p, d, sp)
  {
    && (forall i :: 0 <= i < |d| && d[i] != 0 ==> Reaches(p, i, d[i]))
    && (forall f :: 0 <= f < |sp| && p.fns[f].Definition? && sp[f] != 0 ==> Reaches(p, p.fns[f].entry, sp[f]))
    && (forall f :: 0 <= f < |sp| && p.fns[f].Declaration? ==> sp[f] == if p.fns[f].doesNotReturn then 0 else 1)
  }

  /** Returns are known from the start, and a function's distance is that of its entry,
      except before the first visit of an entry that is a return. */
  ghost predicate Linked(p: Program, d: seq<nat>, sp: seq<nat>)
    requires Shaped(p, d, sp) && Wf(p)
  {
    && (forall i :: 0 <= i < |d| && p.insts[i].isRet ==> d[i] == 1)
    && (forall f :: 0 <= f < |sp| && p.fns[f].Definition? ==>
         sp[f] == d[p.fns[f].entry] || (sp[f] == 0 && p.insts[p.fns[f].entry].isRet))
  }

  /** No shorter way through instruction `i` is known. */
  ghost predicate Settled(p: Program, d: seq<nat>, sp: seq<nat>, i: nat)
    requires Shaped(p, d, sp) && i < |d| && WfInst(p, i)
  {
    && (!p.insts[i].isCall ==> forall s :: s in Succs(p, i) && d[s] != 0 ==> 0 < d[i] <= 1 + d[s])
    && (p.insts[i].isCall ==> forall f, s :: f in p.insts[i].targets && s in Succs(p, i) && sp[f] != 0 && d[s] != 0 ==>
         0 < d[i] <= 1 + sp[f] + d[s])
    && (p.insts[i].isRet && p.fns[p.insts[i].fn].entry == i ==> sp[p.insts[i].fn] == d[i])
  }

  ghost predicate AllSettled(p: Program, d: seq<nat>, sp: seq<nat>)
    requires Shaped(p, d, sp) && Wf(p)
  {
    forall i :: 0 <= i < |d| ==> Settled(p, d, sp, i)
  }

  /** A function whose distance is settled costs what its entry costs. */
  lemma {:induction false} EntrySettled(p: Program, d: seq<nat>, sp: seq<nat>, f: nat)
    requires Wf(p) && Shaped(p, d, sp) && Linked(p, d, sp) && AllSettled(p, d, sp)
    requires f < |p.fns| && p.fns[f].Definition?
    ensures p.fns[f].entry < |d| && sp[f] == d[p.fns[f].entry]
  {
    assert Settled(p, d, sp, p.fns[f].entry);
  }

  lemma {:induction false} StepSettled(p: Program, d: seq<nat>, sp: seq<nat>, i: nat, s: nat)
    requires Wf(p) && Shaped(p, d, sp) && AllSettled(p, d, sp)
    requires i < |d| && !p.insts[i].isCall && s in Succs(p, i)
    ensures s < |d| && (d[s] != 0 ==> 0 < d[i] <= 1 + d[s])
  {
    assert WfInst(p, i);
    assert Settled(p, d, sp, i);
  }

  lemma {:induction false} CallSettled(p: Program, d: seq<nat>, sp: seq<nat>, i: nat, f: nat, s: nat)
    requires Wf(p) && Shaped(p, d, sp) && AllSettled(p, d, sp)
    requires i < |d| && p.insts[i].isCall && f in p.insts[i].targets && s in Succs(p, i)
    ensures s < |d| && f < |sp| && (d[s] != 0 && sp[f] != 0 ==> 0 < d[i] <= 1 + sp[f] + d[s])
  {
    assert WfInst(p, i);
    assert Settled(p, d, sp, i);
  }

  lemma {:induction false} SettledIsOptimal(p: Program, d: seq<nat>, sp: seq<nat>, i: nat, e: Exec)
    requires Wf(p) && Shaped(p, d, sp) && Sound(p, d, sp) && Linked(p, d, sp) && AllSettled(p, d, sp) && Runs(p, i, e)
    ensures i < |d| && 0 < d[i] <= Cost(e)
    decreases e
  {
    hide Wf, AllSettled, Succs;
    match e
    case Done =>
    case Step(to, rest) =>
      SettledIsOptimal(p, d, sp, to, rest);
      StepSettled(p, d, sp, i, to);
    case External(f, to, rest) =>
      SettledIsOptimal(p, d, sp, to, rest);
      CallSettled(p, d, sp, i, f, to);
    case Call(f, body, to, rest) =>
      SettledIsOptimal(p, d, sp, p.fns[f].entry, body);
      SettledIsOptimal(p, d, sp, to, rest);
      EntrySettled(p, d, sp, f);
      CallSettled(p, d, sp, i, f, to);
  }

  /** At a fixpoint every distance is the least cost. */
  lemma {:induction false} FixpointIsLeast(p: Program, d: seq<nat>, sp: seq<nat>, i: nat)
    requires Wf(p) && Shaped(p, d, sp) && Sound(p, d, sp) && Linked(p, d, sp) && AllSettled(p, d, sp) && i < |d|
    ensures LeastCost(p, i, d[i])
  {
    forall e | Runs(p, i, e) ensures 0 < d[i] <= Cost(e) { SettledIsOptimal(p, d, sp, i, e); }
  }

  // --------------------------------------------------------- witnesses of a change

  lemma {:induction false} StepWitness(p: Program, d: seq<nat>, sp: seq<nat>, i: nat, s: nat)
    requires Shaped(p, d, sp) && Sound(p, d, sp)
    requires i < |d| && !p.insts[i].isCall && s in Succs(p, i) && s < |d| && d[s] != 0
    ensures Reaches(p, i, 1 + d[s])
  {
    var e :| Runs(p, s, e) && Cost(e) == d[s];
    assert Runs(p, i, Step(s, e));
  }

  lemma {:induction false} CallWitness(p: Program, d: seq<nat>, sp: seq<nat>, i: nat, f: nat, s: nat)
    requires Shaped(p, d, sp) && Sound(p, d, sp)
    requires i < |d| && p.insts[i].isCall && f in p.insts[i].targets && f < |sp| && sp[f] != 0
    requires s in Succs(p, i) && s < |d| && d[s] != 0
    ensures Reaches(p, i, 1 + sp[f] + d[s])
  {
    var e :| Runs(p, s, e) && Cost(e) == d[s];
    if p.fns[f].Declaration? {
      assert Runs(p, i, External(f, s, e));
    } else {
      var body :| Runs(p, p.fns[f].entry, body) && Cost(body) == sp[f];
      assert Runs(p, i, Call(f, body, s, e));
    }
  }

  // ------------------------------------------------------------------ termination

  function Zeros(s: seq<nat>): (n: nat) {
    if s == [] then 0 else Zeros(s[..|s| - 1]) + if s[|s| - 1] == 0 then 1 else 0
  }

  function Sum(s: seq<nat>): (n: nat) {
    if s == [] then 0 else Sum(s[..|s| - 1]) + s[|s| - 1]
  }

  lemma {:induction false} UpdateCounts(s: seq<nat>, i: nat, v: nat)
    requires i < |s|
    ensures Sum(s[i := v]) == Sum(s) - s[i] + v
    ensures Zeros(s[i := v]) == Zeros(s) - (if s[i] == 0 then 1 else 0) + (if v == 0 then 1 else 0)
  {
    var n := |s| - 1;
    var r := s[i := v];
    if i == n {
      assert r[..n] == s[..n];
    } else {
      assert r[..n] == s[..n][i := v];
      UpdateCounts(s[..n], i, v);
    }
  }

  /** Fewer unknown distances, or as many and a smaller total. */
  ghost predicate Below(d': seq<nat>, sp': seq<nat>, d: seq<nat>, sp: seq<nat>) {
    || Zeros(d') + Zeros(sp') < Zeros(d) + Zeros(sp)
    || (Zeros(d') + Zeros(sp') == Zeros(d) + Zeros(sp) && Sum(d') + Sum(sp') < Sum(d) + Sum(sp))
  }

  predicate IsEntry(p: Program, i: nat)
    requires i < |p.insts| && p.insts[i].fn < |p.fns| && p.fns[p.insts[i].fn].Definition?
  {
    p.fns[p.insts[i].fn].entry == i
  }

  /** The best distance from `i`, given the best way `through` the instruction itself. */
  ghost predicate IsBest(p: Program, d: seq<nat>, sp: seq<nat>, i: nat, best: nat)
    requires Shaped(p, d, sp) && i < |d|
  {
    && (d[i] != 0 ==> 0 < best <= d[i])
    && (best != d[i] ==> Reaches(p, i, best) && Succs(p, i) != [])
  }

  /** The distances after an improvement at `i`. */
  function Improved(p: Program, sp: seq<nat>, i: nat, best: nat): (r: seq<nat>)
    requires i < |p.insts| && |sp| == |p.fns| && p.insts[i].fn < |p.fns| && p.fns[p.insts[i].fn].Definition?
  {
    if IsEntry(p, i) then sp[p.insts[i].fn := best] else sp
  }

  lemma {:induction false} ImprovedKeeps(p: Program, d: seq<nat>, sp: seq<nat>, i: nat, best: nat)
    requires Wf(p) && Shaped(p, d, sp) && Sound(p, d, sp) && Linked(p, d, sp) && i < |d| && WfInst(p, i)
    requires IsBest(p, d, sp, i, best)
    ensures Sound(p, d[i := best], Improved(p, sp, i, best))
    ensures Linked(p, d[i := best], Improved(p, sp, i, best))
  {
    hide Reaches, Succs;
  }

  lemma {:induction false} ImprovedIsBelow(p: Program, d: seq<nat>, sp: seq<nat>, i: nat, best: nat)
    requires Wf(p) && Shaped(p, d, sp) && Linked(p, d, sp) && i < |d| && WfInst(p, i)
    requires IsBest(p, d, sp, i, best)
    requires best != d[i] || (IsEntry(p, i) && sp[p.insts[i].fn] != best)
    ensures Below(d[i := best], Improved(p, sp, i, best), d, sp)
  {
    UpdateCounts(d, i, best);
    UpdateCounts(sp, p.insts[i].fn, best);
    hide Zeros, Sum, Reaches;
  }

  // ------------------------------------------------------------------- the sweep

  /** `best` is the smaller of `start` and the values at `at` plus `base`, where 0 stands
      for infinity. */
  ghost predicate Smallest(start: nat, base: nat, values: seq<nat>, at: seq<nat>, best: nat)
    requires forall k :: k in at ==> k < |values|
  {
    && (start != 0 ==> 0 < best <= start)
    && (forall k :: k in at && values[k] != 0 ==> 0 < best <= base + values[k])
    && (best == start || exists k :: k in at && values[k] != 0 && best == base + values[k])
  }

  method FindSmallest(start: nat, base: nat, values: seq<nat>, at: seq<nat>) returns (best: nat)
    requires base > 0 && forall k :: k in at ==> k < |values|
    ensures Smallest(start, base, values, at, best)
  {
    best := start;
    for j := 0 to |at|
      invariant forall k :: k in at[..j] ==> k < |values|
      invariant Smallest(start, base, values, at[..j], best)
    {
      assert at[j] in at;
      assert at[..j + 1] == at[..j] + [at[j]];
      var dist := values[at[j]];
      if dist != 0 && (best == 0 || base + dist < best) {
        best := base + dist;
      }
    }
    assert at[..|at|] == at;
  }

  lemma {:induction false} SmallestIsBest(p: Program, d: seq<nat>, sp: seq<nat>, i: nat, through: nat, best: nat)
    requires Wf(p) && Shaped(p, d, sp) && Sound(p, d, sp) && i < |d| && WfInst(p, i) && through > 0
    requires !p.insts[i].isCall ==> through == 1
    requires p.insts[i].isCall ==> Smallest(0, 1, sp, p.insts[i].targets, through)
    requires Smallest(d[i], through, d, Succs(p, i), best)
    ensures IsBest(p, d, sp, i, best)
  {
    if best != d[i] {
      var s :| s in Succs(p, i) && d[s] != 0 && best == through + d[s];
      if !p.insts[i].isCall {
        StepWitness(p, d, sp, i, s);
      } else {
        var f :| f in p.insts[i].targets && sp[f] != 0 && through == 1 + sp[f];
        CallWitness(p, d, sp, i, f, s);
      }
    }
  }

  lemma {:induction false} UnchangedIsSettled(p: Program, d: seq<nat>, sp: seq<nat>, i: nat, through: nat)
    requires Wf(p) && Shaped(p, d, sp) && i < |d| && WfInst(p, i)
    requires !p.insts[i].isCall ==> through == 1
    requires p.insts[i].isCall ==> Smallest(0, 1, sp, p.insts[i].targets, through)
    requires through != 0 ==> Smallest(d[i], through, d, Succs(p, i), d[i])
    requires through != 0 && IsEntry(p, i) ==> sp[p.insts[i].fn] == d[i]
    ensures Settled(p, d, sp, i)
  {
  }

  class StatsTracker {
    const program: Program
    var minDistToReturn: seq<nat>
    var functionShortestPath: seq<nat>

    ghost predicate Valid()
      reads this
    {
      && Wf(program) && Shaped(program, minDistToReturn, functionShortestPath)
      && Sound(program, minDistToReturn, functionShortestPath)
      && Linked(program, minDistToReturn, functionShortestPath)
    }

    constructor (program: Program)
      requires Wf(program)
      ensures Valid() && this.program == program
    {
      this.program := program;
      minDistToReturn := seq(|program.insts|, i requires 0 <= i < |program.insts| => if program.insts[i].isRet then 1 else 0);
      functionShortestPath := seq(|program.fns|, f requires 0 <= f < |program.fns| =>
        if program.fns[f] == Declaration(false) then 1 else 0);
      new;
      forall i | 0 <= i < |program.insts| && program.insts[i].isRet ensures Reaches(program, i, 1) {
        assert Runs(program, i, Done) && Cost(Done) == 1;
      }
    }

    /** One instruction: take the best way through it and on to a successor. */
    method Relax(i: nat) returns (changed: bool)
      requires Valid() && i < |program.insts| && WfInst(program, i)
      modifies this
      ensures Valid()
      ensures !changed ==> minDistToReturn == old(minDistToReturn) && functionShortestPath == old(functionShortestPath)
      ensures !changed ==> Settled(program, minDistToReturn, functionShortestPath, i)
      ensures changed ==> Below(minDistToReturn, functionShortestPath, old(minDistToReturn), old(functionShortestPath))
    {
      hide Wf, Sound, Linked, Settled, Below, Smallest, IsBest, Succs;
      changed := false;
      var inst := program.insts[i];
      var through := 1;
      if inst.isCall {
        through := FindSmallest(0, 1, functionShortestPath, inst.targets);
      }
      var cur := minDistToReturn[i];
      var best := cur;
      if through != 0 {
        best := FindSmallest(cur, through, minDistToReturn, Succs(program, i));
        SmallestIsBest(program, minDistToReturn, functionShortestPath, i, through, best);
        if best != cur || (IsEntry(program, i) && functionShortestPath[inst.fn] != best) {
          ImprovedKeeps(program, minDistToReturn, functionShortestPath, i, best);
          ImprovedIsBelow(program, minDistToReturn, functionShortestPath, i, best);
          minDistToReturn := minDistToReturn[i := best];
          changed := true;
          if IsEntry(program, i) {
            functionShortestPath := functionShortestPath[inst.fn := best];
          }
        }
      }
      if !changed {
        UnchangedIsSettled(program, minDistToReturn, functionShortestPath, i, through);
      }
    }

    /** One pass over all instructions, last to first. */
    method Sweep() returns (changed: bool)
      requires Valid()
      modifies this
      ensures Valid()
      ensures !changed ==> minDistToReturn == old(minDistToReturn) && functionShortestPath == old(functionShortestPath)
      ensures !changed ==> AllSettled(program, minDistToReturn, functionShortestPath)
      ensures changed ==> Below(minDistToReturn, functionShortestPath, old(minDistToReturn), old(functionShortestPath))
    {
      changed := false;
      var k := |program.insts|;
      while k > 0
        invariant 0 <= k <= |program.insts| && Valid()
        invariant !changed ==> minDistToReturn == old(minDistToReturn) && functionShortestPath == old(functionShortestPath)
        invariant !changed ==> forall i :: k <= i < |program.insts| ==>
          WfInst(program, i) && Settled(program, minDistToReturn, functionShortestPath, i)
        invariant changed ==> Below(minDistToReturn, functionShortestPath, old(minDistToReturn), old(functionShortestPath))
      {
        k := k - 1;
        assert WfInst(program, k);
        var c := Relax(k);
        changed := changed || c;
      }
    }

    /** Main theorem: the repeated sweep ends, and then every instruction's value is the
        least cost of an execution from it to its function's return, 0 if there is none. */
    method ComputeMinDistToReturn()
      requires Valid()
      modifies this
      ensures Valid()
      ensures forall i :: 0 <= i < |program.insts| ==> LeastCost(program, i, minDistToReturn[i])
    {
      var changed := true;
      while changed
        invariant Valid()
        invariant !changed ==> AllSettled(program, minDistToReturn, functionShortestPath)
        decreases Zeros(minDistToReturn) + Zeros(functionShortestPath),
          Sum(minDistToReturn) + Sum(functionShortestPath), changed
      {
        changed := Sweep();
      }
      forall i | 0 <= i < |program.insts| ensures LeastCost(program, i, minDistToReturn[i]) {
        FixpointIsLeast(program, minDistToReturn, functionShortestPath, i);
      }
    }
  }
}
