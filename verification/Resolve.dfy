/** Finding the memory objects a pointer may lie in.  The solver is an exact oracle
    over the set of values the pointer can take, except that a query may time out. */
module Resolve {

  const SPACE: nat := 0x1_0000_0000_0000_0000

  datatype MemoryObject = MemoryObject(address: nat, size: nat)

  /** Bytes an object keeps to itself; a zero-sized one still has an address. */
  function Extent(mo: MemoryObject): (n: nat)
    ensures n >= 1
  {
    if mo.size == 0 then 1 else mo.size
  }

  /** Objects in address order, pairwise disjoint and not wrapping around. */
  ghost predicate Layout(objects: seq<MemoryObject>) {
    && (forall i, j :: 0 <= i < j < |objects| ==> objects[i].address + Extent(objects[i]) <= objects[j].address)
    && (forall i :: 0 <= i < |objects| ==> objects[i].address + Extent(objects[i]) <= SPACE)
  }

  ghost predicate Pointers(values: set<nat>) {
    values != {} && forall v :: v in values ==> v < SPACE
  }

  /** The bounds check, computed as the source does: an unsigned 64-bit offset. */
  predicate InBounds(mo: MemoryObject, p: nat) {
    var offset := (p - mo.address) % SPACE;
    if mo.size == 0 then offset == 0 else offset < mo.size
  }

  lemma {:induction false} InBoundsInterval(mo: MemoryObject, p: nat)
    requires mo.address + Extent(mo) <= SPACE && p < SPACE
    ensures InBounds(mo, p) <==> mo.address <= p < mo.address + Extent(mo)
  {
  }

  /** Some value of the pointer lies in the object. */
  ghost predicate MayPoint(mo: MemoryObject, values: set<nat>) {
    exists v :: v in values && InBounds(mo, v)
  }

  // --------------------------------------------------------------- the solver

  class TimingSolver {
    const timesOut: nat -> bool
    var queries: nat

    constructor (timesOut: nat -> bool)
      ensures this.timesOut == timesOut
    {
      this.timesOut := timesOut;
    }

    method MayBeTrue(values: set<nat>, cond: nat -> bool) returns (answered: bool, res: bool)
      modifies this
      ensures answered == !timesOut(old(queries)) && queries == old(queries) + 1
      ensures answered ==> (res <==> exists v :: v in values && cond(v))
    {
      answered := !timesOut(queries);
      queries := queries + 1;
      res := exists v :: v in values && cond(v);
    }

    method MustBeTrue(values: set<nat>, cond: nat -> bool) returns (answered: bool, res: bool)
      modifies this
      ensures answered == !timesOut(old(queries)) && queries == old(queries) + 1
      ensures answered ==> (res <==> forall v :: v in values ==> cond(v))
    {
      answered := !timesOut(queries);
      queries := queries + 1;
      res := forall v :: v in values ==> cond(v);
    }

    method GetValue(values: set<nat>) returns (answered: bool, value: nat)
      requires values != {}
      modifies this
      ensures answered == !timesOut(old(queries)) && queries == old(queries) + 1 && value in values
    {
      answered := !timesOut(queries);
      queries := queries + 1;
      value :| value in values;
    }
  }

  ghost predicate Reliable(solver: TimingSolver) {
    forall n :: !solver.timesOut(n)
  }

  // ------------------------------------------------------------------- lookup

  /** Index of the first object above `p`: the objects before it start at or below. */
  method UpperBound(objects: seq<MemoryObject>, p: nat) returns (k: nat)
    requires Layout(objects)
    ensures k <= |objects|
    ensures forall i :: 0 <= i < k ==> objects[i].address <= p
    ensures forall i :: k <= i < |objects| ==> p < objects[i].address
  {
    k := 0;
    while k < |objects| && objects[k].address <= p
      invariant k <= |objects|
      invariant forall i :: 0 <= i < k ==> objects[i].address <= p
    {
      k := k + 1;
    }
    forall i | k < i < |objects| ensures p < objects[i].address { assert objects[k].address < objects[i].address; }
  }

  /** A concrete address lies in an object exactly if the last one at or below does. */
  method ResolveConcrete(objects: seq<MemoryObject>, p: nat) returns (found: bool, mo: MemoryObject)
    requires Layout(objects) && p < SPACE
    ensures found ==> mo in objects && InBounds(mo, p)
    ensures !found ==> forall i :: 0 <= i < |objects| ==> !InBounds(objects[i], p)
  {
    hide InBounds;
    var k := UpperBound(objects, p);
    forall i | 0 <= i < |objects| && i + 1 != k ensures !InBounds(objects[i], p) {
      InBoundsInterval(objects[i], p);
      if i + 1 < k { assert objects[i].address + Extent(objects[i]) <= objects[k - 1].address; }
    }
    mo := MemoryObject(0, 0);
    if k > 0 {
      InBoundsInterval(objects[k - 1], p);
      mo := objects[k - 1];
      found := (mo.size == 0 && p == mo.address) || p - mo.address < mo.size;
    } else {
      found := false;
    }
  }

  // ----------------------------------------------------------- disjointness

  /** If every value lies in one object, no other object may hold one. */
  lemma {:induction false} OnlyOne(objects: seq<MemoryObject>, values: set<nat>, k: nat)
    requires Layout(objects) && Pointers(values) && k < |objects|
    requires forall v :: v in values ==> InBounds(objects[k], v)
    ensures forall i :: 0 <= i < |objects| ==> (MayPoint(objects[i], values) <==> i == k)
  {
    hide InBounds;
    forall i | 0 <= i < |objects| && i != k ensures !MayPoint(objects[i], values) {
      forall v | v in values ensures !InBounds(objects[i], v) {
        InBoundsInterval(objects[k], v);
        InBoundsInterval(objects[i], v);
        assert i < k ==> objects[i].address + Extent(objects[i]) <= objects[k].address;
        assert k < i ==> objects[k].address + Extent(objects[k]) <= objects[i].address;
      }
    }
    var v :| v in values;
    assert InBounds(objects[k], v);
  }

  /** No value below an object's start: nothing before it can hold one. */
  lemma {:induction false} NoneBefore(objects: seq<MemoryObject>, values: set<nat>, k: nat)
    requires Layout(objects) && Pointers(values) && k < |objects|
    requires forall v :: v in values ==> v >= objects[k].address
    ensures forall i :: 0 <= i < k ==> !MayPoint(objects[i], values)
  {
    hide InBounds;
    forall i, v | 0 <= i < k && v in values ensures !InBounds(objects[i], v) {
      InBoundsInterval(objects[i], v);
      assert objects[i].address + Extent(objects[i]) <= objects[k].address;
    }
  }

  /** Every value below an object's start: nothing from it on can hold one. */
  lemma {:induction false} NoneFrom(objects: seq<MemoryObject>, values: set<nat>, k: nat)
    requires Layout(objects) && Pointers(values) && k < |objects|
    requires forall v :: v in values ==> v < objects[k].address
    ensures forall i :: k <= i < |objects| ==> !MayPoint(objects[i], values)
  {
    hide InBounds;
    forall i, v | k <= i < |objects| && v in values ensures !InBounds(objects[i], v) {
      InBoundsInterval(objects[i], v);
      assert k < i ==> objects[k].address + Extent(objects[k]) <= objects[i].address;
    }
  }

  // -------------------------------------------------------------- the search

  datatype Check = Complete | Incomplete | Continue

  /** `rl` lists, without repeats, the objects of positions `lo` to `hi` that the
      pointer may lie in. */
  ghost predicate Lists(rl: seq<MemoryObject>, objects: seq<MemoryObject>, values: set<nat>, lo: int, hi: int) {
    && 0 <= lo <= hi <= |objects|
    && (forall i :: lo <= i < hi ==> (objects[i] in rl <==> MayPoint(objects[i], values)))
    && (forall m :: m in rl ==> exists i :: lo <= i < hi && objects[i] == m)
    && (forall i, j :: 0 <= i < j < |rl| ==> rl[i] != rl[j])
  }

  method CheckPointerInObject(solver: TimingSolver, values: set<nat>, mo: MemoryObject, rl: seq<MemoryObject>,
                              maxResolutions: nat)
    returns (check: Check, rl': seq<MemoryObject>)
    modifies solver
    ensures Reliable(solver) && maxResolutions <= 1 ==> !check.Incomplete?
    ensures !check.Incomplete? ==> rl' == if MayPoint(mo, values) then rl + [mo] else rl
    ensures rl' == rl || (rl' == rl + [mo] && MayPoint(mo, values))
    ensures Reliable(solver) && check.Incomplete? ==> |rl'| == maxResolutions >= 2
    ensures !check.Incomplete? ==>
      (check.Complete? <==> rl == [] && MayPoint(mo, values) && forall v :: v in values ==> InBounds(mo, v))
    ensures check.Continue? && maxResolutions != 1 && maxResolutions > |rl| ==> maxResolutions > |rl'|
  {
    rl' := rl;
    var answered, may := solver.MayBeTrue(values, (v: nat) => InBounds(mo, v));
    if !answered {
      return Incomplete, rl';
    }
    if may {
      rl' := rl + [mo];
      if |rl'| == 1 {
        var must;
        answered, must := solver.MustBeTrue(values, (v: nat) => InBounds(mo, v));
        if !answered {
          return Incomplete, rl';
        }
        if must {
          return Complete, rl';
        }
      } else if |rl'| == maxResolutions {
        return Incomplete, rl';
      }
    }
    check := Continue;
  }

  datatype Pointer = Concrete(address: nat) | Symbolic(values: set<nat>)

  ghost function Values(p: Pointer): (vs: set<nat>) {
    if p.Concrete? then {p.address} else p.values
  }

  /** The answer is exact: every object the pointer may lie in, each once, and no other. */
  ghost predicate Exact(rl: seq<MemoryObject>, objects: seq<MemoryObject>, values: set<nat>) {
    Lists(rl, objects, values, 0, |objects|)
  }

  /** Every object listed is one the pointer may lie in. */
  ghost predicate Partial(rl: seq<MemoryObject>, objects: seq<MemoryObject>, values: set<nat>) {
    forall k :: 0 <= k < |rl| ==> rl[k] in objects && MayPoint(rl[k], values)
  }

  lemma {:induction false} ListedIsPartial(rl: seq<MemoryObject>, objects: seq<MemoryObject>, values: set<nat>, lo: int, hi: int)
    requires Lists(rl, objects, values, lo, hi)
    ensures Partial(rl, objects, values)
  {
    hide MayPoint;
    forall k | 0 <= k < |rl| ensures rl[k] in objects && MayPoint(rl[k], values) {
      assert rl[k] in rl;
      var i :| lo <= i < hi && objects[i] == rl[k];
    }
  }

  lemma {:induction false} ExactIsPartial(rl: seq<MemoryObject>, objects: seq<MemoryObject>, values: set<nat>)
    requires Exact(rl, objects, values)
    ensures Partial(rl, objects, values)
  {
    hide Lists, Partial;
    ListedIsPartial(rl, objects, values, 0, |objects|);
  }

  lemma {:induction false} OneMorePartial(rl: seq<MemoryObject>, objects: seq<MemoryObject>, values: set<nat>, mo: MemoryObject, more: seq<MemoryObject>)
    requires Partial(rl, objects, values) && mo in objects
    requires more == rl || (more == rl + [mo] && MayPoint(mo, values))
    ensures Partial(more, objects, values)
  {
    hide MayPoint;
  }

  /** Widening a listed range over positions the pointer cannot lie in. */
  lemma {:induction false} Widen(rl: seq<MemoryObject>, objects: seq<MemoryObject>, values: set<nat>,
                                 lo: int, hi: int, lo': int, hi': int)
    requires Layout(objects) && Lists(rl, objects, values, lo, hi) && 0 <= lo' <= lo && hi <= hi' <= |objects|
    requires forall i :: lo' <= i < lo || hi <= i < hi' ==> !MayPoint(objects[i], values)
    ensures Lists(rl, objects, values, lo', hi')
  {
    hide MayPoint;
    forall i, j | (lo' <= i < lo || hi <= i < hi') && lo <= j < hi ensures objects[i] != objects[j] {
      assert i < j ==> objects[i].address < objects[j].address;
      assert j < i ==> objects[j].address < objects[i].address;
    }
  }

  /** Taking one more position into the listed range. */
  lemma {:induction false} Include(rl: seq<MemoryObject>, objects: seq<MemoryObject>, values: set<nat>,
                                   lo: int, hi: int, k: int)
    requires Layout(objects) && Lists(rl, objects, values, lo, hi) && 0 <= k < |objects| && (k == lo - 1 || k == hi)
    ensures Lists(if MayPoint(objects[k], values) then rl + [objects[k]] else rl, objects, values,
                  if k == hi then lo else k, if k == hi then hi + 1 else hi)
  {
    hide MayPoint;
    forall i | lo <= i < hi ensures objects[i] != objects[k] {
      assert i < k ==> objects[i].address < objects[k].address;
      assert k < i ==> objects[k].address < objects[i].address;
    }
    assert objects[k] !in rl;
  }

  lemma {:induction false} JustThis(objects: seq<MemoryObject>, values: set<nat>, k: nat)
    requires Layout(objects) && k < |objects|
    requires forall i :: 0 <= i < |objects| ==> (MayPoint(objects[i], values) <==> i == k)
    ensures Exact([objects[k]], objects, values)
  {
    hide MayPoint;
    forall i | 0 <= i < |objects| && i != k ensures objects[i] != objects[k] {
      assert i < k ==> objects[i].address < objects[k].address;
      assert k < i ==> objects[k].address < objects[i].address;
    }
  }

  /** Main theorem: an answer reported complete is exact, despite both early exits and
      the shortcut when one object holds every value. */
  method ResolvePointer(objects: seq<MemoryObject>, solver: TimingSolver, p: Pointer, maxResolutions: nat)
    returns (incomplete: bool, rl: seq<MemoryObject>)
    requires Layout(objects) && Pointers(Values(p))
    modifies solver
    ensures !incomplete ==> Exact(rl, objects, Values(p))
    ensures Partial(rl, objects, Values(p))
    ensures Reliable(solver) && maxResolutions <= 1 ==> !incomplete
    ensures Reliable(solver) && incomplete ==> |rl| == maxResolutions
    ensures maxResolutions >= 2 ==> |rl| <= maxResolutions
  {
    hide MayPoint, InBounds, Layout, Lists, Exact, Partial;
    NothingIsPartial(objects, Values(p));
    rl := [];
    if p.Concrete? {
      rl := ResolveExact(objects, p.address);
      ExactIsPartial(rl, objects, Values(p));
      return false, rl;
    }
    var values := p.values;
    var answered, example := solver.GetValue(values);
    if !answered {
      return true, rl;
    }
    var start := UpperBound(objects, example);
    NothingListed(objects, values, start);
    var oi, stop := start, false;
    while oi > 0 && !stop
      invariant 0 <= oi <= start && (maxResolutions >= 2 ==> |rl| < maxResolutions)
      invariant Lists(rl, objects, values, if stop then 0 else oi, start) && Partial(rl, objects, values)
      decreases oi, !stop
    {
      oi := oi - 1;
      var check, more := CheckPointerInObject(solver, values, objects[oi], rl, maxResolutions);
      OneMorePartial(rl, objects, values, objects[oi], more);
      if !check.Continue? {
        if check.Complete? {
          OnlyOne(objects, values, oi);
          JustThis(objects, values, oi);
          assert more == [objects[oi]];
        }
        return check.Incomplete?, more;
      }
      Include(rl, objects, values, oi + 1, start, oi);
      rl := more;
      answered, stop := solver.MustBeTrue(values, (v: nat) => v >= objects[oi].address);
      if !answered {
        return true, rl;
      }
      if stop { NoneBefore(objects, values, oi); Widen(rl, objects, values, oi, start, 0, start); }
    }
    oi, stop := start, false;
    while oi < |objects| && !stop
      invariant start <= oi <= |objects| && (maxResolutions >= 2 ==> |rl| < maxResolutions)
      invariant Lists(rl, objects, values, 0, if stop then |objects| else oi) && Partial(rl, objects, values)
      decreases |objects| - oi, !stop
    {
      answered, stop := solver.MustBeTrue(values, (v: nat) => v < objects[oi].address);
      if !answered {
        return true, rl;
      }
      if stop {
        NoneFrom(objects, values, oi);
        Widen(rl, objects, values, 0, oi, 0, |objects|);
      } else {
        var check, more := CheckPointerInObject(solver, values, objects[oi], rl, maxResolutions);
        OneMorePartial(rl, objects, values, objects[oi], more);
        if !check.Continue? {
          if check.Complete? {
            OnlyOne(objects, values, oi);
            JustThis(objects, values, oi);
            assert more == [objects[oi]];
          }
          return check.Incomplete?, more;
        }
        Include(rl, objects, values, 0, oi, oi);
        rl := more;
        oi := oi + 1;
      }
    }
    Whole(rl, objects, values);
    incomplete := false;
  }

  lemma {:induction false} NothingIsPartial(objects: seq<MemoryObject>, values: set<nat>)
    ensures Partial([], objects, values)
  { }

  lemma {:induction false} NothingListed(objects: seq<MemoryObject>, values: set<nat>, k: nat)
    requires k <= |objects|
    ensures Lists([], objects, values, k, k)
  {
  }

  lemma {:induction false} Whole(rl: seq<MemoryObject>, objects: seq<MemoryObject>, values: set<nat>)
    requires Lists(rl, objects, values, 0, |objects|)
    ensures Exact(rl, objects, values)
  {
  }

  method ResolveExact(objects: seq<MemoryObject>, p: nat) returns (rl: seq<MemoryObject>)
    requires Layout(objects) && p < SPACE
    ensures Exact(rl, objects, {p}) && |rl| <= 1
  {
    hide InBounds;
    var found, mo := ResolveConcrete(objects, p);
    if found {
      var k :| 0 <= k < |objects| && objects[k] == mo;
      OnlyOne(objects, {p}, k);
      JustThis(objects, {p}, k);
      rl := [mo];
    } else {
      rl := [];
    }
  }

  /** The documented limit is not kept for one resolution: two objects are listed. */
  lemma {:induction false} LimitOfOneIsNotKept()
    ensures var objects := [MemoryObject(0, 1), MemoryObject(8, 1)];
      && Layout(objects) && Pointers({0, 8})
      && forall rl :: Exact(rl, objects, {0, 8}) ==> |rl| > 1
  {
    var objects := [MemoryObject(0, 1), MemoryObject(8, 1)];
    assert 0 in {0, 8} && InBounds(objects[0], 0);
    assert 8 in {0, 8} && InBounds(objects[1], 8);
    forall rl | Exact(rl, objects, {0, 8}) ensures |rl| > 1 {
      assert objects[0] in rl && objects[1] in rl && objects[0] != objects[1];
    }
  }

  /** The search itself, without time-outs, on those two objects with a limit of one. */
  method ResolveBeyondLimit() returns (rl: seq<MemoryObject>)
    ensures |rl| == 2
  {
    var objects := [MemoryObject(0, 1), MemoryObject(8, 1)];
    LimitOfOneIsNotKept();
    var solver := new TimingSolver(n => false);
    var incomplete;
    incomplete, rl := ResolvePointer(objects, solver, Symbolic({0, 8}), 1);
    AtMostTwo(objects, {0, 8}, rl);
  }

  lemma {:induction false} ThreeOfTwo(three: seq<MemoryObject>, x: MemoryObject, y: MemoryObject)
    requires |three| == 3 && forall i :: 0 <= i < 3 ==> three[i] == x || three[i] == y
    ensures three[0] == three[1] || three[0] == three[2] || three[1] == three[2]
  { }

  lemma {:induction false} AtMostTwo(objects: seq<MemoryObject>, values: set<nat>, rl: seq<MemoryObject>)
    requires |objects| == 2 && Exact(rl, objects, values)
    ensures |rl| <= 2
  {
    hide MayPoint;
    forall k | 0 <= k < |rl| ensures rl[k] == objects[0] || rl[k] == objects[1] { assert rl[k] in rl; }
    if |rl| > 2 { ThreeOfTwo(rl[..3], objects[0], objects[1]); }
  }

  /** With a limit of one, a reliable solver always gives the exact answer, so the limit
      holds exactly if the pointer may lie in one object at most. */
  lemma {:induction false} LimitOfOneKept(objects: seq<MemoryObject>, values: set<nat>, rl: seq<MemoryObject>)
    requires Layout(objects) && Exact(rl, objects, values)
    ensures |rl| <= 1 <==>
      forall i, j :: 0 <= i < j < |objects| ==> !(MayPoint(objects[i], values) && MayPoint(objects[j], values))
  {
    hide MayPoint;
    forall i, j | 0 <= i < j < |objects| ensures objects[i] != objects[j] {
      assert objects[i].address < objects[j].address;
    }
    if |rl| > 1 {
      assert rl[0] in rl && rl[1] in rl && rl[0] != rl[1];
      var i :| 0 <= i < |objects| && objects[i] == rl[0];
      var j :| 0 <= j < |objects| && objects[j] == rl[1];
      assert MayPoint(objects[i], values) && MayPoint(objects[j], values);
      assert i < j || j < i;
    }
  }

  // ------------------------------------------------------------ one object

  /** Symbolic `resolveOne`: finds an object the pointer may lie in, and reports failure
      exactly when there is none. */
  method ResolveOne(objects: seq<MemoryObject>, solver: TimingSolver, p: Pointer)
    returns (answered: bool, success: bool, mo: MemoryObject)
    requires Layout(objects) && Pointers(Values(p))
    modifies solver
    ensures answered && success ==> mo in objects && MayPoint(mo, Values(p))
    ensures answered ==> (success <==> exists i :: 0 <= i < |objects| && MayPoint(objects[i], Values(p)))
    ensures Reliable(solver) ==> answered
  {
    hide InBounds, Layout, MayPoint;
    if p.Concrete? {
      forall m { PointMeans(m, {p.address}); }
      success, mo := ResolveConcrete(objects, p.address);
      return true, success, mo;
    }
    var values, example := p.values, 0;
    success, mo := false, MemoryObject(0, 0);
    answered, example := solver.GetValue(values);
    if !answered {
      return;
    }
    var start := UpperBound(objects, example);
    if start > 0 && example - objects[start - 1].address < objects[start - 1].size {
      LastBelow(objects, start - 1, example);
      PointMeans(objects[start - 1], values);
      return true, true, objects[start - 1];
    }
    var oi, stop := start, false;
    while oi > 0 && !stop
      invariant 0 <= oi <= start && answered
      invariant forall i :: (if stop then 0 else oi) <= i < start ==> !MayPoint(objects[i], values)
      decreases oi, !stop
    {
      oi := oi - 1;
      PointMeans(objects[oi], values);
      var may;
      answered, may := solver.MayBeTrue(values, (v: nat) => InBounds(objects[oi], v));
      if !answered {
        return;
      }
      if may {
        return true, true, objects[oi];
      }
      answered, stop := solver.MustBeTrue(values, (v: nat) => v >= objects[oi].address);
      if !answered {
        return;
      }
      if stop { NoneBefore(objects, values, oi); }
    }
    oi, stop := start, false;
    while oi < |objects| && !stop
      invariant start <= oi <= |objects| && answered
      invariant forall i :: 0 <= i < (if stop then |objects| else oi) ==> !MayPoint(objects[i], values)
      decreases |objects| - oi, !stop
    {
      answered, stop := solver.MustBeTrue(values, (v: nat) => v < objects[oi].address);
      if !answered {
        return;
      }
      if stop {
        NoneFrom(objects, values, oi);
      } else {
        PointMeans(objects[oi], values);
        var may;
        answered, may := solver.MayBeTrue(values, (v: nat) => InBounds(objects[oi], v));
        if !answered {
          return;
        }
        if may {
          return true, true, objects[oi];
        }
        oi := oi + 1;
      }
    }
  }

  lemma {:induction false} PointMeans(mo: MemoryObject, values: set<nat>)
    ensures MayPoint(mo, values) <==> exists v :: v in values && InBounds(mo, v)
  { }

  lemma {:induction false} LastBelow(objects: seq<MemoryObject>, k: nat, p: nat)
    requires Layout(objects) && k < |objects| && objects[k].address <= p < SPACE
    requires p - objects[k].address < objects[k].size
    ensures InBounds(objects[k], p)
  {
    InBoundsInterval(objects[k], p);
  }
}
