/** Subpath-guided scheduling: always run a state whose latest branches have been run
    least often. */
module Subpaths {
  import opened Bits

  /** Branches as pairs of instruction and direction, oldest first. */
  type Subpath = seq<(nat, nat)>

  /** The latest branches of a state, at most two to the `index` of them. */
  function Latest(taken: Subpath, index: nat): (r: Subpath) {
    var n := Pow2(index);
    if n < |taken| then taken[|taken| - n..] else taken
  }

  /** The branches are visited from the newest and pushed to the front. */
  method GetSubpath(taken: Subpath, index: nat) returns (result: Subpath)
    ensures result == Latest(taken, index)
    ensures |result| == if |taken| < Pow2(index) then |taken| else Pow2(index)
    ensures result == taken[|taken| - |result|..]
  {
    var length := Pow2(index);
    if |taken| <= length { length := |taken|; }
    result := [];
    for i := 0 to length
      invariant result == taken[|taken| - i..]
    {
      result := [taken[|taken| - 1 - i]] + result;
    }
  }

  // --------------------------------------------------------------------- fairness

  /** One selection: the subpath run, and the subpaths of the states it was chosen from. */
  datatype Pick = Pick(chosen: Subpath, pool: set<Subpath>)

  ghost function Chosen(tr: seq<Pick>): (r: seq<Subpath>)
    ensures |r| == |tr|
    ensures forall k :: 0 <= k < |tr| ==> r[k] == tr[k].chosen
  {
    seq(|tr|, k requires 0 <= k < |tr| => tr[k].chosen)
  }

  /** How often `q` was selected in the first `k` selections. */
  ghost function Past(tr: seq<Pick>, k: nat, q: Subpath): (n: nat)
    requires k <= |tr|
  {
    multiset(Chosen(tr)[..k])[q]
  }

  /** Every selection took a subpath of the pool that had been selected least often. */
  ghost predicate LeastFirst(tr: seq<Pick>) {
    forall k :: 0 <= k < |tr| ==> PickedLeast(tr, k)
  }

  ghost predicate PickedLeast(tr: seq<Pick>, k: nat)
    requires k < |tr|
  {
    tr[k].chosen in tr[k].pool && forall q :: q in tr[k].pool ==> Past(tr, k, tr[k].chosen) <= Past(tr, k, q)
  }

  /** Subpath `p` is in every pool of the selections from `i` to `j` but never selected. */
  ghost predicate Waits(tr: seq<Pick>, i: nat, j: nat, p: Subpath) {
    i <= j <= |tr| && forall k :: i <= k < j ==> p in tr[k].pool && tr[k].chosen != p
  }

  lemma {:induction false} PastStep(tr: seq<Pick>, k: nat, q: Subpath)
    requires k < |tr|
    ensures Past(tr, k + 1, q) == Past(tr, k, q) + if tr[k].chosen == q then 1 else 0
  {
    assert Chosen(tr)[..k + 1] == Chosen(tr)[..k] + [tr[k].chosen];
  }

  /** While `p` waits its count stands still, and whatever is selected instead exceeds it
      by at most one. */
  lemma {:induction false} WaitingBound(tr: seq<Pick>, i: nat, j: nat, p: Subpath)
    requires LeastFirst(tr) && Waits(tr, i, j, p)
    ensures Past(tr, j, p) == Past(tr, i, p)
    ensures forall k :: i <= k < j ==> Past(tr, j, tr[k].chosen) <= Past(tr, i, p) + 1
    decreases j
  {
    hide Past;
    if i >= j {
    } else {
      WaitingBound(tr, i, j - 1, p);
      PastStep(tr, j - 1, p);
      assert PickedLeast(tr, j - 1);
      forall k | i <= k < j ensures Past(tr, j, tr[k].chosen) <= Past(tr, i, p) + 1 {
        PastStep(tr, j - 1, tr[k].chosen);
      }
    }
  }

  /** Values of a set, none of them more than `m` times. */
  lemma {:induction false} Pigeonhole(xs: multiset<Subpath>, s: set<Subpath>, m: nat)
    requires forall x :: x in xs ==> x in s
    requires forall x :: x in s ==> xs[x] <= m
    ensures |xs| <= m * |s|
    decreases |s|
  {
    if s == {} {
      assert xs == multiset{};
    } else {
      var x :| x in s;
      var rest := xs[x := 0];
      assert |rest| == |xs| - xs[x];
      Pigeonhole(rest, s - {x}, m);
      assert m * |s| == m * |s - {x}| + m;
    }
  }

  ghost function Others(tr: seq<Pick>, i: nat, j: nat): (s: set<Subpath>)
    requires i <= j <= |tr|
  {
    set k | i <= k < j :: tr[k].chosen
  }

  /** Selections between `i` and `j` are those up to `j` less those up to `i`. */
  lemma {:induction false} WindowCount(tr: seq<Pick>, i: nat, j: nat, x: Subpath)
    requires i <= j <= |tr|
    ensures multiset(Chosen(tr)[i..j])[x] == Past(tr, j, x) - Past(tr, i, x)
  {
    assert Chosen(tr)[..j] == Chosen(tr)[..i] + Chosen(tr)[i..j];
  }

  lemma {:induction false} WindowMember(tr: seq<Pick>, i: nat, j: nat, x: Subpath)
    requires i <= j <= |tr| && x in multiset(Chosen(tr)[i..j])
    ensures x in Others(tr, i, j)
  {
    var xs := Chosen(tr)[i..j];
    assert x in xs;
    var k :| 0 <= k < |xs| && xs[k] == x;
    assert tr[i + k].chosen == x;
  }

  /** Main theorem: a subpath that stays in the pool and has been selected `c` times is
      passed over at most `c + 1` times for each other subpath selected meanwhile. */
  lemma {:induction false} Fairness(tr: seq<Pick>, i: nat, j: nat, p: Subpath)
    requires LeastFirst(tr) && Waits(tr, i, j, p)
    ensures j - i <= (Past(tr, i, p) + 1) * |Others(tr, i, j)|
  {
    hide LeastFirst, Past;
    WaitingBound(tr, i, j, p);
    hide Waits;
    var xs := multiset(Chosen(tr)[i..j]);
    var s, m := Others(tr, i, j), Past(tr, i, p) + 1;
    forall x | x in xs ensures x in s { WindowMember(tr, i, j, x); }
    forall x | x in s ensures xs[x] <= m {
      var k :| i <= k < j && tr[k].chosen == x;
      WindowCount(tr, i, j, x);
    }
    hide Others;
    Pigeonhole(xs, s, m);
  }

  // ------------------------------------------------------------------ the searcher

  function Count(counts: map<Subpath, nat>, q: Subpath): (n: nat) {
    if q in counts then counts[q] else 0
  }

  ghost predicate Counted(counts: map<Subpath, nat>, tr: seq<Pick>) {
    forall q :: Count(counts, q) == Past(tr, |tr|, q)
  }

  /** One more selection. */
  lemma {:induction false} TraceExtends(counts: map<Subpath, nat>, tr: seq<Pick>, pick: Pick)
    requires LeastFirst(tr) && Counted(counts, tr) && pick.chosen in pick.pool
    requires forall q :: q in pick.pool ==> Count(counts, pick.chosen) <= Count(counts, q)
    ensures LeastFirst(tr + [pick])
    ensures Counted(counts[pick.chosen := Count(counts, pick.chosen) + 1], tr + [pick])
  {
    var r := tr + [pick];
    forall k, q | 0 <= k <= |tr| ensures Past(r, k, q) == Past(tr, k, q) {
      assert Chosen(r)[..k] == Chosen(tr)[..k];
    }
    forall q ensures Past(r, |r|, q) == Past(tr, |tr|, q) + if pick.chosen == q then 1 else 0 {
      PastStep(r, |tr|, q);
    }
    hide Past;
    forall k | 0 <= k < |r| ensures PickedLeast(r, k) {
      if k < |tr| { assert PickedLeast(tr, k); }
    }
  }

  ghost function Pool(states: seq<int>, taken: map<int, Subpath>, index: nat): (r: set<Subpath>)
    requires Known(states, taken)
  {
    set k | 0 <= k < |states| :: Latest(taken[states[k]], index)
  }

  predicate Known(states: seq<int>, taken: map<int, Subpath>) {
    forall k :: 0 <= k < |states| ==> states[k] in taken
  }

  lemma {:induction false} RemoveOne(all: multiset<int>, removed: set<int>, x: int)
    requires x !in removed && x in all
    ensures x in all - multiset(removed)
    ensures all - multiset(removed) - multiset{x} == all - multiset(removed + {x})
  { }

  /** The subpath of state `i` has the smallest count of all. */
  ghost predicate LeastAt(states: seq<int>, taken: map<int, Subpath>, index: nat, counts: map<Subpath, nat>, i: nat)
    requires Known(states, taken) && i < |states|
  {
    forall k :: 0 <= k < |states| ==> Count(counts, Latest(taken[states[i]], index)) <= Count(counts, Latest(taken[states[k]], index))
  }

  class SubpathGuidedSearcher {
    const index: nat
    var states: seq<int>
    var subpathCounts: map<Subpath, nat>
    ghost var trace: seq<Pick>

    /** Counts are exactly the past selections, each of which took a least one. */
    ghost predicate Valid()
      reads this
    {
      LeastFirst(trace) && Counted(subpathCounts, trace)
    }

    constructor (index: nat)
      ensures Valid() && trace == [] && states == [] && this.index == index
    {
      this.index := index;
      states, subpathCounts, trace := [], map[], [];
    }

    method IncSubpath(q: Subpath)
      modifies this`subpathCounts
      ensures subpathCounts == old(subpathCounts)[q := Count(old(subpathCounts), q) + 1]
    {
      if q !in subpathCounts {
        subpathCounts := subpathCounts[q := 1];
      } else {
        subpathCounts := subpathCounts[q := subpathCounts[q] + 1];
      }
    }

    /** The states whose subpath has the smallest count. */
    method Candidates(taken: map<int, Subpath>) returns (selectSet: seq<int>)
      requires states != [] && Known(states, taken)
      ensures selectSet != []
      ensures forall s :: s in selectSet ==> s in states
      ensures forall i :: 0 <= i < |states| ==> (states[i] in selectSet <==> LeastAt(states, taken, index, subpathCounts, i))
    {
      hide Latest, Count;
      var minCount := 0;
      selectSet := [];
      for i := 0 to |states|
        invariant i > 0 ==> selectSet != []
        invariant forall s :: s in selectSet ==> s in states && s in taken && Count(subpathCounts, Latest(taken[s], index)) == minCount
        invariant forall k :: 0 <= k < i && states[k] !in selectSet ==> minCount < Count(subpathCounts, Latest(taken[states[k]], index))
        invariant selectSet != [] ==> forall k :: 0 <= k < i ==> minCount <= Count(subpathCounts, Latest(taken[states[k]], index))
      {
        var q := GetSubpath(taken[states[i]], index);
        var curr := Count(subpathCounts, q);
        if selectSet == [] || curr < minCount {
          selectSet := [];
          minCount := curr;
        }
        if curr == minCount {
          selectSet := selectSet + [states[i]];
        }
      }
      assert selectSet[0] in selectSet;
      var least :| 0 <= least < |states| && states[least] == selectSet[0];
      assert Count(subpathCounts, Latest(taken[states[least]], index)) == minCount;
      forall i | 0 <= i < |states|
        ensures states[i] in selectSet <==> LeastAt(states, taken, index, subpathCounts, i)
      {
        var s := states[i];
        if LeastAt(states, taken, index, subpathCounts, i) {
          assert Count(subpathCounts, Latest(taken[s], index)) <= Count(subpathCounts, Latest(taken[states[least]], index));
        }
        if s in selectSet {
          assert Count(subpathCounts, Latest(taken[s], index)) == minCount;
        }
      }
    }

    /** `taken` are the branches each state has taken by now. */
    method SelectState(taken: map<int, Subpath>, random: nat) returns (selection: int)
      requires Valid() && states != [] && Known(states, taken)
      modifies this`subpathCounts, this`trace
      ensures Valid() && selection in states && selection in taken
      ensures trace == old(trace) + [Pick(Latest(taken[selection], index), Pool(states, taken, index))]
    {
      var selectSet := Candidates(taken);
      selection := selectSet[random % |selectSet|];
      assert selection in selectSet;
      ghost var at :| 0 <= at < |states| && states[at] == selection;
      assert LeastAt(states, taken, index, subpathCounts, at);
      var q := GetSubpath(taken[selection], index);
      hide Latest, Count, LeastFirst, Counted;
      TraceExtends(subpathCounts, trace, Pick(q, Pool(states, taken, index)));
      IncSubpath(q);
      trace := trace + [Pick(q, Pool(states, taken, index))];
    }

    /** New states join at the end; each removed state leaves once, however often it is
        listed. */
    method Update(added: seq<int>, removedStates: seq<int>)
      requires forall s :: s in removedStates ==> s in states || s in added
      modifies this`states
      ensures multiset(states) == multiset(old(states)) + multiset(added) - multiset(set s | s in removedStates)
    {
      ghost var all := multiset(states) + multiset(added);
      states := states + added;
      var removed: set<int> := {};
      for i := 0 to |removedStates|
        invariant removed == set s | s in removedStates[..i]
        invariant multiset(states) == all - multiset(removed)
      {
        var es := removedStates[i];
        assert es in removedStates;
        assert removedStates[..i + 1] == removedStates[..i] + [es];
        if es !in removed {
          assert es in all;
          RemoveOne(all, removed, es);
          states := EraseFirst(states, es);
          removed := removed + {es};
        }
      }
      assert removedStates[..|removedStates|] == removedStates;
    }
  }

  method EraseFirst(xs: seq<int>, x: int) returns (r: seq<int>)
    requires x in xs
    ensures multiset(r) == multiset(xs) - multiset{x}
  {
    var k := 0;
    while xs[k] != x
      invariant 0 <= k < |xs| && x !in xs[..k]
      decreases |xs| - k
    {
      assert xs[..k + 1] == xs[..k] + [xs[k]];
      k := k + 1;
    }
    r := xs[..k] + xs[k + 1..];
    assert xs == xs[..k] + [xs[k]] + xs[k + 1..];
  }
}
