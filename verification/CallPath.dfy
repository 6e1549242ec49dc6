/** The tree of call paths, in which a recursive call leads back to the node of the
    outer call, and the summary statistics collected over it. */
module CallPaths {

  /** A call site together with the function called there. */
  datatype Key = Key(callSite: int, callee: int)

  /** Node 0 is the root; a node's parent was created before it. A child link leads to a
      node of the next level or back to the node itself or an ancestor. */
  datatype Node = Node(parent: int, key: Key, children: map<Key, int>, statistics: int, summary: int, count: int)

  ghost predicate Tree(ns: seq<Node>) {
    && |ns| > 0
    && forall m :: 0 < m < |ns| ==> 0 <= ns[m].parent < m
  }

  /** Node `n` is `m` or an ancestor of it. */
  predicate Above(ns: seq<Node>, n: int, m: int)
    decreases m
  {
    m == n || (0 < m < |ns| && 0 <= ns[m].parent < m && Above(ns, n, ns[m].parent))
  }

  /** Some node other than the root, at or above `m`, has key `k`. */
  predicate KeyAbove(ns: seq<Node>, m: int, k: Key)
    decreases m
  {
    0 < m < |ns| && (ns[m].key == k || (0 <= ns[m].parent < m && KeyAbove(ns, ns[m].parent, k)))
  }

  ghost predicate NoRepeats(ns: seq<Node>) {
    forall m :: 0 < m < |ns| ==> !KeyAbove(ns, ns[m].parent, ns[m].key)
  }

  /** Child links lead to a node with the right key, one level below or not below at all. */
  ghost predicate GoodLink(ns: seq<Node>, n: int, k: Key)
    requires 0 <= n < |ns| && k in ns[n].children
  {
    var c := ns[n].children[k];
    0 <= c < |ns| && ns[c].key == k && (c == 0 || ns[c].parent == n || Above(ns, c, n))
  }

  ghost predicate Inv(ns: seq<Node>) {
    && Tree(ns) && NoRepeats(ns)
    && (forall n, k :: 0 <= n < |ns| && k in ns[n].children ==> GoodLink(ns, n, k))
    && (forall m :: 0 < m < |ns| ==> Registered(ns, m))
  }

  /** The parent of node `m` finds it under its key. */
  ghost predicate Registered(ns: seq<Node>, m: int)
    requires 0 < m < |ns|
  {
    var p := ns[m].parent;
    0 <= p < |ns| && ns[m].key in ns[p].children && ns[p].children[ns[m].key] == m
  }

  // -------------------------------------------------------------- the tree only grows

  /** `b` extends `a`: old nodes keep their parents and keys. */
  ghost predicate Extends(a: seq<Node>, b: seq<Node>) {
    |a| <= |b| && forall m :: 0 <= m < |a| ==> b[m].parent == a[m].parent && b[m].key == a[m].key
  }

  lemma {:induction false} AboveSame(a: seq<Node>, b: seq<Node>, n: int, m: int)
    requires Extends(a, b) && m < |a|
    ensures Above(b, n, m) <==> Above(a, n, m)
    decreases m
  {
    if 0 < m && 0 <= a[m].parent < m { AboveSame(a, b, n, a[m].parent); }
  }

  lemma {:induction false} KeySame(a: seq<Node>, b: seq<Node>, m: int, k: Key)
    requires Extends(a, b) && m < |a|
    ensures KeyAbove(b, m, k) <==> KeyAbove(a, m, k)
    decreases m
  {
    if 0 < m && 0 <= a[m].parent < m { KeySame(a, b, a[m].parent, k); }
  }

  // ------------------------------------------------------------------------- lookups

  class CallPathManager {
    var nodes: seq<Node>

    constructor ()
      ensures Inv(nodes) && nodes == [Node(-1, Key(-1, -1), map[], 0, 0, 0)]
    {
      nodes := [Node(-1, Key(-1, -1), map[], 0, 0, 0)];
    }

    /** The nearest node at or above `parent` with the key, or else a new node. */
    method ComputeCallPath(parent: int, k: Key) returns (p: int)
      requires Inv(nodes) && 0 <= parent < |nodes|
      modifies this
      ensures 0 <= p < |nodes| && nodes[p].key == k
      ensures nodes == old(nodes) || (p == |old(nodes)| && nodes == old(nodes) + [Node(parent, k, map[], 0, 0, 0)])
      ensures nodes == old(nodes) ==> Above(nodes, p, parent)
      ensures nodes != old(nodes) ==> !KeyAbove(old(nodes), parent, k)
    {
      p := parent;
      while p != -1
        invariant nodes == old(nodes) && -1 <= p < |nodes|
        invariant p != -1 ==> Above(nodes, p, parent)
        invariant KeyAbove(nodes, parent, k) ==> KeyAbove(nodes, p, k)
        decreases p
      {
        if nodes[p].key == k { return; }
        AboveStep(nodes, p, parent);
        p := if p == 0 then -1 else nodes[p].parent;
      }
      p := |nodes|;
      nodes := nodes + [Node(parent, k, map[], 0, 0, 0)];
    }

    /** The node for calling `k` from `parent`; the same call finds the same node again. */
    method GetCallPath(parent: int, k: Key) returns (c: int)
      requires Inv(nodes) && 0 <= parent < |nodes|
      modifies this
      ensures Inv(nodes) && Extends(old(nodes), nodes)
      ensures 0 <= c < |nodes| && nodes[c].key == k && (Above(nodes, c, parent) || nodes[c].parent == parent)
      ensures k in nodes[parent].children && nodes[parent].children[k] == c
      ensures k in old(nodes)[parent].children ==> nodes == old(nodes)
      ensures forall m :: 0 <= m < |old(nodes)| ==> nodes[m].statistics == old(nodes)[m].statistics && nodes[m].count == old(nodes)[m].count
    {
      if k in nodes[parent].children {
        c := nodes[parent].children[k];
        assert GoodLink(nodes, parent, k);
        if c == 0 { RootAbove(nodes, parent); }
      } else {
        ghost var a := nodes;
        c := ComputeCallPath(parent, k);
        nodes := nodes[parent := nodes[parent].(children := nodes[parent].children[k := c])];
        assert Linked(a, nodes, parent, k, c);
        LinkKeeps(a, nodes, parent, k, c);
        AboveSame(a, nodes, c, parent);
      }
    }

    /** Main theorem: afterwards every node but the root has the sum over its subtree, and
        the entry of a key counts each node at or below a node with that key once. The
        root's summary is never reset, so it adds to what it had. */
    method GetSummaryStatistics() returns (results: map<Key, CallSiteInfo>)
      requires Inv(nodes)
      modifies this
      ensures Inv(nodes) && SameButSummaries(old(nodes), nodes)
      ensures forall n :: 0 < n < |nodes| ==> nodes[n].summary == BelowSum(old(nodes), n, |nodes|)
      ensures nodes[0].summary == old(nodes)[0].summary + BelowSum(old(nodes), 0, |nodes|)
      ensures forall k :: Info(results, k) == CallSiteInfo(EntryCount(old(nodes), k, 1), KeySum(old(nodes), k, |nodes|))
    {
      results := map[];
      ghost var ns := nodes;
      ResetSummaries();
      StartVisit(ns, nodes);
      var i := |nodes| - 1;
      hide PartSum, EntrySum, EntryCount, Visited, NoRepeats, Registered, GoodLink;
      while i > 0
        invariant 0 <= i < |nodes| && SameButSummaries(ns, nodes) && Visited(ns, nodes, results, i)
      {
        assert ns[i].(summary := 0) == nodes[i].(summary := 0);
        ghost var cur, table := nodes, results;
        var p := nodes[i].parent;
        nodes := nodes[p := nodes[p].(summary := nodes[p].summary + nodes[i].summary)];
        var c := nodes[i];
        results := results[c.key := CallSiteInfo(Info(results, c.key).count + c.count, Info(results, c.key).statistics + c.summary)];
        VisitOne(ns, cur, table, i, nodes, results);
        i := i - 1;
      }
      EndVisit(ns, nodes, results);
      SummariesKeepInv(ns, nodes);
    }

    method ResetSummaries()
      requires |nodes| > 0
      modifies this
      ensures SameButSummaries(old(nodes), nodes) && nodes[0] == old(nodes)[0]
      ensures forall m :: 0 < m < |nodes| ==> nodes[m].summary == nodes[m].statistics
    {
      for j := 1 to |nodes|
        invariant SameButSummaries(old(nodes), nodes) && nodes[0] == old(nodes)[0]
        invariant forall m :: 0 < m < j ==> nodes[m].summary == nodes[m].statistics
      {
        nodes := nodes[j := nodes[j].(summary := nodes[j].statistics)];
      }
    }
  }

  lemma {:induction false} RootAbove(ns: seq<Node>, m: int)
    requires Tree(ns) && 0 <= m < |ns|
    ensures Above(ns, 0, m)
    decreases m
  {
    if m == 0 {
    } else {
      RootAbove(ns, ns[m].parent);
    }
  }

  lemma {:induction false} LinkNoRepeats(a: seq<Node>, r: seq<Node>, parent: int, k: Key)
    requires Tree(a) && NoRepeats(a) && Extends(a, r) && |r| <= |a| + 1 && 0 <= parent < |a|
    requires |r| == |a| + 1 ==> r[|a|].parent == parent && r[|a|].key == k && !KeyAbove(a, parent, k)
    ensures Tree(r) && NoRepeats(r)
  {
    forall m | 0 < m < |r| ensures !KeyAbove(r, r[m].parent, r[m].key) {
      if m < |a| { KeySame(a, r, a[m].parent, a[m].key); } else { KeySame(a, r, parent, k); }
    }
  }

  /** `r` is `a` with a new child link at `parent`, and perhaps the new node it leads to. */
  ghost predicate Linked(a: seq<Node>, r: seq<Node>, parent: int, k: Key, c: int) {
    && Extends(a, r) && 0 <= parent < |a| && k !in a[parent].children && 0 <= c < |r| && r[c].key == k
    && (forall n :: 0 <= n < |a| && n != parent ==> r[n].children == a[n].children)
    && r[parent].children == a[parent].children[k := c]
    && ((|r| == |a| && Above(a, c, parent))
        || (|r| == |a| + 1 && c == |a| && r[c].parent == parent && r[c].children == map[] && !KeyAbove(a, parent, k)))
  }

  lemma {:induction false} LinkGood(a: seq<Node>, r: seq<Node>, parent: int, k: Key, c: int, n: int, q: Key)
    requires Inv(a) && Linked(a, r, parent, k, c) && 0 <= n < |r| && q in r[n].children
    ensures GoodLink(r, n, q)
  {
    assert n < |a|;
    if q in a[n].children {
      assert GoodLink(a, n, q);
      AboveSame(a, r, a[n].children[q], n);
    } else {
      AboveSame(a, r, c, parent);
    }
  }

  lemma {:induction false} LinkKeeps(a: seq<Node>, r: seq<Node>, parent: int, k: Key, c: int)
    requires Inv(a) && Linked(a, r, parent, k, c)
    ensures Inv(r)
  {
    LinkNoRepeats(a, r, parent, k);
    forall n, q | 0 <= n < |r| && q in r[n].children ensures GoodLink(r, n, q) { LinkGood(a, r, parent, k, c, n, q); }
    hide NoRepeats, KeyAbove, Above, GoodLink;
    forall m | 0 < m < |r| ensures Registered(r, m) {
      if m < |a| { assert Registered(a, m); }
    }
  }

  lemma {:induction false} AboveStep(ns: seq<Node>, p: int, m: int)
    requires Tree(ns) && 0 <= p < |ns| && m < |ns| && Above(ns, p, m)
    ensures p > 0 ==> Above(ns, ns[p].parent, m)
    decreases m
  {
    if p == m {
    } else {
      AboveStep(ns, p, ns[m].parent);
    }
  }

  // ------------------------------------------------------------------------ summaries

  /** Walking up from `m` over nodes newer than `i` arrives at `n`. */
  predicate Pushed(ns: seq<Node>, n: int, m: int, i: int)
    decreases m
  {
    m == n || (i < m && 0 < m < |ns| && 0 <= ns[m].parent < m && Pushed(ns, n, ns[m].parent, i))
  }

  lemma {:induction false} PushedAll(ns: seq<Node>, n: int, m: int, i: int)
    requires 0 <= i <= n
    ensures Pushed(ns, n, m, i) <==> Above(ns, n, m)
    decreases m
  {
    if m < n { OnlyUp(ns, n, m); }
    if 0 < m < |ns| && 0 <= ns[m].parent < m { PushedAll(ns, n, ns[m].parent, i); }
  }

  lemma {:induction false} OnlyUp(ns: seq<Node>, n: int, m: int)
    requires m < n
    ensures !Above(ns, n, m)
    decreases m
  {
    if 0 < m < |ns| && 0 <= ns[m].parent < m { OnlyUp(ns, n, ns[m].parent); }
  }

  /** Once node `i` is added to its parent, the walk may also pass through `i`. */
  lemma {:induction false} PushedStep(ns: seq<Node>, n: int, m: int, i: int)
    requires Tree(ns) && 0 < i < |ns| && 0 <= m
    ensures Pushed(ns, n, m, i - 1) <==> Pushed(ns, n, m, i) || (n == ns[i].parent && Pushed(ns, i, m, i))
    ensures !(n == ns[i].parent && Pushed(ns, n, m, i) && Pushed(ns, i, m, i))
    decreases m
  {
    if 0 < m < |ns| { PushedStep(ns, n, ns[m].parent, i); }
  }

  /** Statistics of the nodes before `bound` that have been added up at `n`. */
  ghost function PartSum(ns: seq<Node>, n: int, i: int, bound: nat): (s: int)
    requires bound <= |ns|
  {
    if bound <= 1 then 0
    else PartSum(ns, n, i, bound - 1) + if Pushed(ns, n, bound - 1, i) then ns[bound - 1].statistics else 0
  }

  lemma {:induction false} PartSumStep(ns: seq<Node>, n: int, i: int, bound: nat)
    requires Tree(ns) && 0 < i < |ns| && bound <= |ns|
    ensures PartSum(ns, n, i - 1, bound) == PartSum(ns, n, i, bound) + if n == ns[i].parent then PartSum(ns, i, i, bound) else 0
    decreases bound
  {
    if bound <= 1 {
    } else {
      PartSumStep(ns, n, i, bound - 1);
      PushedStep(ns, n, bound - 1, i);
      hide Pushed;
    }
  }

  /** Before the first step every node has its own statistics only. */
  lemma {:induction false} PartSumStart(ns: seq<Node>, n: int, bound: nat)
    requires Tree(ns) && bound <= |ns|
    ensures PartSum(ns, n, |ns| - 1, bound) == if 0 < n < bound then ns[n].statistics else 0
    decreases bound
  {
    if bound <= 1 {
    } else {
      PartSumStart(ns, n, bound - 1);
    }
  }

  /** The specification: the statistics of all nodes at or below `n`. */
  ghost function BelowSum(ns: seq<Node>, n: int, bound: nat): (s: int)
    requires bound <= |ns|
  {
    if bound <= 1 then 0
    else BelowSum(ns, n, bound - 1) + if Above(ns, n, bound - 1) then ns[bound - 1].statistics else 0
  }

  lemma {:induction false} PartSumDone(ns: seq<Node>, n: int, i: int, bound: nat)
    requires 0 <= i <= n && bound <= |ns|
    ensures PartSum(ns, n, i, bound) == BelowSum(ns, n, bound)
    decreases bound
  {
    if bound <= 1 {
    } else {
      PartSumDone(ns, n, i, bound - 1);
      PushedAll(ns, n, bound - 1, i);
      hide Pushed, Above;
    }
  }

  // ------------------------------------------------------------------------ the table

  /** What the nodes from `from` on contribute to the entry for `k`. */
  ghost function EntrySum(ns: seq<Node>, k: Key, from: nat, bound: nat): (s: int)
    requires bound <= |ns|
    decreases |ns| - from
  {
    if from >= |ns| then 0
    else EntrySum(ns, k, from + 1, bound) + if ns[from].key == k then BelowSum(ns, from, bound) else 0
  }

  ghost function EntryCount(ns: seq<Node>, k: Key, from: nat): (s: int)
    decreases |ns| - from
  {
    if from >= |ns| then 0 else EntryCount(ns, k, from + 1) + if ns[from].key == k then ns[from].count else 0
  }

  /** The specification: the statistics of all nodes at or below one with key `k`, each
      counted once. */
  ghost function KeySum(ns: seq<Node>, k: Key, bound: nat): (s: int)
    requires bound <= |ns|
  {
    if bound <= 1 then 0
    else KeySum(ns, k, bound - 1) + if KeyAbove(ns, bound - 1, k) then ns[bound - 1].statistics else 0
  }

  /** How many nodes from `from` on, with key `k`, are at or above `m`. */
  ghost function Hits(ns: seq<Node>, k: Key, from: nat, m: int): (h: nat)
    decreases |ns| - from
  {
    if from >= |ns| then 0
    else Hits(ns, k, from + 1, m) + if ns[from].key == k && Above(ns, from, m) then 1 else 0
  }

  lemma {:induction false} EntrySumGrows(ns: seq<Node>, k: Key, from: nat, bound: nat)
    requires 1 <= bound < |ns|
    ensures EntrySum(ns, k, from, bound + 1) == EntrySum(ns, k, from, bound) + Hits(ns, k, from, bound) * ns[bound].statistics
    decreases |ns| - from
  {
    if from >= |ns| {
    } else {
      EntrySumGrows(ns, k, from + 1, bound);
      hide Above;
    }
  }

  lemma {:induction false} HitsNone(ns: seq<Node>, k: Key, from: nat, m: int)
    requires m < from
    ensures Hits(ns, k, from, m) == 0
    decreases |ns| - from
  {
    if from >= |ns| {
    } else {
      HitsNone(ns, k, from + 1, m);
      OnlyUp(ns, from, m);
    }
  }

  lemma {:induction false} HitsStep(ns: seq<Node>, k: Key, from: nat, m: int)
    requires Tree(ns) && 0 < from <= m < |ns|
    ensures Hits(ns, k, from, m) == Hits(ns, k, from, ns[m].parent) + if ns[m].key == k then 1 else 0
    decreases |ns| - from
  {
    var p := ns[m].parent;
    OnlyUp(ns, m, p);
    if from < m {
      HitsStep(ns, k, from + 1, m);
    } else {
      HitsNone(ns, k, from + 1, m);
      HitsNone(ns, k, from + 1, p);
    }
  }

  /** On any path from the root a key appears at most once. */
  lemma {:induction false} HitsOnce(ns: seq<Node>, k: Key, m: int)
    requires Tree(ns) && NoRepeats(ns) && 0 <= m < |ns|
    ensures Hits(ns, k, 1, m) == if KeyAbove(ns, m, k) then 1 else 0
    decreases m
  {
    if m == 0 {
      HitsNone(ns, k, 1, 0);
    } else {
      HitsStep(ns, k, 1, m);
      HitsOnce(ns, k, ns[m].parent);
    }
  }

  lemma {:induction false} EntryStarts(ns: seq<Node>, k: Key, from: nat)
    requires |ns| > 0
    ensures EntrySum(ns, k, from, 1) == 0
    decreases |ns| - from
  {
    if from < |ns| { EntryStarts(ns, k, from + 1); }
  }

  /** Main theorem: summing subtree sums over the nodes with a key counts each node at or
      below such a node exactly once. */
  lemma {:induction false} EntryCountsOnce(ns: seq<Node>, k: Key, bound: nat)
    requires Tree(ns) && NoRepeats(ns) && 1 <= bound <= |ns|
    ensures EntrySum(ns, k, 1, bound) == KeySum(ns, k, bound)
    decreases bound
  {
    if bound == 1 {
      EntryStarts(ns, k, 1);
    } else {
      EntryCountsOnce(ns, k, bound - 1);
      EntrySumGrows(ns, k, 1, bound - 1);
      HitsOnce(ns, k, bound - 1);
      hide Hits, EntrySum, KeyAbove;
    }
  }

  // --------------------------------------------------------------- the bottom-up pass

  datatype CallSiteInfo = CallSiteInfo(count: int, statistics: int)

  function Info(table: map<Key, CallSiteInfo>, k: Key): (r: CallSiteInfo) {
    if k in table then table[k] else CallSiteInfo(0, 0)
  }

  /** `ns` with other summaries. */
  ghost predicate SameButSummaries(a: seq<Node>, b: seq<Node>) {
    |a| == |b| && forall m :: 0 <= m < |a| ==> b[m].(summary := 0) == a[m].(summary := 0)
  }

  /** Summaries and table once the nodes after `i` have been visited. */
  ghost predicate Visited(ns: seq<Node>, cur: seq<Node>, table: map<Key, CallSiteInfo>, i: int) {
    && SameButSummaries(ns, cur) && 0 <= i < |ns|
    && (forall n :: 0 <= n < |ns| ==> cur[n].summary == PartSum(ns, n, i, |ns|) + if n == 0 then ns[0].summary else 0)
    && (forall k :: Info(table, k) == CallSiteInfo(EntryCount(ns, k, i + 1), EntrySum(ns, k, i + 1, |ns|)))
  }

  lemma {:induction false} VisitOne(ns: seq<Node>, cur: seq<Node>, table: map<Key, CallSiteInfo>, i: int, cur': seq<Node>, table': map<Key, CallSiteInfo>)
    requires Tree(ns) && Visited(ns, cur, table, i) && i > 0
    requires var p := cur[i].parent;
             0 <= p < i && cur' == cur[p := cur[p].(summary := cur[p].summary + cur[i].summary)]
    requires var c := cur'[i];
             table' == table[c.key := CallSiteInfo(Info(table, c.key).count + c.count, Info(table, c.key).statistics + c.summary)]
    ensures Visited(ns, cur', table', i - 1)
  {
    assert ns[i].(summary := 0) == cur[i].(summary := 0) == cur'[i].(summary := 0);
    assert SameButSummaries(ns, cur');
    forall n | 0 <= n < |ns|
      ensures cur'[n].summary == PartSum(ns, n, i - 1, |ns|) + if n == 0 then ns[0].summary else 0
    {
      PartSumStep(ns, n, i, |ns|);
    }
    PartSumDone(ns, i, i, |ns|);
    hide PartSum, BelowSum;
    forall k ensures Info(table', k) == CallSiteInfo(EntryCount(ns, k, i), EntrySum(ns, k, i, |ns|)) {
      assert Info(table, k) == CallSiteInfo(EntryCount(ns, k, i + 1), EntrySum(ns, k, i + 1, |ns|));
    }
  }

  lemma {:induction false} StartVisit(ns: seq<Node>, cur: seq<Node>)
    requires Tree(ns) && SameButSummaries(ns, cur) && cur[0] == ns[0]
    requires forall m :: 0 < m < |cur| ==> cur[m].summary == cur[m].statistics
    ensures Visited(ns, cur, map[], |ns| - 1)
  {
    forall n | 0 <= n < |ns|
      ensures cur[n].summary == PartSum(ns, n, |ns| - 1, |ns|) + if n == 0 then ns[0].summary else 0
    {
      PartSumStart(ns, n, |ns|);
      assert ns[n].(summary := 0) == cur[n].(summary := 0);
    }
  }

  lemma {:induction false} EndVisit(ns: seq<Node>, cur: seq<Node>, table: map<Key, CallSiteInfo>)
    requires Tree(ns) && NoRepeats(ns) && Visited(ns, cur, table, 0)
    ensures forall n :: 0 <= n < |ns| ==> cur[n].summary == BelowSum(ns, n, |ns|) + if n == 0 then ns[0].summary else 0
    ensures forall k :: Info(table, k) == CallSiteInfo(EntryCount(ns, k, 1), KeySum(ns, k, |ns|))
  {
    forall n | 0 <= n < |ns| ensures PartSum(ns, n, 0, |ns|) == BelowSum(ns, n, |ns|) { PartSumDone(ns, n, 0, |ns|); }
    forall k ensures EntrySum(ns, k, 1, |ns|) == KeySum(ns, k, |ns|) { EntryCountsOnce(ns, k, |ns|); }
  }

  lemma {:induction false} SummariesKeepInv(a: seq<Node>, b: seq<Node>)
    requires Inv(a) && SameButSummaries(a, b)
    ensures Inv(b)
  {
    assert Extends(a, b);
    forall m | 0 <= m < |a| ensures b[m].children == a[m].children { assert b[m].(summary := 0) == a[m].(summary := 0); }
    forall m | 0 < m < |b| ensures !KeyAbove(b, b[m].parent, b[m].key) && Registered(b, m) {
      KeySame(a, b, a[m].parent, a[m].key);
      assert Registered(a, m);
    }
    hide KeyAbove, Registered;
    forall n, k | 0 <= n < |b| && k in b[n].children ensures GoodLink(b, n, k) {
      assert GoodLink(a, n, k);
      AboveSame(a, b, a[n].children[k], n);
    }
  }
}
