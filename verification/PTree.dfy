/** The process tree: a binary tree whose leaves are the live states. Nodes are linked
    both ways; -1 stands for a null pointer, and node 0 is the root. */
module PTrees {
  import opened Bits
  import Operators

  datatype Node = Node(parent: int, left: int, right: int, state: int)

  /** A state keeps its node, its depth and its share of the search. */
  datatype State = State(live: bool, node: int, depth: nat, weight: real)

  datatype World = World(nodes: map<int, Node>, states: seq<State>, next: int)

  predicate Childless(n: Node) { n.left == -1 && n.right == -1 }

  // ------------------------------------------------------------------ invariants

  predicate LinkedUp(w: World, n: int)
    requires n in w.nodes
  {
    var p := w.nodes[n].parent;
    && 0 <= n < w.next
    && (n == 0 <==> p == -1)
    && (n != 0 ==> 0 <= p < n && p in w.nodes && (w.nodes[p].left == n || w.nodes[p].right == n))
  }

  predicate LinkedDown(w: World, n: int)
    requires n in w.nodes
  {
    var x := w.nodes[n];
    && (x.left != -1 ==> x.left in w.nodes && w.nodes[x.left].parent == n && x.left != x.right)
    && (x.right != -1 ==> x.right in w.nodes && w.nodes[x.right].parent == n)
  }

  /** A node with a state is the leaf that state points back to. */
  predicate Owns(w: World, n: int)
    requires n in w.nodes
  {
    var s := w.nodes[n].state;
    s != -1 ==> 0 <= s < |w.states| && w.states[s].live && w.states[s].node == n && Childless(w.nodes[n])
  }

  predicate Placed(w: World, s: int)
    requires 0 <= s < |w.states|
  {
    w.states[s].live ==> w.states[s].node in w.nodes && w.nodes[w.states[s].node].state == s
  }

  ghost predicate Tree(w: World) {
    && 0 in w.nodes
    && (forall n :: n in w.nodes ==> LinkedUp(w, n))
    && (forall n :: n in w.nodes ==> LinkedDown(w, n))
    && (forall n :: n in w.nodes ==> Owns(w, n))
    && (forall s :: 0 <= s < |w.states| ==> Placed(w, s))
  }

  /** No node other than `hole` is without both children and a state. */
  ghost predicate Full(w: World, hole: int) {
    forall n :: n in w.nodes && n != hole ==> w.nodes[n].state != -1 || !Childless(w.nodes[n])
  }

  /** Distance from the root along parent links. */
  ghost function Depth(nodes: map<int, Node>, n: int): (d: nat)
    decreases n
  {
    if n !in nodes || n <= 0 || nodes[n].parent < 0 || nodes[n].parent >= n then 0
    else 1 + Depth(nodes, nodes[n].parent)
  }

  ghost function Share(d: nat): (r: real)
    ensures r > 0.0
  {
    if d == 0 then 1.0 else Share(d - 1) / 2.0
  }

  ghost function Total(states: seq<State>): (r: real) {
    if states == [] then 0.0 else Total(states[..|states| - 1]) + states[|states| - 1].weight
  }

  /** Each state's weight is determined by its depth, a live one's depth is that of its
      node, and all weights together make up one. */
  ghost predicate Weighed(w: World) {
    && (forall s :: 0 <= s < |w.states| ==> w.states[s].weight == Share(w.states[s].depth))
    && (forall s :: 0 <= s < |w.states| && w.states[s].live ==> w.states[s].depth == Depth(w.nodes, w.states[s].node))
    && Total(w.states) == 1.0
  }

  ghost predicate SomeLive(w: World) {
    exists s :: 0 <= s < |w.states| && w.states[s].live
  }

  ghost predicate Inv(w: World) {
    Tree(w) && Weighed(w) && (SomeLive(w) ==> Full(w, -1))
  }

  // -------------------------------------------------------------------- branching

  function Start(): (w: World)
  {
    World(map[0 := Node(-1, -1, -1, 0)], [State(true, 0, 0, 1.0)], 1)
  }

  lemma {:induction false} StartOk()
    ensures Inv(Start())
  {
    var w := Start();
    assert w.states[..0] == [];
    assert Total(w.states[..0]) == 0.0;
  }

  /** State `s` forks: its node gets two children, the copy on the left. */
  function Branch(w: World, s: int): (r: World)
    requires 0 <= s < |w.states| && w.states[s].node in w.nodes
  {
    var x, n, l := w.states[s], w.states[s].node, w.next;
    var c := |w.states|;
    var half := x.weight * 0.5;
    World(
      w.nodes[n := w.nodes[n].(state := -1, left := l, right := l + 1)]
             [l := Node(n, -1, -1, c)][l + 1 := Node(n, -1, -1, s)],
      w.states[s := State(true, l + 1, x.depth + 1, half)] + [State(true, l, x.depth + 1, x.weight - half)],
      l + 2)
  }

  /** The state part of a fork: one level deeper, half of the weight each. */
  function Halved(states: seq<State>, s: int): (r: seq<State>)
    requires 0 <= s < |states|
  {
    var x := states[s].(depth := states[s].depth + 1);
    states[s := x.(weight := x.weight * 0.5)] + [x.(weight := x.weight - x.weight * 0.5)]
  }

  /** The tree part: leaf `n` becomes an inner node with a leaf for each state. */
  function Attached(w: World, n: int, left: int, right: int): (r: World)
    requires n in w.nodes && 0 <= left < |w.states| && 0 <= right < |w.states|
  {
    World(
      w.nodes[n := w.nodes[n].(state := -1, left := w.next, right := w.next + 1)]
             [w.next := Node(n, -1, -1, left)][w.next + 1 := Node(n, -1, -1, right)],
      w.states[left := w.states[left].(node := w.next)][right := w.states[right].(node := w.next + 1)],
      w.next + 2)
  }

  lemma {:induction false} BranchIsBoth(w: World, s: int)
    requires 0 <= s < |w.states| && w.states[s].node in w.nodes && w.states[s].live
    ensures var mid := w.(states := Halved(w.states, s));
            && Attached(mid, w.states[s].node, |w.states|, s) == Branch(w, s)
            && |mid.states| == |w.states| + 1 && mid.states[s].node == w.states[s].node
    ensures var r := Branch(w, s).states;
            && |r| == |w.states| + 1 && r[s].live && r[|w.states|].live
            && (forall t :: 0 <= t < |w.states| && t != s ==> r[t] == w.states[t])
            && r[s].depth == r[|w.states|].depth == w.states[s].depth + 1
            && r[s].weight == r[|w.states|].weight == w.states[s].weight / 2.0
  {
    var mid := w.(states := Halved(w.states, s));
    assert Attached(mid, w.states[s].node, |w.states|, s).states == Branch(w, s).states;
  }

  lemma {:induction false} BranchTree(w: World, s: int)
    requires Tree(w) && 0 <= s < |w.states| && w.states[s].live
    ensures w.states[s].node in w.nodes && Tree(Branch(w, s))
  {
    assert Placed(w, s);
    var r, n, l := Branch(w, s), w.states[s].node, w.next;
    assert Owns(w, n) && LinkedUp(w, n);
    forall k | k in r.nodes ensures LinkedUp(r, k) && LinkedDown(r, k) && Owns(r, k) {
      if k in w.nodes { assert LinkedUp(w, k) && LinkedDown(w, k) && Owns(w, k); }
    }
    forall t | 0 <= t < |r.states| ensures Placed(r, t) {
      if t < |w.states| { assert Placed(w, t); }
    }
  }

  lemma {:induction false} BranchFull(w: World, s: int)
    requires Tree(w) && Full(w, -1) && 0 <= s < |w.states| && w.states[s].node in w.nodes
    ensures Full(Branch(w, s), -1)
  {
    forall k | k in w.nodes ensures 0 <= k { assert LinkedUp(w, k); }
  }

  /** Depth depends on the parent links of the node and its ancestors only. */
  lemma {:induction false} SameDepth(a: map<int, Node>, b: map<int, Node>, n: int)
    requires n in a && (forall k :: k in a ==> k in b && b[k].parent == a[k].parent)
    requires forall k :: k in a && k > 0 ==> 0 <= a[k].parent < k && a[k].parent in a
    ensures Depth(a, n) == Depth(b, n)
    decreases n
  {
    if n <= 0 {
    } else {
      SameDepth(a, b, a[n].parent);
    }
  }

  lemma {:induction false} TotalAt(states: seq<State>, s: int, x: State)
    requires 0 <= s < |states|
    ensures Total(states[s := x]) == Total(states) - states[s].weight + x.weight
  {
    var n := |states| - 1;
    var r := states[s := x];
    if s == n {
      assert r[..n] == states[..n];
    } else {
      assert r[..n] == states[..n][s := x];
      TotalAt(states[..n], s, x);
    }
  }

  lemma {:induction false} TotalAppend(states: seq<State>, x: State)
    ensures Total(states + [x]) == Total(states) + x.weight
  {
    assert (states + [x])[..|states|] == states;
  }

  lemma {:induction false} ParentsBelow(w: World)
    requires Tree(w)
    ensures forall k :: k in w.nodes && k > 0 ==> 0 <= w.nodes[k].parent < k && w.nodes[k].parent in w.nodes
    ensures forall k :: k in w.nodes ==> 0 <= k < w.next
  {
    forall k | k in w.nodes
      ensures 0 <= k < w.next && (k > 0 ==> 0 <= w.nodes[k].parent < k && w.nodes[k].parent in w.nodes)
    {
      assert LinkedUp(w, k);
    }
  }

  lemma {:induction false} BranchParents(w: World, s: int)
    requires 0 <= s < |w.states| && w.states[s].node in w.nodes && forall k :: k in w.nodes ==> 0 <= k < w.next
    ensures var r := Branch(w, s);
            && (forall k :: k in w.nodes ==> k in r.nodes && r.nodes[k].parent == w.nodes[k].parent)
            && w.next in r.nodes && r.nodes[w.next].parent == w.states[s].node
            && w.next + 1 in r.nodes && r.nodes[w.next + 1].parent == w.states[s].node
  { }

  lemma {:induction false} BranchDepths(w: World, s: int)
    requires Tree(w) && 0 <= s < |w.states| && w.states[s].node in w.nodes
    ensures var r := Branch(w, s);
            && (forall k :: k in w.nodes ==> Depth(r.nodes, k) == Depth(w.nodes, k))
            && Depth(r.nodes, w.next) == Depth(r.nodes, w.next + 1) == 1 + Depth(w.nodes, w.states[s].node)
  {
    ParentsBelow(w);
    BranchParents(w, s);
    var r := Branch(w, s);
    hide Tree, Branch;
    forall k | k in w.nodes ensures Depth(r.nodes, k) == Depth(w.nodes, k) {
      hide Depth;
      SameDepth(w.nodes, r.nodes, k);
    }
  }

  lemma {:induction false} BranchWeighed(w: World, s: int)
    requires Tree(w) && Weighed(w) && 0 <= s < |w.states| && w.states[s].live && w.states[s].node in w.nodes
    ensures Weighed(Branch(w, s))
  {
    var r, x := Branch(w, s), w.states[s];
    BranchDepths(w, s);
    forall t | 0 <= t < |w.states| && w.states[t].live ensures w.states[t].node in w.nodes { assert Placed(w, t); }
    hide Tree, Depth;
    assert Share(x.depth + 1) == x.weight / 2.0;
    hide Share;
    BranchTotal(w, s);
    hide Total;
  }

  lemma {:induction false} BranchTotal(w: World, s: int)
    requires 0 <= s < |w.states| && w.states[s].node in w.nodes
    ensures Total(Branch(w, s).states) == Total(w.states)
  {
    var r := Branch(w, s);
    TotalAt(w.states, s, r.states[s]);
    TotalAppend(w.states[s := r.states[s]], r.states[|w.states|]);
    hide Total;
    assert r.states == w.states[s := r.states[s]] + [r.states[|w.states|]];
  }

  lemma {:induction false} BranchKeeps(w: World, s: int)
    requires Inv(w) && 0 <= s < |w.states| && w.states[s].live
    ensures w.states[s].node in w.nodes && Inv(Branch(w, s))
  {
    BranchTree(w, s);
    hide Tree, Weighed, Full, Branch;
    BranchWeighed(w, s);
    BranchFull(w, s);
  }

  lemma {:induction false} LiveLeaf(w: World, s: int)
    requires Inv(w) && 0 <= s < |w.states| && w.states[s].live
    ensures w.states[s].node in w.nodes && Childless(w.nodes[w.states[s].node])
  {
    assert Placed(w, s);
    assert Owns(w, w.states[s].node);
  }

  // ---------------------------------------------------------------------- removal

  /** A finished state gives up its node. */
  function Finish(w: World, s: int): (r: World)
    requires 0 <= s < |w.states| && w.states[s].node in w.nodes
  {
    var n := w.states[s].node;
    w.(nodes := w.nodes[n := w.nodes[n].(state := -1)], states := w.states[s := w.states[s].(live := false)])
  }

  lemma {:induction false} FinishTree(w: World, s: int)
    requires Tree(w) && 0 <= s < |w.states| && w.states[s].live
    ensures var n := w.states[s].node;
            && n in w.nodes && Childless(w.nodes[n]) && Tree(Finish(w, s))
            && (Full(w, -1) ==> Full(Finish(w, s), n))
  {
    assert Placed(w, s);
    var r, n := Finish(w, s), w.states[s].node;
    assert Owns(w, n);
    forall k | k in r.nodes ensures LinkedUp(r, k) && LinkedDown(r, k) && Owns(r, k) {
      assert LinkedUp(w, k) && LinkedDown(w, k) && Owns(w, k);
    }
    forall t | 0 <= t < |r.states| ensures Placed(r, t) {
      assert Placed(w, t);
    }
  }

  lemma {:induction false} FinishWeighed(w: World, s: int)
    requires Tree(w) && Weighed(w) && 0 <= s < |w.states| && w.states[s].live && w.states[s].node in w.nodes
    ensures Weighed(Finish(w, s))
  {
    var r := Finish(w, s);
    ParentsBelow(w);
    TotalAt(w.states, s, r.states[s]);
    forall t | 0 <= t < |w.states| && w.states[t].live ensures w.states[t].node in w.nodes { assert Placed(w, t); }
    hide Tree, Total;
    forall k | k in w.nodes ensures Depth(r.nodes, k) == Depth(w.nodes, k) { SameDepth(w.nodes, r.nodes, k); }
  }

  /** Node `n` is unlinked from its parent and freed. */
  function Unlink(w: World, n: int): (r: World)
    requires n in w.nodes && w.nodes[n].parent in w.nodes
  {
    var p := w.nodes[n].parent;
    var x := w.nodes[p];
    w.(nodes := w.nodes[p := if x.left == n then x.(left := -1) else x.(right := -1)] - {n})
  }

  lemma {:induction false} UnlinkTree(w: World, n: int)
    requires Tree(w) && n in w.nodes && n != 0 && Childless(w.nodes[n]) && w.nodes[n].state == -1
    ensures var p := w.nodes[n].parent;
            && p in w.nodes && 0 <= p < n
            && (n == w.nodes[p].left || n == w.nodes[p].right)
            && Tree(Unlink(w, n)) && w.nodes[p].state == -1 && p in Unlink(w, n).nodes
            && (Full(w, n) ==> Full(Unlink(w, n), p))
  {
    assert LinkedUp(w, n);
    var p := w.nodes[n].parent;
    assert LinkedDown(w, p) && Owns(w, p);
    var r := Unlink(w, n);
    forall k | k in r.nodes ensures LinkedUp(r, k) && LinkedDown(r, k) && Owns(r, k) {
      assert LinkedUp(w, k) && LinkedDown(w, k) && Owns(w, k);
    }
    forall t | 0 <= t < |r.states| ensures Placed(r, t) {
      assert Placed(w, t);
    }
  }

  lemma {:induction false} UnlinkWeighed(w: World, n: int)
    requires Tree(w) && Weighed(w) && n in w.nodes && n != 0 && w.nodes[n].parent in w.nodes
    requires Tree(Unlink(w, n))
    ensures Weighed(Unlink(w, n))
  {
    var r := Unlink(w, n);
    ParentsBelow(r);
    forall t | 0 <= t < |w.states| && w.states[t].live ensures w.states[t].node in r.nodes { assert Placed(r, t); }
    hide Tree, Total;
    forall k | k in r.nodes ensures Depth(r.nodes, k) == Depth(w.nodes, k) { SameDepth(r.nodes, w.nodes, k); }
  }

  /** A childless, stateless root is all that is left of the tree. */
  lemma {:induction false} NothingBelow(w: World, n: int)
    requires Tree(w) && Childless(w.nodes[0]) && n in w.nodes
    ensures n == 0
    decreases n
  {
    assert LinkedUp(w, n);
    if n == 0 {
    } else {
      NothingBelow(w, w.nodes[n].parent);
      assert false;
    }
  }

  lemma {:induction false} EmptyTree(w: World)
    requires Tree(w) && Childless(w.nodes[0]) && w.nodes[0].state == -1
    ensures !SomeLive(w)
  {
    forall s | 0 <= s < |w.states| ensures !w.states[s].live {
      assert Placed(w, s);
      if w.states[s].live { NothingBelow(w, w.states[s].node); }
    }
  }

  lemma {:induction false} HoleFilled(w: World, n: int)
    requires Full(w, n) && n in w.nodes && !Childless(w.nodes[n])
    ensures Full(w, -1)
  { }

  lemma {:induction false} RootOrNot(w: World, n: int)
    requires Tree(w) && n in w.nodes
    ensures w.nodes[n].parent == -1 <==> n == 0
    ensures n != 0 ==> 0 <= w.nodes[n].parent < n
  {
    assert LinkedUp(w, n);
  }

  // ------------------------------------------------------------- the random walk

  /** The state reached from node `n` when `flips` decides at the nodes with two children. */
  ghost function Walk(w: World, n: int, flips: seq<bool>): (s: int)
    requires Tree(w) && Full(w, -1) && n in w.nodes
    decreases w.next - n
  {
    var x := w.nodes[n];
    assert LinkedUp(w, n) && LinkedDown(w, n);
    if x.state != -1 then x.state
    else if x.left == -1 then assert LinkedUp(w, x.right); Walk(w, x.right, flips)
    else if x.right == -1 then assert LinkedUp(w, x.left); Walk(w, x.left, flips)
    else
      assert LinkedUp(w, x.left) && LinkedUp(w, x.right);
      if flips == [] then Walk(w, x.right, [])
      else Walk(w, if flips[0] then x.left else x.right, flips[1..])
  }

  /** The flips that lead from the root to node `n`. */
  ghost function Route(w: World, n: int): (flips: seq<bool>)
    requires Tree(w) && n in w.nodes
    decreases n
  {
    assert LinkedUp(w, n);
    var p := w.nodes[n].parent;
    if n == 0 then []
    else if w.nodes[p].left != -1 && w.nodes[p].right != -1 then Route(w, p) + [w.nodes[p].left == n]
    else Route(w, p)
  }

  /** One step of the walk, from a node to the child `n` chosen by the flips. */
  lemma {:induction false} WalkStep(w: World, n: int, rest: seq<bool>)
    requires Tree(w) && Full(w, -1) && n in w.nodes && n != 0
    ensures var p := w.nodes[n].parent;
            && p in w.nodes && 0 <= p < n
            && var both := w.nodes[p].left != -1 && w.nodes[p].right != -1;
            && Walk(w, n, rest) == Walk(w, p, if both then [w.nodes[p].left == n] + rest else rest)
            && Route(w, n) == if both then Route(w, p) + [w.nodes[p].left == n] else Route(w, p)
  {
    assert LinkedUp(w, n);
    var p := w.nodes[n].parent;
    assert LinkedDown(w, p) && Owns(w, p);
    assert ([w.nodes[p].left == n] + rest)[1..] == rest;
  }

  lemma {:induction false} RouteOfRoot(w: World)
    requires Tree(w)
    ensures Route(w, 0) == []
  { }

  lemma {:induction false} RouteLeads(w: World, n: int, rest: seq<bool>)
    requires Tree(w) && Full(w, -1) && n in w.nodes
    ensures Walk(w, 0, Route(w, n) + rest) == Walk(w, n, rest)
    decreases if n < 0 then 0 else n
  {
    hide *;
    RouteOfRoot(w);
    if n == 0 {
      assert [] + rest == rest;
    } else {
      WalkStep(w, n, rest);
      var p := w.nodes[n].parent;
      if w.nodes[p].left != -1 && w.nodes[p].right != -1 {
        var b := w.nodes[p].left == n;
        assert Route(w, p) + [b] + rest == Route(w, p) + ([b] + rest);
        RouteLeads(w, p, [b] + rest);
      } else {
        RouteLeads(w, p, rest);
      }
    }
  }

  /** A 32-bit random number. */
  type Word = x: nat | x < 0x1_0000_0000

  /** Bit `i` of the random numbers, each read from its most significant bit. */
  predicate Coin(random: nat -> Word, i: nat) {
    Operators.Bit(random(i / 32), 31 - i % 32)
  }

  lemma {:induction false} CoinAt(random: nat -> Word, i: nat, k: nat, bits: nat)
    requires bits < 32 && i == k * 32 + 31 - bits
    ensures Coin(random, i) == Operators.Bit(random(k), bits)
  {
    hide Operators.Bit;
    assert i / 32 == k && i % 32 == 31 - bits;
  }

  /** The number with the given bits, least significant first. */
  function WordOf(bits: seq<bool>): (x: nat)
    ensures x < Pow2(|bits|)
  {
    if bits == [] then 0 else (if bits[0] then 1 else 0) + 2 * WordOf(bits[1..])
  }

  lemma {:induction false} WordOfBits(bits: seq<bool>, i: nat)
    requires i < |bits|
    ensures Operators.Bit(WordOf(bits), i) == bits[i]
  {
    hide Operators.Bit;
    Operators.BitOfSum(if bits[0] then 1 else 0, WordOf(bits[1..]), i);
    if i > 0 { WordOfBits(bits[1..], i - 1); }
  }

  /** The word that shows the flips from `32 * k` on. */
  function Drawn(flips: seq<bool>, k: nat): (x: Word) {
    var bits := seq(32, j requires 0 <= j < 32 => k * 32 + 31 - j < |flips| && flips[k * 32 + 31 - j]);
    WordLimit();
    WordOf(bits)
  }

  lemma {:induction false} WordLimit()
    ensures Pow2(32) == 0x1_0000_0000
  {
    PowersOfTwo();
    Pow2Add(8, 8);
    Pow2Add(16, 16);
  }

  /** Whatever the flips, some random numbers show them. */
  lemma {:induction false} AnyFlips(flips: seq<bool>, i: nat)
    requires i < |flips|
    ensures Coin(k => Drawn(flips, k), i) == flips[i]
  {
    var k := i / 32;
    var bits := seq(32, j requires 0 <= j < 32 => k * 32 + 31 - j < |flips| && flips[k * 32 + 31 - j]);
    WordOfBits(bits, 31 - i % 32);
    hide Operators.Bit, WordOf;
    assert k * 32 + 31 - (31 - i % 32) == i;
  }

  /** The flips taken so far lead from the root to `n`. */
  ghost predicate Leads(w: World, taken: seq<bool>, n: int)
    requires Tree(w) && Full(w, -1) && n in w.nodes
  {
    forall rest :: Walk(w, 0, taken + rest) == Walk(w, n, rest)
  }

  lemma {:induction false} LeadsStart(w: World)
    requires Tree(w) && Full(w, -1)
    ensures Leads(w, [], 0)
  {
    forall rest: seq<bool> ensures Walk(w, 0, [] + rest) == Walk(w, 0, rest) { assert [] + rest == rest; }
  }

  /** The child a step of the walk goes to is a newer node that the flips lead to. */
  lemma {:induction false} Onward(w: World, n: int, taken: seq<bool>)
    requires Tree(w) && Full(w, -1) && n in w.nodes && Leads(w, taken, n) && w.nodes[n].state == -1
    ensures var x := w.nodes[n];
            && (x.left != -1 ==> x.left in w.nodes && n < x.left < w.next)
            && (x.right != -1 ==> x.right in w.nodes && n < x.right < w.next)
            && (x.left == -1 ==> x.right != -1 && Leads(w, taken, x.right))
            && (x.left != -1 && x.right == -1 ==> Leads(w, taken, x.left))
            && (x.left != -1 && x.right != -1 ==> Leads(w, taken + [true], x.left) && Leads(w, taken + [false], x.right))
  {
    var x := w.nodes[n];
    assert LinkedUp(w, n) && LinkedDown(w, n);
    if x.left != -1 { assert LinkedUp(w, x.left); }
    if x.right != -1 { assert LinkedUp(w, x.right); }
    if x.left != -1 && x.right != -1 {
      forall b: bool, rest: seq<bool>
        ensures Walk(w, 0, taken + [b] + rest) == Walk(w, if b then x.left else x.right, rest)
      {
        assert taken + [b] + rest == taken + ([b] + rest);
        assert ([b] + rest)[1..] == rest;
      }
    }
  }

  lemma {:induction false} Arrived(w: World, n: int, taken: seq<bool>)
    requires Tree(w) && Full(w, -1) && n in w.nodes && Leads(w, taken, n) && w.nodes[n].state != -1
    ensures var s := w.nodes[n].state;
            Walk(w, 0, taken) == s && 0 <= s < |w.states| && w.states[s].live
  {
    assert taken + [] == taken;
    assert Owns(w, n);
  }

  lemma {:induction false} InvTree(w: World)
    requires Inv(w) && SomeLive(w)
    ensures Tree(w) && Full(w, -1) && 0 in w.nodes && 0 < w.next
  {
    assert LinkedUp(w, 0);
  }

  ghost predicate Shows(random: nat -> Word, flips: seq<bool>) {
    forall i :: 0 <= i < |flips| ==> flips[i] == Coin(random, i)
  }

  /** Every live state can be selected: some random numbers lead the walk to it. */
  lemma {:induction false} EveryStateIsSelectable(w: World, s: int)
    requires Inv(w) && 0 <= s < |w.states| && w.states[s].live
    ensures exists random, flips :: Shows(random, flips) && Walk(w, 0, flips) == s
  {
    assert Placed(w, s);
    var n := w.states[s].node;
    var flips := Route(w, n) + [];
    RouteLeads(w, n, []);
    assert Walk(w, 0, flips) == s;
    forall i | 0 <= i < |flips| ensures flips[i] == Coin(k => Drawn(flips, k), i) { AnyFlips(flips, i); }
    assert Shows(k => Drawn(flips, k), flips);
  }

  /** What the invariant says of a tree with live states: its leaves are the live states,
      one to one, and a state's weight is 2 to the minus its distance from the root. */
  ghost predicate LeavesAreStates(w: World) {
    && (forall n :: n in w.nodes ==> (Childless(w.nodes[n]) <==> w.nodes[n].state != -1))
    && (forall n :: n in w.nodes && w.nodes[n].state != -1 ==>
         0 <= w.nodes[n].state < |w.states| && w.states[w.nodes[n].state].live && w.states[w.nodes[n].state].node == n)
    && (forall s :: 0 <= s < |w.states| && w.states[s].live ==>
         && w.states[s].node in w.nodes && w.nodes[w.states[s].node].state == s
         && w.states[s].weight == Share(Depth(w.nodes, w.states[s].node)))
  }

  lemma {:induction false} InvMeans(w: World)
    requires Inv(w) && SomeLive(w)
    ensures LeavesAreStates(w)
  {
    hide Depth, Share, LinkedDown, Total;
    forall n | n in w.nodes ensures Childless(w.nodes[n]) <==> w.nodes[n].state != -1 { assert Owns(w, n) && LinkedUp(w, n); }
    forall s | 0 <= s < |w.states| && w.states[s].live
      ensures w.states[s].node in w.nodes && w.nodes[w.states[s].node].state == s
    {
      assert Placed(w, s);
    }
  }

  datatype Event = ForkState(s: int) | RemoveState(s: int)

  /** What a run makes of a state, whatever the tree looks like. */
  datatype Standing = Standing(live: bool, depth: nat, weight: real)

  ghost function Standings(states: seq<State>): (m: seq<Standing>)
    ensures |m| == |states|
    ensures forall i :: 0 <= i < |states| ==> m[i] == Standing(states[i].live, states[i].depth, states[i].weight)
  {
    seq(|states|, i requires 0 <= i < |states| => Standing(states[i].live, states[i].depth, states[i].weight))
  }

  /** A live state that forks shares its weight with its copy, one level deeper; one that
      is removed keeps its weight. */
  ghost function Step(m: seq<Standing>, e: Event): (r: seq<Standing>) {
    if !(0 <= e.s < |m| && m[e.s].live) then m
    else if e.RemoveState? then m[e.s := m[e.s].(live := false)]
    else
      var half := Standing(true, m[e.s].depth + 1, m[e.s].weight / 2.0);
      m[e.s := half] + [half]
  }

  ghost function Final(m: seq<Standing>, events: seq<Event>): (r: seq<Standing>) {
    if events == [] then m else Step(Final(m, events[..|events| - 1]), events[|events| - 1])
  }

  // --------------------------------------------------------------------- the tree

  class PTree {
    var nodes: map<int, Node>
    var states: seq<State>
    var next: int

    function View(): (w: World)
      reads this
    {
      World(nodes, states, next)
    }

    constructor ()
      ensures View() == Start() && Inv(View())
    {
      nodes, states, next := map[0 := Node(-1, -1, -1, 0)], [State(true, 0, 0, 1.0)], 1;
      new;
      StartOk();
    }

    predicate Live(s: int)
      reads this
    {
      0 <= s < |states| && states[s].live
    }

    /** A copy of the state, one level deeper; each gets half of the weight. */
    method BranchState(s: int) returns (c: int)
      requires 0 <= s < |states|
      modifies this`states
      ensures c == |old(states)| && states == Halved(old(states), s)
    {
      c := |states|;
      states := states[s := states[s].(depth := states[s].depth + 1)];
      var copy := states[s];
      states := states[s := states[s].(weight := states[s].weight * 0.5)];
      copy := copy.(weight := copy.weight - states[s].weight);
      states := states + [copy];
    }

    /** A leaf becomes an inner node with a leaf for each of the two states. */
    method Attach(n: int, left: int, right: int)
      requires n in nodes && Childless(nodes[n])
      requires 0 <= left < |states| && 0 <= right < |states|
      modifies this
      ensures View() == Attached(old(View()), n, left, right)
    {
      nodes := nodes[n := nodes[n].(state := -1, left := next, right := next + 1)];
      nodes := nodes[next := Node(n, -1, -1, left)];
      states := states[left := states[left].(node := next)];
      nodes := nodes[next + 1 := Node(n, -1, -1, right)];
      states := states[right := states[right].(node := next + 1)];
      next := next + 2;
    }

    /** A fork: the copy's leaf is on the left. */
    method Fork(s: int) returns (c: int)
      requires Inv(View()) && Live(s)
      modifies this
      ensures Inv(View()) && Live(s) && Live(c) && c == |old(states)|
      ensures forall t :: t != c ==> (Live(t) <==> old(Live(t)))
      ensures Standings(states) == Step(old(Standings(states)), ForkState(s))
    {
      hide Inv, Branch, Halved, Attached;
      LiveLeaf(View(), s);
      BranchKeeps(View(), s);
      BranchIsBoth(View(), s);
      c := BranchState(s);
      Attach(states[s].node, c, s);
    }

    /** A finished state leaves the tree, with every ancestor that has nothing below it. */
    method Remove(s: int)
      requires Inv(View()) && Live(s)
      modifies this
      ensures Inv(View())
      ensures |states| == |old(states)| && forall t :: Live(t) <==> old(Live(t)) && t != s
      ensures Standings(states) == Step(old(Standings(states)), RemoveState(s))
    {
      ghost var w := View();
      assert SomeLive(w);
      FinishTree(w, s);
      FinishWeighed(w, s);
      hide Tree, Weighed, Full;
      var n := states[s].node;
      nodes := nodes[n := nodes[n].(state := -1)];
      states := states[s := states[s].(live := false)];
      assert View() == Finish(w, s);
      while n != -1 && Childless(nodes[n])
        invariant Tree(View()) && Weighed(View())
        invariant n != -1 ==> Full(View(), n)
        invariant n == -1 ==> !SomeLive(View())
        invariant n != -1 ==> n in nodes && n >= 0 && nodes[n].state == -1
        invariant states == old(states)[s := old(states)[s].(live := false)]
        decreases n
      {
        ghost var v := View();
        var p := nodes[n].parent;
        RootOrNot(v, n);
        if p != -1 {
          UnlinkTree(v, n);
          UnlinkWeighed(v, n);
          if n == nodes[p].left {
            nodes := nodes[p := nodes[p].(left := -1)];
          } else {
            assert n == nodes[p].right;
            nodes := nodes[p := nodes[p].(right := -1)];
          }
          nodes := nodes - {n};
          assert View() == Unlink(v, n);
        } else {
          EmptyTree(v);
        }
        n := p;
      }
      if n != -1 { HoleFilled(View(), n); }
    }

    /** The random walk from the root stops at a live state: the one that the coin flips,
        drawn 32 at a time, lead to. */
    method SelectState(random: nat -> Word) returns (s: int, ghost taken: seq<bool>)
      requires Inv(View()) && SomeLive(View())
      ensures Live(s) && Walk(View(), 0, taken) == s
      ensures Shows(random, taken)
    {
      hide Inv, SomeLive, Tree, Full, Walk, Leads, Coin, Operators.Bit;
      var w := View();
      InvTree(w);
      taken := [];
      LeadsStart(w);
      var flips, bits, draws := 0, 0, 0;
      var n := 0;
      while nodes[n].state == -1
        invariant n in nodes && 0 <= n < next && 0 <= bits <= 32
        invariant 0 <= draws && draws * 32 == |taken| + bits && (bits > 0 ==> draws > 0 && flips == random(draws - 1))
        invariant forall i :: 0 <= i < |taken| ==> taken[i] == Coin(random, i)
        invariant Leads(w, taken, n)
        decreases next - n
      {
        Onward(w, n, taken);
        if nodes[n].left == -1 {
          n := nodes[n].right;
        } else if nodes[n].right == -1 {
          n := nodes[n].left;
        } else {
          if bits == 0 {
            flips, bits, draws := random(draws), 32, draws + 1;
          }
          bits := bits - 1;
          var left := Operators.Bit(flips, bits);
          CoinAt(random, |taken|, draws - 1, bits);
          n := if left then nodes[n].left else nodes[n].right;
          taken := taken + [left];
        }
      }
      s := nodes[n].state;
      Arrived(w, n, taken);
    }

    /** Main theorem: after any run of forks and removals every state stands where the
        events put it, the leaves are the live states, and the weights of all states that
        ever lived sum to one. */
    method Run(events: seq<Event>)
      requires Inv(View())
      modifies this
      ensures Inv(View()) && Total(states) == 1.0
      ensures SomeLive(View()) ==> LeavesAreStates(View())
      ensures Standings(states) == Final(old(Standings(states)), events)
    {
      for i := 0 to |events|
        invariant Inv(View())
        invariant Standings(states) == Final(old(Standings(states)), events[..i])
      {
        hide Inv;
        assert events[..i + 1][..i] == events[..i];
        var e := events[i];
        if Live(e.s) {
          if e.ForkState? { var c := Fork(e.s); } else { Remove(e.s); }
        }
      }
      assert events[..|events|] == events;
      if SomeLive(View()) { InvMeans(View()); }
    }
  }
}
