/** Update lists: chains of writes shared between many lists, freed by counting the
    references to each node. -1 stands for a null pointer. */
module UpdateLists {

  datatype Node<V> = Node(refCount: nat, next: int, payload: V, size: nat)

  /** All nodes that exist, and the head of every list that exists. */
  datatype World<V> = World(nodes: map<int, Node<V>>, heads: map<int, int>, limit: int)

  /** The lists headed at node `n`. */
  ghost function Holders<V>(w: World<V>, n: int): (s: set<int>) {
    set l | l in w.heads && w.heads[l] == n
  }

  /** The nodes that point to node `n`. */
  ghost function Preds<V>(w: World<V>, n: int): (s: set<int>) {
    set m | m in w.nodes && w.nodes[m].next == n
  }

  ghost predicate WfNode<V>(w: World<V>, n: int)
    requires n in w.nodes
  {
    var x := w.nodes[n];
    && 0 <= n < w.limit
    && (x.next != -1 ==> x.next in w.nodes && x.next < n)
    && x.size == 1 + if x.next in w.nodes then w.nodes[x.next].size else 0
  }

  /** The count of a node is the lists headed at it, the nodes pointing to it, and the
      references held in the middle of an operation. */
  ghost predicate Counted<V>(w: World<V>, n: int, held: multiset<int>)
    requires n in w.nodes
  {
    w.nodes[n].refCount == |Holders(w, n)| + |Preds(w, n)| + held[n]
  }

  ghost predicate Inv<V>(w: World<V>, held: multiset<int>) {
    && (forall n :: n in w.nodes ==> WfNode(w, n))
    && (forall n :: n in w.nodes ==> Counted(w, n, held))
    && (forall n :: n in w.nodes ==> w.nodes[n].refCount > 0)
    && (forall l :: l in w.heads && w.heads[l] != -1 ==> w.heads[l] in w.nodes)
    && (forall n :: n in held && n != -1 ==> n in w.nodes)
  }

  // ----------------------------------------------------------- what a list denotes

  /** The writes of a chain, newest first. */
  ghost function Chain<V>(nodes: map<int, Node<V>>, n: int): (s: seq<V>)
    decreases n
  {
    if n < 0 || n !in nodes then []
    else [nodes[n].payload] + if nodes[n].next < n then Chain(nodes, nodes[n].next) else []
  }

  ghost predicate Reaches<V>(nodes: map<int, Node<V>>, from: int, n: int)
    decreases from
  {
    from >= 0 && from in nodes && (from == n || (nodes[from].next < from && Reaches(nodes, nodes[from].next, n)))
  }

  /** `b` keeps some of the nodes of `a`, with their links and writes. */
  ghost predicate Part<V>(b: map<int, Node<V>>, a: map<int, Node<V>>) {
    forall n :: n in b ==> n in a && b[n].next == a[n].next && b[n].payload == a[n].payload
  }

  lemma {:induction false} PartChain<V>(w: World<V>, held: multiset<int>, a: map<int, Node<V>>, n: int)
    requires Inv(w, held) && Part(w.nodes, a) && n in w.nodes
    ensures Chain(w.nodes, n) == Chain(a, n)
    decreases n
  {
    assert WfNode(w, n);
    var k := w.nodes[n].next;
    if k in w.nodes {
      PartChain(w, held, a, k);
    } else {
      assert k == -1;
    }
  }

  /** A counted node is reachable from a list, since the nodes pointing to it are newer. */
  lemma {:induction false} CountedIsReachable<V>(w: World<V>, n: int) returns (l: int)
    requires Inv(w, multiset{}) && n in w.nodes
    ensures l in w.heads && Reaches(w.nodes, w.heads[l], n)
    decreases w.limit - n
  {
    assert WfNode(w, n) && Counted(w, n, multiset{});
    var holders, preds := Holders(w, n), Preds(w, n);
    if holders != {} {
      assert (forall x :: x !in holders) ==> holders == {};
      l :| l in holders;
    } else {
      assert (forall x :: x !in preds) ==> preds == {};
      var m :| m in preds;
      assert WfNode(w, m);
      l := CountedIsReachable(w, m);
      ReachesNext(w, multiset{}, w.heads[l], m);
    }
  }

  lemma {:induction false} ReachesNext<V>(w: World<V>, held: multiset<int>, from: int, m: int)
    requires Inv(w, held) && Reaches(w.nodes, from, m)
    requires m in w.nodes && w.nodes[m].next in w.nodes
    ensures Reaches(w.nodes, from, w.nodes[m].next)
    decreases from
  {
    assert WfNode(w, m);
    if from != m {
      ReachesNext(w, held, w.nodes[from].next, m);
    } else {
      assert WfNode(w, w.nodes[m].next);
    }
  }

  /** Between operations, the nodes that exist are exactly those some list can reach. */
  lemma {:induction false} NothingLeaks<V>(w: World<V>, n: int)
    requires Inv(w, multiset{})
    ensures n in w.nodes <==> exists l :: l in w.heads && Reaches(w.nodes, w.heads[l], n)
  {
    if n in w.nodes {
      var l := CountedIsReachable(w, n);
    }
    forall l | l in w.heads && Reaches(w.nodes, w.heads[l], n) ensures n in w.nodes {
      ReachesInside(w.nodes, w.heads[l], n);
    }
  }

  lemma {:induction false} ReachesInside<V>(nodes: map<int, Node<V>>, from: int, n: int)
    requires Reaches(nodes, from, n)
    ensures n in nodes
    decreases from
  {
    if from == n {
    } else {
      ReachesInside(nodes, nodes[from].next, n);
    }
  }

  // ---------------------------------------------------------------- elementary steps

  function Bump<V>(w: World<V>, n: int, d: int): (r: World<V>)
    requires n in w.nodes && w.nodes[n].refCount + d >= 0
  {
    w.(nodes := w.nodes[n := w.nodes[n].(refCount := w.nodes[n].refCount + d)])
  }

  lemma {:induction false} BumpSets<V>(w: World<V>, n: int, d: int)
    requires n in w.nodes && w.nodes[n].refCount + d >= 0
    ensures var r := Bump(w, n, d);
            && (forall k :: Holders(r, k) == Holders(w, k)) && (forall k :: Preds(r, k) == Preds(w, k))
            && (forall k :: k in w.nodes && WfNode(w, k) ==> WfNode(r, k))
            && Part(r.nodes, w.nodes) && Part(w.nodes, r.nodes)
  {
    var r := Bump(w, n, d);
    forall k ensures Preds(r, k) == Preds(w, k) { }
  }

  /** Taking a reference. */
  lemma {:induction false} TakeKeeps<V>(w: World<V>, held: multiset<int>, n: int)
    requires Inv(w, held) && n in w.nodes
    ensures Inv(Bump(w, n, 1), held + multiset{n})
  {
    BumpSets(w, n, 1);
    hide Holders, Preds, WfNode;
    var r := Bump(w, n, 1);
    forall k | k in r.nodes ensures Counted(r, k, held + multiset{n}) { assert Counted(w, k, held); }
  }

  /** Giving a reference back that is not the last one. */
  lemma {:induction false} GiveKeeps<V>(w: World<V>, held: multiset<int>, n: int)
    requires Inv(w, held + multiset{n}) && n in w.nodes && w.nodes[n].refCount > 1
    ensures Inv(Bump(w, n, -1), held)
  {
    BumpSets(w, n, -1);
    hide Holders, Preds, WfNode;
    var r := Bump(w, n, -1);
    forall k | k in r.nodes ensures Counted(r, k, held) { assert Counted(w, k, held + multiset{n}); }
  }

  /** Giving back the last reference frees the node, and its own reference is next. */
  lemma {:induction false} DeleteKeeps<V>(w: World<V>, held: multiset<int>, n: int)
    requires Inv(w, held + multiset{n}) && n in w.nodes && w.nodes[n].refCount == 1
    ensures var r := w.(nodes := w.nodes - {n});
            Inv(r, held + multiset{w.nodes[n].next}) && Part(r.nodes, w.nodes)
  {
    var k0 := w.nodes[n].next;
    var r := w.(nodes := w.nodes - {n});
    assert Counted(w, n, held + multiset{n}) && WfNode(w, n);
    assert Holders(w, n) == {} && Preds(w, n) == {} && held[n] == 0;
    forall k | k in r.nodes ensures WfNode(r, k) && Counted(r, k, held + multiset{k0}) {
      assert WfNode(w, k) && Counted(w, k, held + multiset{n});
      assert k !in Preds(w, n);
      assert Holders(r, k) == Holders(w, k);
      if k == k0 {
        assert Preds(w, k) == Preds(r, k) + {n} && n !in Preds(r, k);
      } else {
        assert Preds(w, k) == Preds(r, k);
      }
    }
    forall l | l in r.heads && r.heads[l] != -1 ensures r.heads[l] in r.nodes {
      assert l !in Holders(w, n);
    }
  }

  /** A list disappears; the reference of its head is still held. */
  lemma {:induction false} DetachKeeps<V>(w: World<V>, held: multiset<int>, l: int)
    requires Inv(w, held) && l in w.heads
    ensures Inv(w.(heads := w.heads - {l}), held + multiset{w.heads[l]})
  {
    var r, h := w.(heads := w.heads - {l}), w.heads[l];
    forall k | k in r.nodes ensures WfNode(r, k) && Counted(r, k, held + multiset{h}) {
      assert WfNode(w, k) && Counted(w, k, held);
      assert Preds(r, k) == Preds(w, k);
      if k == h {
        assert Holders(w, k) == Holders(r, k) + {l} && l !in Holders(r, k);
      } else {
        assert Holders(w, k) == Holders(r, k);
      }
    }
  }

  /** A held reference becomes the head of a new list. */
  lemma {:induction false} AttachKeeps<V>(w: World<V>, held: multiset<int>, l: int, h: int)
    requires Inv(w, held + multiset{h}) && l !in w.heads
    ensures Inv(w.(heads := w.heads[l := h]), held)
  {
    var r := w.(heads := w.heads[l := h]);
    forall k | k in r.nodes ensures WfNode(r, k) && Counted(r, k, held) {
      assert WfNode(w, k) && Counted(w, k, held + multiset{h});
      assert Preds(r, k) == Preds(w, k);
      if k == h {
        assert Holders(r, k) == Holders(w, k) + {l} && l !in Holders(w, k);
      } else {
        assert Holders(r, k) == Holders(w, k);
      }
    }
    assert h in held + multiset{h};
  }

  /** A held reference becomes the link of a new node, which is then held instead. */
  function WithNode<V>(w: World<V>, h: int, v: V): (r: World<V>) {
    w.(nodes := w.nodes[w.limit := Node(1, h, v, 1 + if h in w.nodes then w.nodes[h].size else 0)],
       limit := w.limit + 1)
  }

  lemma {:induction false} NewNodeSets<V>(w: World<V>, held: multiset<int>, h: int, v: V)
    requires Inv(w, held) && w.limit >= 0
    ensures var r, n := WithNode(w, h, v), w.limit;
            && n !in w.nodes && n !in held && (h in w.nodes ==> h < n)
            && (forall k :: Holders(r, k) == Holders(w, k))
            && (forall k :: Preds(r, k) == if k == h then Preds(w, k) + {n} else Preds(w, k))
            && Holders(w, n) == {} && Preds(w, n) == {}
  {
    var r, n := WithNode(w, h, v), w.limit;
    forall k | k in w.nodes ensures k < n && w.nodes[k].next != n { assert WfNode(w, k); }
    forall l | l in w.heads ensures w.heads[l] != n { }
    forall k ensures Preds(r, k) == if k == h then Preds(w, k) + {n} else Preds(w, k) { }
  }

  lemma {:induction false} NewNodeCounts<V>(w: World<V>, held: multiset<int>, h: int, v: V, k: int)
    requires Inv(w, held + multiset{h}) && w.limit >= 0 && (h == -1 || h in w.nodes) && k in WithNode(w, h, v).nodes
    ensures WfNode(WithNode(w, h, v), k) && Counted(WithNode(w, h, v), k, held + multiset{w.limit})
  {
    NewNodeSets(w, held + multiset{h}, h, v);
    if k in w.nodes { assert WfNode(w, k) && Counted(w, k, held + multiset{h}); }
    hide Inv, Holders;
    var preds := Preds(w, k);
    assert w.limit !in preds;
    hide Preds;
    assert |preds + {w.limit}| == |preds| + 1;
  }

  lemma {:induction false} NodeKeeps<V>(w: World<V>, held: multiset<int>, h: int, v: V)
    requires Inv(w, held + multiset{h}) && w.limit >= 0 && (h == -1 || h in w.nodes)
    ensures Inv(WithNode(w, h, v), held + multiset{w.limit}) && Part(w.nodes, WithNode(w, h, v).nodes)
  {
    var r := WithNode(w, h, v);
    NewNodeSets(w, held + multiset{h}, h, v);
    forall k | k in r.nodes ensures WfNode(r, k) && Counted(r, k, held + multiset{w.limit}) {
      NewNodeCounts(w, held, h, v, k);
    }
    hide WfNode, Counted, Holders, Preds;
  }

  lemma {:induction false} NullKeeps<V>(w: World<V>, held: multiset<int>)
    requires Inv(w, held)
    ensures Inv(w, held + multiset{-1})
  {
    forall n | n in w.nodes ensures Counted(w, n, held + multiset{-1}) { assert WfNode(w, n) && Counted(w, n, held); }
  }

  lemma {:induction false} DropNull<V>(w: World<V>, held: multiset<int>)
    requires Inv(w, held + multiset{-1})
    ensures Inv(w, held)
  {
    forall n | n in w.nodes ensures Counted(w, n, held) { assert WfNode(w, n) && Counted(w, n, held + multiset{-1}); }
  }

  lemma {:induction false} HeldIsThere<V>(w: World<V>, held: multiset<int>, h: int)
    requires Inv(w, held + multiset{h}) && h != -1
    ensures h in w.nodes && h >= 0 && w.nodes[h].refCount > 0 && -1 <= w.nodes[h].next < h
  {
    assert h in held + multiset{h};
    assert WfNode(w, h);
    if w.nodes[h].next != -1 { assert WfNode(w, w.nodes[h].next); }
  }

  // ------------------------------------------------------------------------ the heap

  class Heap<V> {
    var nodes: map<int, Node<V>>
    var heads: map<int, int>
    var limit: int

    ghost function View(): (w: World<V>)
      reads this
    {
      World(nodes, heads, limit)
    }

    /** The heap without list `l`. */
    ghost function Without(l: int): (w: World<V>)
      reads this
    {
      World(nodes, heads - {l}, limit)
    }

    ghost predicate Valid()
      reads this
    {
      Inv(View(), multiset{}) && limit >= 0
    }

    /** The writes of list `l`, newest first. */
    ghost function Updates(l: int): (s: seq<V>)
      reads this
      requires l in heads
    {
      Chain(nodes, heads[l])
    }

    constructor ()
      ensures Valid() && heads == map[]
    {
      nodes, heads, limit := map[], map[], 0;
    }

    /** Drops the reference of list `l` to its head, and frees the nodes only it kept. */
    method TryFreeNodes(l: int, ghost held: multiset<int>)
      requires l in heads && Inv(Without(l), held + multiset{heads[l]})
      modifies this`nodes, this`heads
      ensures Inv(Without(l), held) && Part(nodes, old(nodes))
      ensures l in heads && heads - {l} == old(heads) - {l} && heads.Keys == old(heads).Keys
      ensures old(heads)[l] == -1 ==> heads == old(heads)
      ensures old(heads)[l] in old(nodes) && old(nodes)[old(heads)[l]].refCount > 1 ==> heads == old(heads)
    {
      hide Inv, WfNode, Counted;
      while heads[l] != -1
        invariant l in heads && heads - {l} == old(heads) - {l} && heads.Keys == old(heads).Keys
        invariant Inv(Without(l), held + multiset{heads[l]}) && Part(nodes, old(nodes))
        invariant (heads == old(heads) && nodes == old(nodes))
          || (old(heads)[l] != -1 && old(heads)[l] in old(nodes) && old(nodes)[old(heads)[l]].refCount == 1)
        decreases heads[l] + 1
      {
        ghost var v := Without(l);
        var h := heads[l];
        HeldIsThere(v, held, h);
        nodes := nodes[h := nodes[h].(refCount := nodes[h].refCount - 1)];
        if nodes[h].refCount != 0 {
          GiveKeeps(v, held, h);
          assert Without(l) == Bump(v, h, -1);
          return;
        }
        DeleteKeeps(v, held, h);
        var n := nodes[h].next;
        nodes := nodes - {h};
        heads := heads[l := n];
        assert Without(l) == v.(nodes := v.nodes - {h});
      }
      DropNull(Without(l), held);
    }

    method AddReference(h: int, ghost held: multiset<int>)
      requires Inv(View(), held) && (h == -1 || h in nodes)
      modifies this`nodes
      ensures Inv(View(), held + multiset{h}) && Part(nodes, old(nodes)) && Part(old(nodes), nodes)
      ensures h in nodes ==> nodes[h].refCount > 1
    {
      ghost var w := View();
      if h != -1 {
        TakeKeeps(w, held, h);
        BumpSets(w, h, 1);
        assert nodes[h].refCount > 0;
        nodes := nodes[h := nodes[h].(refCount := nodes[h].refCount + 1)];
        assert View() == Bump(w, h, 1);
      } else {
        NullKeeps(w, held);
        NoNullNode(w, held);
      }
    }

    /** A new list headed at node `h`, or empty. */
    method Construct(l: int, h: int)
      requires Valid() && l !in heads && (h == -1 || h in nodes)
      modifies this
      ensures Valid() && heads == old(heads)[l := h]
      ensures Updates(l) == Chain(old(nodes), h)
      ensures forall k :: k in old(heads) ==> Updates(k) == old(Updates(k))
    {
      ghost var was := View();
      hide Inv;
      AddReference(h, multiset{});
      AttachKeeps(View(), multiset{}, l, h);
      heads := heads[l := h];
      SameChains(View(), was);
    }

    method ConstructEmpty(l: int)
      requires Valid() && l !in heads
      modifies this
      ensures Valid() && heads == old(heads)[l := -1] && Updates(l) == []
      ensures forall k :: k in old(heads) ==> Updates(k) == old(Updates(k))
    {
      Construct(l, -1);
    }

    /** A new list with the writes of list `b`. */
    method Copy(l: int, b: int)
      requires Valid() && l !in heads && b in heads
      modifies this
      ensures Valid() && heads == old(heads)[l := old(heads)[b]]
      ensures Updates(l) == old(Updates(b))
      ensures forall k :: k in old(heads) ==> Updates(k) == old(Updates(k))
    {
      HeadIsThere(View(), multiset{}, b);
      hide Inv;
      Construct(l, heads[b]);
    }

    /** Assignment, which may be to the list itself: the new head is referenced before the
        old one is dropped. */
    method Assign(l: int, b: int)
      requires Valid() && l in heads && b in heads
      modifies this
      ensures Valid() && heads == old(heads)[l := old(heads)[b]]
      ensures Updates(l) == old(Updates(b))
      ensures forall k :: k in heads && k != l ==> Updates(k) == old(Updates(k))
      ensures forall n :: n in nodes <==> exists k :: k in heads && Reaches(old(nodes), heads[k], n)
    {
      ghost var was := View();
      hide Inv;
      HeadIsThere(View(), multiset{}, b);
      var bh := heads[b];
      AddReference(bh, multiset{});
      ghost var mid := nodes;
      assert multiset{} + multiset{bh} == multiset{bh};
      DetachKeeps(View(), multiset{bh}, l);
      TryFreeNodes(l, multiset{bh});
      ghost var v := Without(l);
      AttachKeeps(v, multiset{}, l, bh);
      assert heads[b] == bh by { if b != l { assert (heads - {l})[b] == (was.heads - {l})[b]; } }
      heads := heads[l := heads[b]];
      assert heads == v.heads[l := bh] == was.heads[l := bh];
      assert View() == v.(heads := v.heads[l := bh]);
      SameChains(View(), was);
      PartTrans(nodes, mid, was.nodes);
      KeepsReachable(View(), was.nodes);
    }

    /** A new node in front of `h`, whose reference moves from the list to the node. */
    method NewNode(h: int, value: V) returns (n: int)
      requires h == -1 || (h in nodes && nodes[h].refCount > 0)
      requires limit !in nodes && -1 !in nodes && limit != -1
      modifies this`nodes, this`limit
      ensures n == old(limit) && limit == n + 1
      ensures nodes == WithNode(old(View()), h, value).nodes
    {
      n := limit;
      limit := limit + 1;
      if h != -1 {
        nodes := nodes[h := nodes[h].(refCount := nodes[h].refCount - 1)];
        nodes := nodes[n := Node(0, h, value, 1 + nodes[h].size)];
        nodes := nodes[h := nodes[h].(refCount := nodes[h].refCount + 1)];
      } else {
        nodes := nodes[n := Node(0, h, value, 1)];
      }
      nodes := nodes[n := nodes[n].(refCount := nodes[n].refCount + 1)];
    }

    /** One more write, seen by this list only. */
    method Extend(l: int, value: V)
      requires Valid() && l in heads
      modifies this
      ensures Valid() && heads.Keys == old(heads).Keys
      ensures Updates(l) == [value] + old(Updates(l))
      ensures forall k :: k in heads && k != l ==> Updates(k) == old(Updates(k))
    {
      hide Inv, WithNode;
      ghost var was, v := View(), Without(l);
      var h := heads[l];
      HeadIsThere(was, multiset{}, l);
      NewNodeSets(was, multiset{}, h, value);
      DetachKeeps(was, multiset{}, l);
      NodeKeeps(v, multiset{}, h, value);
      WithNodeHeads(was, v, h, value);
      AttachKeeps(WithNode(v, h, value), multiset{}, l, limit);
      var n := NewNode(h, value);
      heads := heads[l := n];
      assert heads == v.heads[l := n];
      assert View() == WithNode(v, h, value).(heads := v.heads[l := n]);
      ExtendedChains(was, View(), h, value);
    }

    /** A list goes away. */
    method Destroy(l: int)
      requires Valid() && l in heads
      modifies this
      ensures Valid() && heads == old(heads) - {l}
      ensures forall k :: k in heads ==> Updates(k) == old(Updates(k))
      ensures forall n :: n in nodes <==> exists k :: k in heads && Reaches(old(nodes), heads[k], n)
    {
      ghost var was := View();
      hide Inv;
      DetachKeeps(View(), multiset{}, l);
      TryFreeNodes(l, multiset{});
      heads := heads - {l};
      SameChains(View(), was);
      KeepsReachable(View(), was.nodes);
    }

    ghost function Contents(): (m: map<int, seq<V>>)
      reads this
    {
      map l | l in heads :: Updates(l)
    }

    method Perform(e: Event<V>)
      requires Valid()
      modifies this
      ensures Valid() && Contents() == Plain(old(Contents()), e)
    {
      hide Inv, Chain;
      if e.NewList? && e.l !in heads {
        ConstructEmpty(e.l);
      } else if e.CopyList? && e.l !in heads && e.b in heads {
        Copy(e.l, e.b);
      } else if e.AssignList? && e.l in heads && e.b in heads {
        Assign(e.l, e.b);
      } else if e.ExtendList? && e.l in heads {
        Extend(e.l, e.value);
      } else if e.DestroyList? && e.l in heads {
        Destroy(e.l);
      }
    }

    /** Main theorem: after any run each count is exact, nothing unreachable is left, and
        every list has the writes it would have if lists shared no nodes. */
    method Run(es: seq<Event<V>>)
      requires Valid()
      modifies this
      ensures Valid() && Contents() == PlainRun(old(Contents()), es)
      ensures forall n :: n in nodes ==> nodes[n].refCount == |Holders(View(), n)| + |Preds(View(), n)|
      ensures forall n :: n in nodes <==> exists k :: k in heads && Reaches(nodes, heads[k], n)
    {
      hide Chain, Holders, Preds;
      for i := 0 to |es|
        invariant Valid() && Contents() == PlainRun(old(Contents()), es[..i])
      {
        assert es[..i + 1][..i] == es[..i];
        Perform(es[i]);
      }
      assert es[..|es|] == es;
      forall n | n in nodes ensures nodes[n].refCount == |Holders(View(), n)| + |Preds(View(), n)| {
        assert Counted(View(), n, multiset{});
      }
      KeepsReachable(View(), nodes);
    }
  }

  lemma {:induction false} WithNodeHeads<V>(w: World<V>, v: World<V>, h: int, value: V)
    requires v.nodes == w.nodes && v.limit == w.limit
    ensures var r := WithNode(v, h, value);
            r.nodes == WithNode(w, h, value).nodes && r.heads == v.heads && r.limit == w.limit + 1
  { }

  lemma {:induction false} ExtendedChains<V>(was: World<V>, w: World<V>, h: int, value: V)
    requires Inv(was, multiset{}) && was.limit >= 0 && (h == -1 || h in was.nodes)
    requires w.nodes == WithNode(was, h, value).nodes
    ensures Chain(w.nodes, was.limit) == [value] + Chain(was.nodes, h)
    ensures forall l :: l in was.heads ==> Chain(w.nodes, was.heads[l]) == Chain(was.nodes, was.heads[l])
  {
    NewNodeSets(was, multiset{}, h, value);
    NoNullNode(was, multiset{});
    assert Part(was.nodes, w.nodes);
    forall n | n == h || (exists l :: l in was.heads && was.heads[l] == n)
      ensures Chain(w.nodes, n) == Chain(was.nodes, n)
    {
      if n != -1 { PartChain(was, multiset{}, w.nodes, n); }
    }
    if h != -1 { assert WfNode(was, h); }
  }

  lemma {:induction false} PartTrans<V>(a: map<int, Node<V>>, b: map<int, Node<V>>, c: map<int, Node<V>>)
    requires Part(a, b) && Part(b, c)
    ensures Part(a, c)
  { }

  lemma {:induction false} PartReaches<V>(w: World<V>, held: multiset<int>, a: map<int, Node<V>>, from: int, n: int)
    requires Inv(w, held) && Part(w.nodes, a) && from in w.nodes
    ensures Reaches(w.nodes, from, n) <==> Reaches(a, from, n)
    decreases from
  {
    assert WfNode(w, from);
    var k := w.nodes[from].next;
    if k in w.nodes { PartReaches(w, held, a, k, n); }
  }

  /** What is left of the nodes `was` is what the lists can still reach there. */
  lemma {:induction false} KeepsReachable<V>(w: World<V>, was: map<int, Node<V>>)
    requires Inv(w, multiset{}) && Part(w.nodes, was)
    ensures forall n :: n in w.nodes <==> exists k :: k in w.heads && Reaches(was, w.heads[k], n)
  {
    forall n ensures n in w.nodes <==> exists k :: k in w.heads && Reaches(was, w.heads[k], n) {
      NothingLeaks(w, n);
      forall k | k in w.heads ensures Reaches(w.nodes, w.heads[k], n) <==> Reaches(was, w.heads[k], n) {
        if w.heads[k] in w.nodes { PartReaches(w, multiset{}, was, w.heads[k], n); }
      }
    }
  }

  // ---------------------------------------------------------------------- whole runs

  datatype Event<V> =
    | NewList(l: int)
    | CopyList(l: int, b: int)
    | AssignList(l: int, b: int)
    | ExtendList(l: int, value: V)
    | DestroyList(l: int)

  /** The same step on lists that share nothing. */
  function Plain<V>(m: map<int, seq<V>>, e: Event<V>): (r: map<int, seq<V>>) {
    match e
    case NewList(l) => if l in m then m else m[l := []]
    case CopyList(l, b) => if l in m || b !in m then m else m[l := m[b]]
    case AssignList(l, b) => if l !in m || b !in m then m else m[l := m[b]]
    case ExtendList(l, value) => if l !in m then m else m[l := [value] + m[l]]
    case DestroyList(l) => m - {l}
  }

  function PlainRun<V>(m: map<int, seq<V>>, es: seq<Event<V>>): (r: map<int, seq<V>>) {
    if es == [] then m else Plain(PlainRun(m, es[..|es| - 1]), es[|es| - 1])
  }

  lemma {:induction false} NoNullNode<V>(w: World<V>, held: multiset<int>)
    requires Inv(w, held)
    ensures -1 !in w.nodes
  {
    forall n | n in w.nodes ensures n != -1 { assert WfNode(w, n); }
  }

  lemma {:induction false} HeadIsThere<V>(w: World<V>, held: multiset<int>, l: int)
    requires Inv(w, held) && l in w.heads
    ensures w.heads[l] == -1 || (w.heads[l] in w.nodes && w.nodes[w.heads[l]].refCount > 0)
    ensures -1 !in w.nodes
  {
    NoNullNode(w, held);
  }

  /** Lists that keep their heads keep their writes, whatever nodes were freed. */
  lemma {:induction false} SameChains<V>(w: World<V>, was: World<V>)
    requires Inv(w, multiset{}) && Inv(was, multiset{}) && Part(w.nodes, was.nodes)
    ensures forall l :: l in w.heads ==> Chain(w.nodes, w.heads[l]) == Chain(was.nodes, w.heads[l])
  {
    NoNullNode(w, multiset{});
    NoNullNode(was, multiset{});
    forall l | l in w.heads ensures Chain(w.nodes, w.heads[l]) == Chain(was.nodes, w.heads[l]) {
      if w.heads[l] != -1 { PartChain(w, multiset{}, was.nodes, w.heads[l]); }
    }
  }
}
