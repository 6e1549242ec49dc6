/** The open-merge / close-merge protocol: states that reach a close point are taken
    out of the searcher until every state inside the merge region has left it. */
module MergeProtocol {

  /** One `klee_open_merge`: the states still inside the region, how many stack entries
      refer to it, and the states waiting at each close instruction. */
  datatype Handler = Handler(openStates: set<int>, refCount: nat, reached: map<int, set<int>>)

  /** Handlers are numbered in the order they are created. */
  datatype World = World(
    stacks: map<int, seq<int>>,
    handlers: map<int, Handler>,
    runnable: set<int>,
    paused: set<int>,
    inCloseMerge: set<int>,
    mergeGroups: set<int>,
    nextHandler: int,
    nextState: int)

  predicate OnStack(w: World, s: int, h: int) {
    s in w.stacks && h in w.stacks[s]
  }

  /** State `s` waits in handler `h` at close instruction `i`. */
  predicate Waits(w: World, s: int, h: int, i: int) {
    h in w.handlers && i in w.handlers[h].reached && s in w.handlers[h].reached[i]
  }

  predicate Increasing(xs: seq<int>) {
    forall i, j :: 0 <= i < j < |xs| ==> xs[i] < xs[j]
  }

  /** Stacks hold live handlers, in order of creation. */
  ghost predicate StacksOk(w: World) {
    && (forall s :: s in w.stacks ==> s < w.nextState && Increasing(w.stacks[s]))
    && (forall s, h :: OnStack(w, s, h) ==> h in w.handlers)
  }

  /** A handler tracks exactly the states that have it on their stack, and counts them. */
  ghost predicate HandlersOk(w: World) {
    && (forall h :: h in w.handlers ==> h < w.nextHandler && w.handlers[h].refCount == |w.handlers[h].openStates|)
    && (forall h, s :: h in w.handlers ==> (s in w.handlers[h].openStates <==> OnStack(w, s, h)))
    && w.mergeGroups == w.handlers.Keys
  }

  /** A state is paused exactly while it waits, in one place, in a handler newer than
      everything on its stack. */
  ghost predicate WaitingOk(w: World) {
    && (forall s :: s in w.paused ==> exists h, i :: Waits(w, s, h, i))
    && (forall s, h, i :: Waits(w, s, h, i) ==> s in w.paused)
    && (forall s, h, i, h', i' :: Waits(w, s, h, i) && Waits(w, s, h', i') ==> h == h' && i == i')
    && (forall s, h, i, g :: Waits(w, s, h, i) && OnStack(w, s, g) ==> g < h)
  }

  ghost predicate ScheduleOk(w: World) {
    && w.stacks.Keys == w.runnable + w.paused
    && w.runnable !! w.paused
    && w.inCloseMerge == w.paused
  }

  ghost predicate Inv(w: World) {
    StacksOk(w) && HandlersOk(w) && WaitingOk(w) && ScheduleOk(w)
  }

  /** No handler is left that nothing refers to. */
  ghost predicate NoneDead(w: World) {
    forall h :: h in w.handlers ==> w.handlers[h].refCount > 0
  }

  // ---------------------------------------------------------------- no deadlock

  lemma {:induction false} LiveHandlerIsOpen(w: World, h: int) returns (t: int)
    requires Inv(w) && h in w.handlers && w.handlers[h].refCount > 0
    ensures OnStack(w, t, h) && t in w.stacks
  {
    var inside := w.handlers[h].openStates;
    assert (forall x :: x !in inside) ==> inside == {};
    t :| t in inside;
  }

  /** Following waiting states to ever newer handlers must end at a runnable state. */
  lemma {:induction false} SomeRunnable(w: World, h: int) returns (s: int)
    requires Inv(w) && NoneDead(w) && h in w.handlers
    ensures s in w.runnable
    decreases w.nextHandler - h
  {
    var t := LiveHandlerIsOpen(w, h);
    if t in w.runnable {
      s := t;
    } else {
      assert t in w.paused;
      var g, i :| Waits(w, t, g, i);
      s := SomeRunnable(w, g);
    }
  }

  /** Main theorem: while any state is paused, some state can run; and every paused state
      waits in a live handler that some state still has on its stack. */
  lemma {:induction false} NoDeadlock(w: World)
    requires Inv(w) && NoneDead(w) && w.paused != {}
    ensures w.runnable != {}
    ensures forall s :: s in w.paused ==> exists h, i, t :: Waits(w, s, h, i) && OnStack(w, t, h)
  {
    forall s | s in w.paused ensures exists h, i, t :: Waits(w, s, h, i) && OnStack(w, t, h) {
      var h, i :| Waits(w, s, h, i);
      var t := LiveHandlerIsOpen(w, h);
    }
    var s :| s in w.paused;
    var h, i :| Waits(w, s, h, i);
    var t := SomeRunnable(w, h);
  }

  // ----------------------------------------------------------- elementary steps

  /** Opening a region: a new handler, newest of all, on top of the stack. */
  function Open(w: World, s: int): (r: World)
    requires s in w.stacks
  {
    var h := w.nextHandler;
    w.(stacks := w.stacks[s := w.stacks[s] + [h]],
       handlers := w.handlers[h := Handler({s}, 1, map[])],
       mergeGroups := w.mergeGroups + {h},
       nextHandler := h + 1)
  }

  /** Copying a state registers the copy with every handler on the stack it inherits. */
  function Fork(w: World, s: int): (r: World)
    requires s in w.stacks
  {
    var c := w.nextState;
    w.(stacks := w.stacks[c := w.stacks[s]],
       handlers := EnlistOn(w.handlers, w.stacks[s], c),
       runnable := w.runnable + {c},
       nextState := c + 1)
  }

  function EnlistOn(hs: map<int, Handler>, stack: seq<int>, c: int): (r: map<int, Handler>) {
    map h | h in hs :: if h in stack then Enlist(hs[h], c) else hs[h]
  }

  function Enlist(h: Handler, c: int): (r: Handler) {
    h.(openStates := h.openStates + {c}, refCount := h.refCount + 1)
  }

  function Delist(h: Handler, s: int): (r: Handler)
    requires h.refCount > 0
  {
    h.(openStates := h.openStates - {s}, refCount := h.refCount - 1)
  }

  /** State `s` keeps only the bottom `n` entries of its stack. */
  function Leave(w: World, s: int, n: nat): (r: World)
    requires s in w.stacks && n <= |w.stacks[s]|
    requires forall h :: h in w.handlers && h in w.stacks[s] ==> w.handlers[h].refCount > 0
    ensures r.nextHandler == w.nextHandler && r.nextState == w.nextState
  {
    w.(stacks := w.stacks[s := w.stacks[s][..n]],
       handlers := map h | h in w.handlers ::
         if h in w.stacks[s] && h !in w.stacks[s][..n] then Delist(w.handlers[h], s) else w.handlers[h])
  }

  function Joined(h: Handler, s: int, i: int): (r: Handler) {
    h.(reached := h.reached[i := (if i in h.reached then h.reached[i] else {}) + {s}])
  }

  /** State `s` starts to wait in handler `h` at close instruction `i`. */
  function Park(w: World, s: int, h: int, i: int): (r: World)
    requires h in w.handlers
    ensures r.nextHandler == w.nextHandler && r.nextState == w.nextState
  {
    w.(handlers := w.handlers[h := Joined(w.handlers[h], s, i)],
       runnable := w.runnable - {s},
       paused := w.paused + {s},
       inCloseMerge := w.inCloseMerge + {s})
  }

  /** The states waiting in handler `h`. */
  function Waiting(h: Handler): (r: set<int>)
    ensures forall s :: s in r <==> exists i :: i in h.reached && s in h.reached[i]
  {
    set i, s | i in h.reached && s in h.reached[i] :: s
  }

  /** Every state waiting in handler `h` goes back to the base searcher. */
  function Release(w: World, h: int): (r: World)
    requires h in w.handlers
  {
    var freed := Waiting(w.handlers[h]);
    w.(handlers := w.handlers[h := w.handlers[h].(reached := map[])],
       runnable := w.runnable + freed,
       paused := w.paused - freed,
       inCloseMerge := w.inCloseMerge - freed)
  }

  /** A handler nothing refers to is taken off the list of merge groups and releases
      what waits in it. */
  function Destroy(w: World, h: int): (r: World)
    requires h in w.handlers
  {
    var r := Release(w, h);
    r.(handlers := r.handlers - {h}, mergeGroups := r.mergeGroups - {h})
  }

  /** A state with an empty stack is deleted. */
  function Drop(w: World, s: int): (r: World) {
    w.(stacks := w.stacks - {s}, runnable := w.runnable - {s})
  }

  // ------------------------------------------------------------- each step keeps

  lemma {:induction false} OpenKeeps(w: World, s: int)
    requires Inv(w) && s in w.runnable
    ensures s in w.stacks && Inv(Open(w, s))
    ensures NoneDead(w) ==> NoneDead(Open(w, s))
    ensures var r := Open(w, s);
            && w.nextHandler !in w.handlers
            && (forall t, g :: OnStack(r, t, g) <==> OnStack(w, t, g) || (t == s && g == w.nextHandler))
            && (forall t, g, i :: Waits(r, t, g, i) <==> Waits(w, t, g, i))
  {
    assert s in w.stacks;
    var r, h := Open(w, s), w.nextHandler;
    forall t, g ensures OnStack(r, t, g) <==> OnStack(w, t, g) || (t == s && g == h) {
      if t == s { assert r.stacks[t] == w.stacks[s] + [h]; }
    }
    forall x | x in w.stacks[s] ensures x < h { assert OnStack(w, s, x); }
    var before, after := w.stacks[s], w.stacks[s] + [h];
    assert Increasing(after) by {
      forall i, j | 0 <= i < j < |after| ensures after[i] < after[j] {
        if j == |before| { assert before[i] in before; }
      }
    }
    forall t, g, i ensures Waits(r, t, g, i) <==> Waits(w, t, g, i) {
      assert Waits(w, t, g, i) ==> g < h;
    }
    assert StacksOk(r);
  }

  lemma {:induction false} ForkKeeps(w: World, s: int)
    requires Inv(w) && s in w.runnable
    ensures s in w.stacks && Inv(Fork(w, s))
    ensures NoneDead(w) ==> NoneDead(Fork(w, s))
    ensures var r, c := Fork(w, s), w.nextState;
            && c !in w.stacks && c in r.stacks && r.stacks[c] == w.stacks[s]
            && (forall t, g :: OnStack(r, t, g) <==> OnStack(w, t, g) || (t == c && OnStack(w, s, g)))
            && (forall t, g, i :: Waits(r, t, g, i) <==> Waits(w, t, g, i))
  {
    assert s in w.stacks;
    var r, c := Fork(w, s), w.nextState;
    forall t, g ensures OnStack(r, t, g) <==> OnStack(w, t, g) || (t == c && OnStack(w, s, g)) { }
    forall t, g, i ensures Waits(r, t, g, i) <==> Waits(w, t, g, i) { }
    assert c !in w.stacks && c !in w.paused;
    forall g | g in w.handlers ensures c !in w.handlers[g].openStates { assert !OnStack(w, c, g); }
  }

  lemma {:induction false} OpenHandlersAreCounted(w: World, s: int)
    requires Inv(w) && s in w.stacks
    ensures forall h :: h in w.handlers && h in w.stacks[s] ==> w.handlers[h].refCount > 0
    ensures forall h :: h in w.stacks[s] ==> h in w.handlers
  {
    forall h | h in w.stacks[s] ensures h in w.handlers && w.handlers[h].refCount > 0 {
      assert OnStack(w, s, h);
      assert s in w.handlers[h].openStates;
    }
  }

  lemma {:induction false} LeaveKeeps(w: World, s: int, n: nat)
    requires Inv(w) && s in w.stacks && n <= |w.stacks[s]|
    ensures forall h :: h in w.handlers && h in w.stacks[s] ==> w.handlers[h].refCount > 0
    ensures Inv(Leave(w, s, n))
    ensures var r := Leave(w, s, n);
            && r.stacks == w.stacks[s := w.stacks[s][..n]] && r.runnable == w.runnable
            && r.handlers.Keys == w.handlers.Keys
            && (forall t, g, j :: Waits(r, t, g, j) <==> Waits(w, t, g, j))
            && (forall g :: g in w.handlers && (g !in w.stacks[s] || g in w.stacks[s][..n]) ==> r.handlers[g] == w.handlers[g])
  {
    OpenHandlersAreCounted(w, s);
    var r := Leave(w, s, n);
    forall t, g ensures OnStack(r, t, g) <==> OnStack(w, t, g) && (t != s || g in w.stacks[s][..n]) { }
    forall t, g, i ensures Waits(r, t, g, i) <==> Waits(w, t, g, i) { }
    forall g | g in w.handlers ensures r.handlers[g].refCount == |r.handlers[g].openStates| {
      if g in w.stacks[s] { assert OnStack(w, s, g); }
    }
  }

  lemma {:induction false} ParkFacts(w: World, s: int, h: int, i: int)
    requires h in w.handlers
    ensures var r := Park(w, s, h, i);
            && r.stacks == w.stacks && r.handlers.Keys == w.handlers.Keys
            && (forall t, g :: OnStack(r, t, g) <==> OnStack(w, t, g))
            && (forall t, g, j :: Waits(r, t, g, j) <==> Waits(w, t, g, j) || (t == s && g == h && j == i))
            && (forall g :: g in w.handlers && g != h ==> r.handlers[g] == w.handlers[g])
            && r.handlers[h].refCount == w.handlers[h].refCount
            && r.handlers[h].openStates == w.handlers[h].openStates
            && r.runnable == w.runnable - {s} && r.paused == w.paused + {s}
            && r.inCloseMerge == w.inCloseMerge + {s} && r.mergeGroups == w.mergeGroups
            && r.nextHandler == w.nextHandler && r.nextState == w.nextState
  {
    var r := Park(w, s, h, i);
    forall t, g, j ensures Waits(r, t, g, j) <==> Waits(w, t, g, j) || (t == s && g == h && j == i) { }
  }

  lemma {:induction false} ParkWaiting(w: World, s: int, h: int, i: int)
    requires WaitingOk(w) && s !in w.paused && h in w.handlers
    requires forall g :: OnStack(w, s, g) ==> g < h
    ensures WaitingOk(Park(w, s, h, i))
  {
    ParkFacts(w, s, h, i);
    var r := Park(w, s, h, i);
    hide Park, OnStack, Waits;
    assert Waits(r, s, h, i);
    forall t | t in r.paused ensures exists g, j :: Waits(r, t, g, j) {
      if t != s {
        var g, j :| Waits(w, t, g, j);
        assert Waits(r, t, g, j);
      }
    }
    forall g, j ensures !Waits(w, s, g, j) { }
  }

  lemma {:induction false} ParkHandlers(w: World, s: int, h: int, i: int)
    requires HandlersOk(w) && h in w.handlers
    ensures HandlersOk(Park(w, s, h, i))
  {
    var r := Park(w, s, h, i);
    forall g, t | g in r.handlers ensures t in r.handlers[g].openStates <==> OnStack(r, t, g) {
      assert OnStack(r, t, g) <==> OnStack(w, t, g);
    }
  }

  lemma {:induction false} MoveKeeps(all: set<int>, running: set<int>, waiting: set<int>, s: int)
    requires all == running + waiting && running !! waiting && s in running
    ensures all == (running - {s}) + (waiting + {s}) && (running - {s}) !! (waiting + {s})
  { }

  lemma {:induction false} ParkKeeps(w: World, s: int, h: int, i: int)
    requires Inv(w) && s in w.runnable && h in w.handlers
    requires forall g :: OnStack(w, s, g) ==> g < h
    ensures Inv(Park(w, s, h, i))
  {
    ParkWaiting(w, s, h, i);
    ParkHandlers(w, s, h, i);
    hide Waits, Increasing, WaitingOk, HandlersOk, Joined;
    MoveKeeps(w.stacks.Keys, w.runnable, w.paused, s);
    var r := Park(w, s, h, i);
    forall t, g | OnStack(r, t, g) ensures g in r.handlers { assert OnStack(w, t, g); }
    assert StacksOk(r);
  }

  lemma {:induction false} ReleaseKeeps(w: World, h: int)
    requires Inv(w) && h in w.handlers
    ensures Inv(Release(w, h))
    ensures NoneDead(w) ==> NoneDead(Release(w, h))
    ensures Waiting(w.handlers[h]) <= w.paused
    ensures forall t, g, j :: Waits(Release(w, h), t, g, j) <==> Waits(w, t, g, j) && g != h
  {
    var r := Release(w, h);
    forall t, g ensures OnStack(r, t, g) <==> OnStack(w, t, g) { }
    forall t, g, j ensures Waits(r, t, g, j) <==> Waits(w, t, g, j) && g != h { }
    forall t | t in Waiting(w.handlers[h]) ensures t in w.paused && (forall g, j :: Waits(w, t, g, j) ==> g == h) {
      var j :| j in w.handlers[h].reached && t in w.handlers[h].reached[j];
      assert Waits(w, t, h, j);
    }
  }

  lemma {:induction false} DestroyKeeps(w: World, h: int)
    requires Inv(w) && h in w.handlers && w.handlers[h].refCount == 0
    ensures Inv(Destroy(w, h))
  {
    ReleaseKeeps(w, h);
    var q, r := Release(w, h), Destroy(w, h);
    assert w.handlers[h].openStates == {};
    forall t, g ensures OnStack(r, t, g) <==> OnStack(q, t, g) { }
    forall t ensures !OnStack(w, t, h) { }
    forall t, g, j ensures Waits(r, t, g, j) <==> Waits(q, t, g, j) { }
    assert forall t :: !OnStack(q, t, h);
  }

  lemma {:induction false} DropKeeps(w: World, s: int)
    requires Inv(w) && s in w.runnable && s in w.stacks && w.stacks[s] == []
    ensures Inv(Drop(w, s))
    ensures NoneDead(w) ==> NoneDead(Drop(w, s))
  {
    var r := Drop(w, s);
    forall t, g ensures OnStack(r, t, g) <==> OnStack(w, t, g) { }
    forall t, g, j ensures Waits(r, t, g, j) <==> Waits(w, t, g, j) { }
  }

  // ---------------------------------------------------- the steps of the protocol

  function Reap(w: World, h: int): (r: World)
    requires h in w.handlers
    ensures r.nextHandler == w.nextHandler && r.nextState == w.nextState
  {
    if w.handlers[h].refCount == 0 then Destroy(w, h) else w
  }

  /** `s` gives up its newest handler; if it was the last to hold it, everything that
      waits there becomes runnable again. */
  function Pop(w: World, s: int): (r: World)
    requires Inv(w) && NoneDead(w) && s in w.stacks && w.stacks[s] != []
    ensures Inv(r) && NoneDead(r)
    ensures r.stacks == w.stacks[s := w.stacks[s][..|w.stacks[s]| - 1]]
    ensures s in w.runnable ==> s in r.runnable
    ensures r.handlers.Keys <= w.handlers.Keys
    ensures r.nextHandler == w.nextHandler && r.nextState == w.nextState
    ensures forall t, g, j :: Waits(r, t, g, j) <==> Waits(w, t, g, j) && g in r.handlers
  {
    PopKeeps(w, s);
    Reap(Leave(w, s, |w.stacks[s]| - 1), w.stacks[s][|w.stacks[s]| - 1])
  }

  lemma {:induction false} TopIsNewest(w: World, s: int)
    requires Inv(w) && s in w.stacks && w.stacks[s] != []
    ensures var n := |w.stacks[s]| - 1;
            && w.stacks[s][n] in w.handlers
            && (forall g :: g in w.stacks[s][..n] ==> g < w.stacks[s][n])
            && (forall g :: g in w.stacks[s] <==> g == w.stacks[s][n] || g in w.stacks[s][..n])
  {
    var n := |w.stacks[s]| - 1;
    assert OnStack(w, s, w.stacks[s][n]);
    assert w.stacks[s] == w.stacks[s][..n] + [w.stacks[s][n]];
  }

  lemma {:induction false} PopKeeps(w: World, s: int)
    requires Inv(w) && NoneDead(w) && s in w.stacks && w.stacks[s] != []
    ensures var n := |w.stacks[s]| - 1;
            var h := w.stacks[s][n];
            && (forall h :: h in w.handlers && h in w.stacks[s] ==> w.handlers[h].refCount > 0)
            && h in w.handlers
            && var r := Reap(Leave(w, s, n), h);
               && Inv(r) && NoneDead(r)
               && r.stacks == w.stacks[s := w.stacks[s][..n]]
               && (s in w.runnable ==> s in r.runnable) && r.handlers.Keys <= w.handlers.Keys
               && (forall t, g, j :: Waits(r, t, g, j) <==> Waits(w, t, g, j) && g in r.handlers)
  {
    var n := |w.stacks[s]| - 1;
    TopIsNewest(w, s);
    LeaveKeeps(w, s, n);
    ReapKeeps(Leave(w, s, n), w.stacks[s][n]);
  }

  lemma {:induction false} ReapKeeps(w: World, h: int)
    requires Inv(w) && h in w.handlers
    requires forall g :: g in w.handlers && g != h ==> w.handlers[g].refCount > 0
    ensures var r := Reap(w, h);
            && Inv(r) && NoneDead(r) && r.stacks == w.stacks && w.runnable <= r.runnable
            && r.handlers.Keys <= w.handlers.Keys
            && (forall t, g, j :: Waits(r, t, g, j) <==> Waits(w, t, g, j) && g in r.handlers)
  {
    var r := Reap(w, h);
    if w.handlers[h].refCount == 0 {
      DestroyKeeps(w, h);
    }
    forall t, g, j ensures Waits(r, t, g, j) <==> Waits(w, t, g, j) && g in r.handlers { }
  }

  /** Deleting a state: it gives up all its handlers. */
  function Terminate(w: World, s: int): (r: World)
    requires Inv(w) && NoneDead(w) && s in w.runnable && s in w.stacks
    ensures Inv(r) && NoneDead(r)
    ensures r.stacks == w.stacks - {s} && r.handlers.Keys <= w.handlers.Keys
    ensures r.nextHandler == w.nextHandler && r.nextState == w.nextState
    ensures forall t, g, j :: Waits(r, t, g, j) <==> Waits(w, t, g, j) && g in r.handlers
    decreases |w.stacks[s]|
  {
    if w.stacks[s] == [] then
      DropKeeps(w, s);
      assert forall t, g, j :: Waits(Drop(w, s), t, g, j) <==> Waits(w, t, g, j);
      Drop(w, s)
    else
      Terminate(Pop(w, s), s)
  }

  /** A close instruction that does not merge: `s` waits in its newest handler. */
  function Wait(w: World, s: int, i: int): (r: World)
    requires Inv(w) && NoneDead(w) && s in w.runnable && s in w.stacks && w.stacks[s] != []
    ensures Inv(r) && NoneDead(r) && r.nextHandler == w.nextHandler && r.nextState == w.nextState
    ensures var n := |w.stacks[s]| - 1;
            var h := w.stacks[s][n];
            && r.stacks == w.stacks[s := w.stacks[s][..n]]
            && (forall t, g, j :: Waits(r, t, g, j) <==>
                 (Waits(w, t, g, j) || (t == s && g == h && j == i)) && g in r.handlers)
  {
    WaitKeeps(w, s, i);
    hide Leave, Park, Reap, Waits, Inv, NoneDead;
    var n := |w.stacks[s]| - 1;
    var h := w.stacks[s][n];
    Reap(Park(Leave(w, s, n), s, h, i), h)
  }

  lemma {:induction false} WaitKeeps(w: World, s: int, i: int)
    requires Inv(w) && NoneDead(w) && s in w.runnable && s in w.stacks && w.stacks[s] != []
    ensures var n := |w.stacks[s]| - 1;
            var h := w.stacks[s][n];
            && (forall h :: h in w.handlers && h in w.stacks[s] ==> w.handlers[h].refCount > 0)
            && h in w.handlers
            && var r := Reap(Park(Leave(w, s, n), s, h, i), h);
            && Inv(r) && NoneDead(r)
            && r.stacks == w.stacks[s := w.stacks[s][..n]]
            && (forall t, g, j :: Waits(r, t, g, j) <==>
                 (Waits(w, t, g, j) || (t == s && g == h && j == i)) && g in r.handlers)
  {
    var n := |w.stacks[s]| - 1;
    var h := w.stacks[s][n];
    TopIsNewest(w, s);
    LeaveKeeps(w, s, n);
    var q := Leave(w, s, n);
    hide Leave, Park, Reap, Waits, Inv, Increasing;
    forall g | OnStack(q, s, g) ensures g < h { }
    ParkKeeps(q, s, h, i);
    ParkFacts(q, s, h, i);
    ReapKeeps(Park(q, s, h, i), h);
  }

  // ------------------------------------------------------------------ whole runs

  /** One step of the engine; `merges` is the answer of the attempt to merge with a state
      already waiting at the same instruction. */
  datatype Event =
    | OpenMerge(s: int)
    | ForkState(s: int)
    | CloseMerge(s: int, inst: int, merges: bool)
    | TerminateState(s: int)
    | ReleaseStates(h: int)

  /** Some state waits at instruction `i` of the newest handler of `s`. */
  predicate Arrived(w: World, s: int, i: int)
    requires s in w.stacks && w.stacks[s] != []
  {
    var h := w.stacks[s][|w.stacks[s]| - 1];
    h in w.handlers && i in w.handlers[h].reached && w.handlers[h].reached[i] != {}
  }

  ghost predicate AnyWaits(w: World, h: int, i: int) {
    exists t :: Waits(w, t, h, i)
  }

  lemma {:induction false} ArrivedMeans(w: World, s: int, i: int)
    requires s in w.stacks && w.stacks[s] != []
    ensures Arrived(w, s, i) <==> AnyWaits(w, w.stacks[s][|w.stacks[s]| - 1], i)
  {
    var h := w.stacks[s][|w.stacks[s]| - 1];
    if Arrived(w, s, i) {
      var waiting := w.handlers[h].reached[i];
      assert (forall x :: x !in waiting) ==> waiting == {};
      var t :| t in waiting;
      assert Waits(w, t, h, i);
    }
  }

  /** A close without an open changes nothing; a merged state is gone, and with it its
      references; any other state now waits in the handler it had on top, unless that
      handler died and let it go. */
  function CloseStep(w: World, s: int, i: int, merges: bool): (r: World)
    requires Inv(w) && NoneDead(w) && s in w.runnable && s in w.stacks
    ensures Inv(r) && NoneDead(r) && r.nextHandler == w.nextHandler && r.nextState == w.nextState
    ensures w.stacks[s] == [] ==> r == w
    ensures w.stacks[s] != [] && merges && AnyWaits(w, w.stacks[s][|w.stacks[s]| - 1], i) ==>
      && s !in r.stacks && (forall t :: t != s ==> (t in r.stacks <==> t in w.stacks))
      && (forall t :: t != s && t in w.stacks ==> r.stacks[t] == w.stacks[t])
      && (forall t, g, j :: Waits(r, t, g, j) <==> Waits(w, t, g, j) && g in r.handlers)
    ensures w.stacks[s] != [] && !(merges && AnyWaits(w, w.stacks[s][|w.stacks[s]| - 1], i)) ==>
      var n := |w.stacks[s]| - 1;
      var h := w.stacks[s][n];
      && r.stacks == w.stacks[s := w.stacks[s][..n]]
      && (forall t, g, j :: Waits(r, t, g, j) <==>
           (Waits(w, t, g, j) || (t == s && g == h && j == i)) && g in r.handlers)
  {
    if w.stacks[s] == [] then w
    else
      ArrivedMeans(w, s, i);
      if Arrived(w, s, i) && merges then Terminate(Pop(w, s), s)
    else Wait(w, s, i)
  }

  /** What an event does; the current state is always one the base searcher holds. */
  function Step(w: World, e: Event): (r: World)
    requires Inv(w) && NoneDead(w)
    ensures Inv(r) && NoneDead(r)
  {
    match e
    case ReleaseStates(h) =>
      if h !in w.handlers then w else ReleaseKeeps(w, h); Release(w, h)
    case OpenMerge(s) =>
      if s !in w.runnable then w else OpenKeeps(w, s); Open(w, s)
    case ForkState(s) =>
      if s !in w.runnable then w else ForkKeeps(w, s); Fork(w, s)
    case CloseMerge(s, i, merges) =>
      if s !in w.runnable then w else assert s in w.stacks; CloseStep(w, s, i, merges)
    case TerminateState(s) =>
      if s !in w.runnable then w else assert s in w.stacks; Terminate(w, s)
  }

  function Start(): (r: World)
    ensures Inv(r) && NoneDead(r)
  {
    World(map[0 := []], map[], {0}, {}, {}, {}, 0, 1)
  }

  function RunFrom(w: World, es: seq<Event>): (r: World)
    requires Inv(w) && NoneDead(w)
    ensures Inv(r) && NoneDead(r)
    decreases |es|
  {
    if es == [] then w else RunFrom(Step(w, es[0]), es[1..])
  }

  /** Main theorem: after any run, a handler lives exactly while some state has it on its
      stack, each paused state waits in exactly one place, in such a handler, and while a
      state is paused another can run. */
  lemma {:induction false} RunIsSafe(es: seq<Event>)
    ensures var w := RunFrom(Start(), es);
            && (forall h :: h in w.handlers <==> exists t :: OnStack(w, t, h))
            && (forall s :: s in w.paused <==> exists h, i :: Waits(w, s, h, i))
            && (forall s, h, i, h', i' :: Waits(w, s, h, i) && Waits(w, s, h', i') ==> h == h' && i == i')
            && w.stacks.Keys == w.runnable + w.paused && w.runnable !! w.paused
            && (w.paused != {} ==> w.runnable != {})
  {
    var w := RunFrom(Start(), es);
    forall h | h in w.handlers ensures exists t :: OnStack(w, t, h) {
      var t := LiveHandlerIsOpen(w, h);
    }
    if w.paused != {} { NoDeadlock(w); }
  }

  // --------------------------------------------------- telling the base searcher

  /** What the base searcher holds after an update, which forwards nothing while the
      current state is paused. */
  function Updated(base: set<int>, current: int, paused: set<int>, added: set<int>, removed: set<int>): (r: set<int>) {
    if current in paused then base else base + added - removed
  }

  function Added(w: World, r: World): (s: set<int>) { r.stacks.Keys - w.stacks.Keys }

  function Removed(w: World, r: World): (s: set<int>) { w.stacks.Keys - r.stacks.Keys }

  predicate IsCurrent(w: World, e: Event) { !e.ReleaseStates? && e.s in w.runnable }

  /** A step that leaves the current state paused creates and deletes no state. */
  lemma {:induction false} PausedAddsNothing(w: World, e: Event)
    requires Inv(w) && NoneDead(w) && IsCurrent(w, e)
    ensures e.s in Step(w, e).paused ==> Added(w, Step(w, e)) == {} && Removed(w, Step(w, e)) == {}
    ensures Added(w, Step(w, e)) !! Step(w, e).paused
  {
    var r := Step(w, e);
    assert e.s in w.stacks;
    hide Inv, NoneDead, Terminate, Wait, Pop, StacksOk, HandlersOk, WaitingOk;
    if e.OpenMerge? {
      assert r.stacks.Keys == w.stacks.Keys;
    } else if e.ForkState? {
      ForkedIsRunnable(w, e.s);
    } else {
      NoStateAppears(w, r, e.s);
    }
  }

  lemma {:induction false} ForkedIsRunnable(w: World, s: int)
    requires Inv(w) && s in w.runnable && s in w.stacks
    ensures var r := Fork(w, s);
            s !in r.paused && Added(w, r) == {w.nextState} && w.nextState !in r.paused
  {
    ForkKeeps(w, s);
  }

  /** Closing and terminating create no state, and delete none that is paused then. */
  lemma {:induction false} NoStateAppears(w: World, r: World, s: int)
    requires forall t :: t != s ==> (t in r.stacks <==> t in w.stacks)
    requires s in w.stacks && r.paused <= r.stacks.Keys
    ensures Added(w, r) == {} && (s in r.paused ==> Removed(w, r) == {})
  {
    forall t ensures t !in Added(w, r) { }
    if s in r.paused {
      assert s in r.stacks;
      forall t ensures t !in Removed(w, r) { }
      assert Removed(w, r) == {};
    }
  }

  /** So the base searcher always ends up with the runnable states: it already holds what
      was paused and continued during the step, and the update brings the rest. */
  lemma {:induction false} UpdateDropsNothing(w: World, e: Event)
    requires Inv(w) && NoneDead(w) && IsCurrent(w, e)
    ensures var r := Step(w, e);
            var added, removed := Added(w, r), Removed(w, r);
            Updated(r.runnable - added + removed, e.s, r.paused, added, removed) == r.runnable
  {
    PausedAddsNothing(w, e);
    var r := Step(w, e);
    assert ScheduleOk(r);
    hide Step, StacksOk, HandlersOk, WaitingOk, NoneDead;
  }

  /** When the last state inside a region reaches its end, nobody is left waiting there. */
  lemma {:induction false} LastCloseReleases(w: World, s: int, i: int)
    requires Inv(w) && NoneDead(w) && s in w.runnable && s in w.stacks && w.stacks[s] != []
    requires var h := w.stacks[s][|w.stacks[s]| - 1]; forall t :: OnStack(w, t, h) ==> t == s
    ensures var r := Wait(w, s, i);
            var h := w.stacks[s][|w.stacks[s]| - 1];
            && h !in r.handlers && s in r.runnable
            && (forall t, j :: Waits(w, t, h, j) ==> t in r.runnable)
  {
    var r := Wait(w, s, i);
    var n := |w.stacks[s]| - 1;
    var h := w.stacks[s][n];
    hide Wait;
    TopIsNewest(w, s);
    if h in r.handlers {
      var t := LiveHandlerIsOpen(r, h);
      assert false;
    }
    forall t | t == s || exists j :: Waits(w, t, h, j) ensures t in r.runnable {
      assert t in r.stacks;
      forall g, j ensures !Waits(r, t, g, j) { }
    }
  }

  // -------------------------------------------------------------- the engine itself

  lemma {:induction false} LeavingTheTop(w: World, s: int)
    requires Inv(w) && NoneDead(w) && s in w.stacks && w.stacks[s] != []
    ensures forall h :: h in w.handlers && h in w.stacks[s] ==> w.handlers[h].refCount > 0
    ensures var n := |w.stacks[s]| - 1;
            var h := w.stacks[s][n];
            && h in w.handlers && s in w.handlers[h].openStates
            && Leave(w, s, n) == w.(stacks := w.stacks[s := w.stacks[s][..n]],
                                    handlers := w.handlers[h := Delist(w.handlers[h], s)])
            && (forall t :: t in Waiting(w.handlers[h]) ==> t in w.paused)
  {
    var n := |w.stacks[s]| - 1;
    var h := w.stacks[s][n];
    TopIsNewest(w, s);
    OpenHandlersAreCounted(w, s);
    assert OnStack(w, s, h);
    ReleaseKeeps(w, h);
    assert Leave(w, s, n).handlers == w.handlers[h := Delist(w.handlers[h], s)];
  }

  /** The newest reference of a stack goes away, and its handler with the last one. */
  function Unref(w: World, s: int): (r: World)
    requires CanUnref(w, s)
  {
    var n := |w.stacks[s]| - 1;
    var h := w.stacks[s][n];
    Reap(w.(stacks := w.stacks[s := w.stacks[s][..n]],
            handlers := w.handlers[h := w.handlers[h].(refCount := w.handlers[h].refCount - 1)]), h)
  }

  predicate CanUnref(w: World, s: int) {
    && s in w.stacks && w.stacks[s] != []
    && var h := w.stacks[s][|w.stacks[s]| - 1];
       && h in w.handlers && h in w.mergeGroups && w.handlers[h].refCount > 0
       && Waiting(w.handlers[h]) <= w.paused
  }

  function Without(h: Handler, s: int): (r: Handler) { h.(openStates := h.openStates - {s}) }

  lemma {:induction false} PopByUnref(w: World, s: int)
    requires Inv(w) && NoneDead(w) && s in w.stacks && w.stacks[s] != []
    ensures var h := w.stacks[s][|w.stacks[s]| - 1];
            && h in w.handlers && s in w.handlers[h].openStates
            && var q := w.(handlers := w.handlers[h := Without(w.handlers[h], s)]);
               CanUnref(q, s) && Unref(q, s) == Pop(w, s)
  {
    LeavingTheTop(w, s);
    hide Reap, StacksOk, WaitingOk, ScheduleOk;
    var h := w.stacks[s][|w.stacks[s]| - 1];
    var q := w.(handlers := w.handlers[h := Without(w.handlers[h], s)]);
    assert Waiting(q.handlers[h]) == Waiting(w.handlers[h]);
    assert CanUnref(q, s);
  }

  /** The world in which `s` has joined the waiting states but still holds its reference. */
  function Joining(w: World, s: int, h: int, i: int): (r: World)
    requires h in w.handlers
  {
    Park(w.(handlers := w.handlers[h := Without(w.handlers[h], s)]), s, h, i)
  }

  lemma {:induction false} JoiningCanUnref(w: World, s: int, h: int, i: int)
    requires s in w.stacks && w.stacks[s] != [] && h == w.stacks[s][|w.stacks[s]| - 1]
    requires h in w.handlers && h in w.mergeGroups && w.handlers[h].refCount > 0
    requires forall t :: t in Waiting(w.handlers[h]) ==> t in w.paused
    ensures CanUnref(Joining(w, s, h, i), s)
  {
    var q := Joining(w, s, h, i);
    forall t | t in Waiting(q.handlers[h]) ensures t in q.paused {
      assert t != s ==> t in Waiting(w.handlers[h]);
    }
  }

  lemma {:induction false} JoinedCommutes(a: Handler, s: int, i: int)
    requires a.refCount > 0
    ensures Joined(Delist(a, s), s, i)
         == (var b := Joined(Without(a, s), s, i); b.(refCount := b.refCount - 1))
    ensures Joined(Without(a, s), s, i).refCount == a.refCount
  { }

  lemma {:induction false} ParkAfterLeave(w: World, s: int, h: int, i: int, st: map<int, seq<int>>)
    requires h in w.handlers && w.handlers[h].refCount > 0
    ensures var q := Joining(w, s, h, i);
            && q.stacks == w.stacks && h in q.handlers && q.handlers[h].refCount > 0
            && Park(w.(stacks := st, handlers := w.handlers[h := Delist(w.handlers[h], s)]), s, h, i)
            == q.(stacks := st, handlers := q.handlers[h := q.handlers[h].(refCount := q.handlers[h].refCount - 1)])
  {
    JoinedCommutes(w.handlers[h], s, i);
    hide Joined, Delist, Without;
  }

  lemma {:induction false} RunnableFacts(w: World, s: int)
    requires Inv(w) && s in w.runnable
    ensures s !in w.paused && s !in w.inCloseMerge && w.mergeGroups == w.handlers.Keys
  {
    hide StacksOk, WaitingOk;
  }

  lemma {:induction false} WaitUnfolds(w: World, s: int, i: int, n: nat, h: int)
    requires Inv(w) && NoneDead(w) && s in w.runnable && s in w.stacks && n + 1 == |w.stacks[s]| && h == w.stacks[s][n]
    requires h in w.handlers && forall g :: g in w.handlers && g in w.stacks[s] ==> w.handlers[g].refCount > 0
    ensures h in Leave(w, s, n).handlers && h in Park(Leave(w, s, n), s, h, i).handlers
    ensures Wait(w, s, i) == Reap(Park(Leave(w, s, n), s, h, i), h)
  {
    hide Inv, NoneDead, Reap, Joined, Delist;
  }

  lemma {:induction false} WaitByUnref(w: World, s: int, i: int)
    requires Inv(w) && NoneDead(w) && s in w.runnable && s in w.stacks && w.stacks[s] != []
    ensures var h := w.stacks[s][|w.stacks[s]| - 1];
            && h in w.handlers && s in w.handlers[h].openStates && s !in w.inCloseMerge && s !in w.paused
            && var q := Joining(w, s, h, i);
               CanUnref(q, s) && Unref(q, s) == Wait(w, s, i)
  {
    hide *;
    var n := |w.stacks[s]| - 1;
    var h := w.stacks[s][n];
    var st := w.stacks[s := w.stacks[s][..n]];
    LeavingTheTop(w, s);
    RunnableFacts(w, s);
    TopIsCounted(w, s);
    WaitUnfolds(w, s, i, n, h);
    JoiningCanUnref(w, s, h, i);
    ParkAfterLeave(w, s, h, i, st);
    UnrefUnfolds(Joining(w, s, h, i), s);
  }

  lemma {:induction false} TopIsCounted(w: World, s: int)
    requires Inv(w) && s in w.stacks && w.stacks[s] != []
    ensures var h := w.stacks[s][|w.stacks[s]| - 1]; h in w.handlers && w.handlers[h].refCount > 0
  {
    OpenHandlersAreCounted(w, s);
    hide Inv;
  }

  lemma {:induction false} UnrefUnfolds(w: World, s: int)
    requires CanUnref(w, s)
    ensures var n := |w.stacks[s]| - 1;
            var h := w.stacks[s][n];
            && s in w.stacks && w.stacks[s] != [] && h in w.handlers && w.handlers[h].refCount > 0
            && Unref(w, s) == Reap(w.(stacks := w.stacks[s := w.stacks[s][..n]],
                 handlers := w.handlers[h := w.handlers[h].(refCount := w.handlers[h].refCount - 1)]), h)
  {
    hide Reap, Waiting;
  }

  /** The merging searcher together with the handlers and states it schedules. The
      conditions the engine asserts are preconditions or assertions here. */
  class MergingSearcher {
    var stacks: map<int, seq<int>>
    var handlers: map<int, Handler>
    var baseStates: set<int>
    var pausedStates: set<int>
    var inCloseMerge: set<int>
    var mergeGroups: set<int>
    var nextHandler: int
    var nextState: int

    function View(): (r: World)
      reads this
    {
      World(stacks, handlers, baseStates, pausedStates, inCloseMerge, mergeGroups, nextHandler, nextState)
    }

    constructor ()
      ensures View() == Start()
    {
      stacks, handlers, baseStates, pausedStates := map[0 := []], map[], {0}, {};
      inCloseMerge, mergeGroups, nextHandler, nextState := {}, {}, 0, 1;
    }

    method PauseState(s: int)
      requires s !in pausedStates
      modifies this`baseStates, this`pausedStates
      ensures baseStates == old(baseStates) - {s} && pausedStates == old(pausedStates) + {s}
    {
      pausedStates := pausedStates + {s};
      baseStates := baseStates - {s};
    }

    method ContinueState(s: int)
      requires s in pausedStates
      modifies this`baseStates, this`pausedStates
      ensures baseStates == old(baseStates) + {s} && pausedStates == old(pausedStates) - {s}
    {
      pausedStates := pausedStates - {s};
      baseStates := baseStates + {s};
    }

    /** Each waiting state is still paused when its turn comes: none is continued twice. */
    method ReleaseWaiting(h: int)
      requires h in handlers && Waiting(handlers[h]) <= pausedStates
      modifies this`baseStates, this`pausedStates, this`inCloseMerge, this`handlers
      ensures View() == Release(old(View()), h)
    {
      ghost var base, paused, closing := baseStates, pausedStates, inCloseMerge;
      var all := Waiting(handlers[h]);
      var left := all;
      while left != {}
        invariant left <= all <= paused
        invariant baseStates == base + (all - left)
        invariant pausedStates == paused - (all - left)
        invariant inCloseMerge == closing - (all - left)
        decreases |left|
        modifies this`baseStates, this`pausedStates, this`inCloseMerge
      {
        var s :| s in left;
        ContinueState(s);
        inCloseMerge := inCloseMerge - {s};
        left := left - {s};
      }
      assert all - left == all;
      handlers := handlers[h := handlers[h].(reached := map[])];
    }

    method RemoveOpenState(h: int, s: int)
      requires h in handlers && s in handlers[h].openStates
      modifies this`handlers
      ensures handlers == old(handlers)[h := Without(old(handlers)[h], s)]
    {
      handlers := handlers[h := Without(handlers[h], s)];
    }

    method PopStack(s: int)
      requires CanUnref(View(), s)
      modifies this`stacks, this`baseStates, this`pausedStates, this`inCloseMerge, this`handlers, this`mergeGroups
      ensures View() == Unref(old(View()), s)
    {
      var n := |stacks[s]| - 1;
      var h := stacks[s][n];
      stacks := stacks[s := stacks[s][..n]];
      assert Waiting(handlers[h].(refCount := handlers[h].refCount - 1)) == Waiting(handlers[h]);
      handlers := handlers[h := handlers[h].(refCount := handlers[h].refCount - 1)];
      if handlers[h].refCount == 0 {
        assert h in mergeGroups;
        mergeGroups := mergeGroups - {h};
        ReleaseWaiting(h);
        handlers := handlers - {h};
      }
    }

    method HandleOpenMerge(s: int)
      requires Inv(View()) && NoneDead(View()) && s in baseStates
      modifies this
      ensures s in old(stacks) && View() == Open(old(View()), s)
      ensures Inv(View()) && NoneDead(View())
    {
      OpenKeeps(View(), s);
      var h := nextHandler;
      nextHandler := h + 1;
      mergeGroups := mergeGroups + {h};
      handlers := handlers[h := Handler({s}, 1, map[])];
      stacks := stacks[s := stacks[s] + [h]];
    }

    method AddOpenStates(stack: seq<int>, c: int)
      requires Increasing(stack) && forall h :: h in stack ==> h in handlers
      modifies this`handlers
      ensures handlers == EnlistOn(old(handlers), stack, c)
    {
      hide Enlist;
      var k := 0;
      assert handlers == EnlistOn(handlers, [], c);
      while k < |stack|
        invariant 0 <= k <= |stack| && handlers == EnlistOn(old(handlers), stack[..k], c)
      {
        var h := stack[k];
        assert h !in stack[..k];
        assert stack[..k + 1] == stack[..k] + [h];
        handlers := handlers[h := Enlist(handlers[h], c)];
        k := k + 1;
      }
      assert stack[..k] == stack;
    }

    /** The copy of a state registers itself with each handler on the copied stack. */
    method CopyState(s: int) returns (c: int)
      requires Inv(View()) && NoneDead(View()) && s in baseStates && s in stacks
      modifies this
      ensures View() == Fork(old(View()), s) && c == old(nextState)
      ensures Inv(View()) && NoneDead(View())
    {
      ForkKeeps(View(), s);
      OpenHandlersAreCounted(View(), s);
      assert Increasing(stacks[s]);
      hide Inv, NoneDead, EnlistOn;
      c := nextState;
      AddOpenStates(stacks[s], c);
      stacks := stacks[c := stacks[s]];
      baseStates := baseStates + {c};
      nextState := c + 1;
    }

    /** The state leaves its newest handler without waiting there. */
    method LeaveTop(s: int)
      requires Inv(View()) && NoneDead(View()) && s in stacks && stacks[s] != []
      modifies this`stacks, this`baseStates, this`pausedStates, this`inCloseMerge, this`handlers, this`mergeGroups
      ensures View() == Pop(old(View()), s)
    {
      PopByUnref(View(), s);
      hide Inv, NoneDead, Pop, Unref, CanUnref;
      RemoveOpenState(stacks[s][|stacks[s]| - 1], s);
      PopStack(s);
    }

    /** The state is taken out of the region and paused at instruction `i`. */
    method AddClosedState(s: int, h: int, i: int)
      requires h in handlers && s in handlers[h].openStates && s !in pausedStates && s !in inCloseMerge
      modifies this`baseStates, this`pausedStates, this`inCloseMerge, this`handlers
      ensures View() == Joining(old(View()), s, h, i)
    {
      inCloseMerge := inCloseMerge + {s};
      RemoveOpenState(h, s);
      handlers := handlers[h := Joined(handlers[h], s, i)];
      PauseState(s);
      hide Joined, Without;
    }

    /** The state joins those waiting at instruction `i` in its newest handler. */
    method WaitAtTop(s: int, i: int)
      requires Inv(View()) && NoneDead(View()) && s in baseStates && s in stacks && stacks[s] != []
      modifies this`stacks, this`baseStates, this`pausedStates, this`inCloseMerge, this`handlers, this`mergeGroups
      ensures View() == Wait(old(View()), s, i)
    {
      WaitByUnref(View(), s, i);
      hide Inv, NoneDead, Wait, Unref, CanUnref, Joining;
      AddClosedState(s, stacks[s][|stacks[s]| - 1], i);
      PopStack(s);
    }

    method HandleCloseMerge(s: int, i: int, merges: bool)
      requires Inv(View()) && NoneDead(View()) && s in baseStates && s in stacks
      modifies this
      ensures View() == CloseStep(old(View()), s, i, merges)
      ensures Inv(View()) && NoneDead(View())
    {
      hide Inv, NoneDead, Pop, Wait, Terminate;
      if stacks[s] != [] {
        if Arrived(View(), s, i) && merges {
          LeaveTop(s);
          TerminateCurrent(s);
        } else {
          WaitAtTop(s, i);
        }
      }
    }

    /** The state leaves every handler on its stack and is deleted. */
    method TerminateCurrent(s: int)
      requires Inv(View()) && NoneDead(View()) && s in baseStates && s in stacks
      modifies this
      ensures View() == Terminate(old(View()), s)
      ensures Inv(View()) && NoneDead(View())
    {
      hide Inv, NoneDead, Pop;
      while stacks[s] != []
        invariant Inv(View()) && NoneDead(View()) && s in baseStates && s in stacks
        invariant Terminate(View(), s) == Terminate(old(View()), s)
        decreases if s in stacks then |stacks[s]| else 0
      {
        LeaveTop(s);
      }
      DropKeeps(View(), s);
      stacks := stacks - {s};
      baseStates := baseStates - {s};
    }
  }
}
