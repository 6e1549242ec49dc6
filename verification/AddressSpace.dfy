/** Copy-on-write address spaces.  Forks share objects; an epoch key decides which
    space may write an object in place.  The contents of an object are left open. */
module AddressSpaces {
  import opened Options

  /** An object state: the epoch of its owner (0 while unowned) and its contents. */
  datatype ObjectState<C> = ObjectState(owner: nat, contents: C)

  /** An address space: its epoch key, and the object each memory object is bound to. */
  datatype Space = Space(cowKey: nat, objects: map<int, int>)

  /** All object states that exist, and all address spaces. */
  datatype World<C> = World(heap: map<int, ObjectState<C>>, spaces: map<int, Space>)

  predicate Binds<C>(w: World<C>, s: int, mo: int, o: int) {
    s in w.spaces && mo in w.spaces[s].objects && w.spaces[s].objects[mo] == o
  }

  /** What space `s` finds in memory object `mo`. */
  function Look<C>(w: World<C>, s: int, mo: int): (c: Option<C>) {
    if s in w.spaces && mo in w.spaces[s].objects && w.spaces[s].objects[mo] in w.heap
    then Some(w.heap[w.spaces[s].objects[mo]].contents) else None
  }

  /** Every bound object exists, and its owner does not exceed the key of the space. */
  ghost predicate Bound<C>(w: World<C>) {
    && (forall s, mo, o :: Binds(w, s, mo, o) ==> o in w.heap && 1 <= w.heap[o].owner <= w.spaces[s].cowKey)
    && (forall s :: s in w.spaces ==> w.spaces[s].cowKey >= 1)
  }

  /** An object is bound under one name only, and one that two spaces reach has an
      owner strictly below both keys. */
  ghost predicate Exclusive<C>(w: World<C>)
    requires Bound(w)
  {
    forall s, t, m, n, o :: Binds(w, s, m, o) && Binds(w, t, n, o) ==>
      m == n && (s != t ==> w.heap[o].owner < w.spaces[s].cowKey)
  }

  ghost predicate Isolated<C>(w: World<C>) {
    Bound(w) && Exclusive(w)
  }

  // ----------------------------------------------------------- the operations

  /** The copy constructor: both spaces continue with the advanced key. */
  function ForkSpace<C>(w: World<C>, s: int, child: int): (r: World<C>)
    requires s in w.spaces
  {
    var b := w.spaces[s].(cowKey := w.spaces[s].cowKey + 1);
    w.(spaces := w.spaces[s := b][child := Space(b.cowKey, b.objects)])
  }

  function BindObject<C>(w: World<C>, s: int, mo: int, o: int): (r: World<C>)
    requires s in w.spaces && o in w.heap && w.heap[o].owner == 0
  {
    World(w.heap[o := w.heap[o].(owner := w.spaces[s].cowKey)],
          w.spaces[s := w.spaces[s].(objects := w.spaces[s].objects[mo := o])])
  }

  function UnbindObject<C>(w: World<C>, s: int, mo: int): (r: World<C>)
    requires s in w.spaces
  {
    w.(spaces := w.spaces[s := w.spaces[s].(objects := w.spaces[s].objects - {mo})])
  }

  /** The bound object itself when the space owns it, else a copy that it owns. */
  function GetWriteable<C>(w: World<C>, s: int, mo: int, copy: int): (r: World<C>)
    requires s in w.spaces && mo in w.spaces[s].objects && w.spaces[s].objects[mo] in w.heap
  {
    var os := w.heap[w.spaces[s].objects[mo]];
    if w.spaces[s].cowKey == os.owner then w
    else World(w.heap[copy := os.(owner := w.spaces[s].cowKey)],
               w.spaces[s := w.spaces[s].(objects := w.spaces[s].objects[mo := copy])])
  }

  lemma {:induction false} ForkIsolated<C>(w: World<C>, s: int, child: int)
    requires Isolated(w) && s in w.spaces && child !in w.spaces
    ensures Isolated(ForkSpace(w, s, child))
    ensures var r := ForkSpace(w, s, child);
            && s in r.spaces && child in r.spaces && r.spaces[s].cowKey == r.spaces[child].cowKey == w.spaces[s].cowKey + 1
            && forall t, m, o :: (t == s || t == child) && Binds(r, t, m, o) ==> o in r.heap && r.heap[o].owner < r.spaces[s].cowKey
    ensures forall t, m :: Look(ForkSpace(w, s, child), t, m) == Look(w, if t == child then s else t, m)
  {
    var r := ForkSpace(w, s, child);
    forall t, m, o | Binds(r, t, m, o)
      ensures Binds(w, if t == child then s else t, m, o)
      ensures o in r.heap && 1 <= r.heap[o].owner <= r.spaces[t].cowKey
      ensures t == s || t == child ==> r.heap[o].owner < r.spaces[t].cowKey
    {
      assert Binds(w, if t == child then s else t, m, o);
    }
  }

  lemma {:induction false} BindIsolated<C>(w: World<C>, s: int, mo: int, o: int)
    requires Isolated(w) && s in w.spaces && o in w.heap && w.heap[o].owner == 0
    ensures Isolated(BindObject(w, s, mo, o))
    ensures forall t, m ::
      (Look(BindObject(w, s, mo, o), t, m) == if t == s && m == mo then Some(w.heap[o].contents) else Look(w, t, m))
  {
    var r := BindObject(w, s, mo, o);
    forall t, m, p | Binds(r, t, m, p)
      ensures if t == s && m == mo then p == o else Binds(w, t, m, p) && p != o
    {
      if !(t == s && m == mo) { assert Binds(w, t, m, p); }
    }
    forall t, m ensures Look(r, t, m) == if t == s && m == mo then Some(w.heap[o].contents) else Look(w, t, m) {
      if t in w.spaces && m in w.spaces[t].objects && !(t == s && m == mo) {
        assert Binds(w, t, m, w.spaces[t].objects[m]);
      }
    }
  }

  lemma {:induction false} UnbindIsolated<C>(w: World<C>, s: int, mo: int)
    requires Isolated(w) && s in w.spaces
    ensures Isolated(UnbindObject(w, s, mo))
    ensures forall t, m ::
      (Look(UnbindObject(w, s, mo), t, m) == if t == s && m == mo then None else Look(w, t, m))
  {
    var r := UnbindObject(w, s, mo);
    forall t, m, p | Binds(r, t, m, p) ensures Binds(w, t, m, p) { }
  }

  /** After `GetWriteable` no other binding reaches the object, and nothing that any
      space can see has changed. */
  lemma {:induction false} GetWriteableIsolated<C>(w: World<C>, s: int, mo: int, copy: int)
    requires Isolated(w) && s in w.spaces && mo in w.spaces[s].objects && copy !in w.heap
    ensures Binds(w, s, mo, w.spaces[s].objects[mo])
    ensures var r := GetWriteable(w, s, mo, copy);
      && Isolated(r) && r.spaces.Keys == w.spaces.Keys && mo in r.spaces[s].objects && r.spaces[s].objects[mo] in r.heap
      && r.heap[r.spaces[s].objects[mo]].owner == r.spaces[s].cowKey
      && (forall t, m :: Look(r, t, m) == Look(w, t, m))
      && (forall t, m :: Binds(r, t, m, r.spaces[s].objects[mo]) ==> t == s && m == mo)
      && (r == w <==> w.heap[w.spaces[s].objects[mo]].owner == w.spaces[s].cowKey)
  {
    assert Binds(w, s, mo, w.spaces[s].objects[mo]);
    var r := GetWriteable(w, s, mo, copy);
    if r != w {
      forall t, m, p | Binds(r, t, m, p)
        ensures if t == s && m == mo then p == copy else Binds(w, t, m, p) && p != copy
      {
        if !(t == s && m == mo) { assert Binds(w, t, m, p); }
      }
      forall t, m ensures Look(r, t, m) == Look(w, t, m) {
        if t in w.spaces && m in w.spaces[t].objects {
          assert Binds(w, t, m, w.spaces[t].objects[m]);
        }
      }
    }
  }

  /** Storing new contents into an object that only one binding reaches. */
  lemma {:induction false} StoreIsolated<C>(w: World<C>, s: int, mo: int, c: C)
    requires Isolated(w) && s in w.spaces && mo in w.spaces[s].objects && w.spaces[s].objects[mo] in w.heap
    requires forall t, m :: Binds(w, t, m, w.spaces[s].objects[mo]) ==> t == s && m == mo
    ensures var o := w.spaces[s].objects[mo];
      var r := w.(heap := w.heap[o := w.heap[o].(contents := c)]);
      && Isolated(r)
      && forall t, m :: Look(r, t, m) == if t == s && m == mo then Some(c) else Look(w, t, m)
  {
    var o := w.spaces[s].objects[mo];
    var r := w.(heap := w.heap[o := w.heap[o].(contents := c)]);
    forall t, m, p | Binds(r, t, m, p) ensures Binds(w, t, m, p) { }
    forall t, m ensures Look(r, t, m) == if t == s && m == mo then Some(c) else Look(w, t, m) {
      if t in w.spaces && m in w.spaces[t].objects {
        assert Binds(w, t, m, w.spaces[t].objects[m]);
      }
    }
  }

  // ---------------------------------------------------------------- whole runs

  datatype Op<!C> =
    | Fork(space: int)
    | Bind(space: int, mo: int, contents: C)
    | Unbind(space: int, mo: int)
    | Write(space: int, mo: int, update: C -> C)

  /** Memory in which every space has its own private copy of everything. */
  datatype Plain<C> = Plain(spaces: nat, mem: (int, int) -> Option<C>)

  ghost predicate Enabled<C>(p: Plain<C>, op: Op<C>) {
    0 <= op.space < p.spaces && (op.Write? ==> p.mem(op.space, op.mo).Some?)
  }

  ghost function Step<C>(p: Plain<C>, op: Op<C>): (r: Plain<C>)
    requires Enabled(p, op)
  {
    match op
    case Fork(s) => Plain(p.spaces + 1, (t, m) => if t == p.spaces then p.mem(s, m) else p.mem(t, m))
    case Bind(s, mo, c) => p.(mem := (t, m) => if t == s && m == mo then Some(c) else p.mem(t, m))
    case Unbind(s, mo) => p.(mem := (t, m) => if t == s && m == mo then None else p.mem(t, m))
    case Write(s, mo, f) =>
      var c := f(p.mem(s, mo).value);
      p.(mem := (t, m) => if t == s && m == mo then Some(c) else p.mem(t, m))
  }

  ghost predicate Runs<C>(p: Plain<C>, ops: seq<Op<C>>)
    decreases |ops|
  {
    ops != [] ==> Enabled(p, ops[0]) && Runs(Step(p, ops[0]), ops[1..])
  }

  ghost function Final<C>(p: Plain<C>, ops: seq<Op<C>>): (r: Plain<C>)
    requires Runs(p, ops)
    decreases |ops|
  {
    if ops == [] then p else Final(Step(p, ops[0]), ops[1..])
  }

  /** The program: all address spaces and all objects, changed in place. */
  class Machine<C> {
    var world: World<C>
    var nextObject: int
    var nextSpace: nat

    ghost predicate Valid()
      reads this
    {
      && Isolated(world)
      && (forall o :: o in world.heap ==> o < nextObject)
      && (forall s :: s in world.spaces <==> 0 <= s < nextSpace)
    }

    /** The shared objects look like the private copies of the plain memory. */
    ghost predicate LooksLike(p: Plain<C>)
      reads this
    {
      p.spaces == nextSpace && forall t, m :: Look(world, t, m) == p.mem(t, m)
    }

    constructor ()
      ensures Valid() && LooksLike(Plain(1, (t, m) => None))
    {
      world := World(map[], map[0 := Space(1, map[])]);
      nextObject, nextSpace := 0, 1;
    }

    method Perform(op: Op<C>, ghost p: Plain<C>)
      requires Valid() && LooksLike(p) && Enabled(p, op)
      modifies this
      ensures Valid() && LooksLike(Step(p, op))
    {
      if op.Fork? {
        ForkIsolated(world, op.space, nextSpace);
        world := ForkSpace(world, op.space, nextSpace);
        nextSpace := nextSpace + 1;
      } else if op.Bind? {
        var o := nextObject;
        AllocIsolated(world, o, op.contents);
        world := world.(heap := world.heap[o := ObjectState(0, op.contents)]);
        nextObject := nextObject + 1;
        BindIsolated(world, op.space, op.mo, o);
        world := BindObject(world, op.space, op.mo, o);
      } else if op.Unbind? {
        UnbindIsolated(world, op.space, op.mo);
        world := UnbindObject(world, op.space, op.mo);
      } else {
        assert Look(world, op.space, op.mo).Some?;
        WriteObject(op.space, op.mo, op.update);
      }
    }

    /** A write is seen by the space that made it, and by no other. */
    method WriteObject(s: int, mo: int, update: C -> C)
      requires Valid() && s in world.spaces && mo in world.spaces[s].objects
      modifies this
      ensures Valid() && nextSpace == old(nextSpace) && old(Look(world, s, mo)).Some?
      ensures forall t, m ::
        (Look(world, t, m) == if t == s && m == mo then Some(update(old(Look(world, s, mo)).value))
                              else old(Look(world, t, m)))
    {
      GetWriteableIsolated(world, s, mo, nextObject);
      world := GetWriteable(world, s, mo, nextObject);
      nextObject := nextObject + 1;
      var o := world.spaces[s].objects[mo];
      var c := update(world.heap[o].contents);
      StoreIsolated(world, s, mo, c);
      world := world.(heap := world.heap[o := world.heap[o].(contents := c)]);
    }

    /** Main theorem: over every run, sharing with copy-on-write cannot be told from
        private copies, and ownership stays exclusive. */
    method Run(ops: seq<Op<C>>, ghost p: Plain<C>)
      requires Valid() && LooksLike(p) && Runs(p, ops)
      modifies this
      ensures Valid() && LooksLike(Final(p, ops))
    {
      ghost var q := p;
      assert ops[0..] == ops;
      for i := 0 to |ops|
        invariant Valid() && LooksLike(q)
        invariant Runs(q, ops[i..]) && Final(q, ops[i..]) == Final(p, ops)
      {
        assert ops[i..][1..] == ops[i + 1..];
        Perform(ops[i], q);
        q := Step(q, ops[i]);
      }
    }
  }

  /** A new object that nothing binds yet changes nothing. */
  lemma {:induction false} AllocIsolated<C>(w: World<C>, o: int, c: C)
    requires Isolated(w) && o !in w.heap
    ensures var r := w.(heap := w.heap[o := ObjectState(0, c)]);
      Isolated(r) && forall t, m :: Look(r, t, m) == Look(w, t, m)
  {
    var r := w.(heap := w.heap[o := ObjectState(0, c)]);
    forall t, m, p | Binds(r, t, m, p) ensures Binds(w, t, m, p) { }
    forall t, m ensures Look(r, t, m) == Look(w, t, m) {
      if t in w.spaces && m in w.spaces[t].objects {
        assert Binds(w, t, m, w.spaces[t].objects[m]);
      }
    }
  }
}
