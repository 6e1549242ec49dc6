/** The merge protocol without handlers: only who is inside which regions, and who waits
    where. The engine's bookkeeping follows this over every run. */
module MergeRuns {
  import opened MergeProtocol

  /** Where a state waits: the region, and the instruction that closes it. */
  datatype Place = Place(region: int, inst: int)

  /** Each state's open regions, outermost first, and the places of the waiting states. */
  datatype Plain = Plain(stacks: map<int, seq<int>>, places: map<int, Place>, nextRegion: int, nextState: int)

  /** Some state is inside region `h`. */
  ghost predicate Inside(stacks: map<int, seq<int>>, h: int) {
    exists t :: t in stacks && h in stacks[t]
  }

  /** Nobody waits for a region that everyone has left. */
  ghost function LetGo(p: Plain): (r: Plain) {
    p.(places := map s | s in p.places && Inside(p.stacks, p.places[s].region) :: p.places[s])
  }

  predicate Runs(p: Plain, s: int) { s in p.stacks && s !in p.places }

  predicate Occupied(p: Plain, place: Place) { exists t :: t in p.places && p.places[t] == place }

  ghost function PlainStep(p: Plain, e: Event): (r: Plain) {
    match e
    case OpenMerge(s) =>
      if !Runs(p, s) then p
      else p.(stacks := p.stacks[s := p.stacks[s] + [p.nextRegion]], nextRegion := p.nextRegion + 1)
    case ForkState(s) =>
      if !Runs(p, s) then p else p.(stacks := p.stacks[p.nextState := p.stacks[s]], nextState := p.nextState + 1)
    case TerminateState(s) =>
      if !Runs(p, s) then p else LetGo(p.(stacks := p.stacks - {s}))
    case CloseMerge(s, i, merges) =>
      if !Runs(p, s) || p.stacks[s] == [] then p
      else
        var n := |p.stacks[s]| - 1;
        var place := Place(p.stacks[s][n], i);
        if merges && Occupied(p, place) then LetGo(p.(stacks := p.stacks - {s}))
        else LetGo(p.(stacks := p.stacks[s := p.stacks[s][..n]], places := p.places[s := place]))
    case ReleaseStates(h) =>
      p.(places := map s | s in p.places && p.places[s].region != h :: p.places[s])
  }

  ghost function PlainRun(es: seq<Event>): (r: Plain) {
    if es == [] then Plain(map[0 := []], map[], 0, 1) else PlainStep(PlainRun(es[..|es| - 1]), es[|es| - 1])
  }

  /** The engine's state shows exactly these regions and places. */
  ghost predicate Mirrors(w: World, p: Plain) {
    && w.stacks == p.stacks && w.nextHandler == p.nextRegion && w.nextState == p.nextState
    && (forall s, h, i :: Waits(w, s, h, i) <==> s in p.places && p.places[s] == Place(h, i))
  }

  // --------------------------------------------------------------- each step mirrors

  /** Handlers live exactly while some state is inside. */
  lemma {:induction false} HandlersInside(w: World)
    requires Inv(w) && NoneDead(w)
    ensures forall h :: h in w.handlers <==> Inside(w.stacks, h)
  {
    forall h ensures h in w.handlers <==> Inside(w.stacks, h) {
      if h in w.handlers {
        var t := LiveHandlerIsOpen(w, h);
      }
      if Inside(w.stacks, h) {
        var t :| t in w.stacks && h in w.stacks[t];
        assert OnStack(w, t, h);
      }
    }
  }

  lemma {:induction false} RunnableRuns(w: World, p: Plain, s: int)
    requires Inv(w) && Mirrors(w, p)
    ensures s in w.runnable <==> Runs(p, s)
    ensures s in w.runnable ==> s in w.stacks
  {
    if s in p.places { assert Waits(w, s, p.places[s].region, p.places[s].inst); }
    if s in w.paused { var h, i :| Waits(w, s, h, i); }
  }

  lemma {:induction false} OccupiedWaits(w: World, p: Plain, h: int, i: int)
    requires Mirrors(w, p)
    ensures Occupied(p, Place(h, i)) <==> AnyWaits(w, h, i)
  {
    if AnyWaits(w, h, i) {
      var t :| Waits(w, t, h, i);
      assert p.places[t] == Place(h, i);
    }
    if Occupied(p, Place(h, i)) {
      var t :| t in p.places && p.places[t] == Place(h, i);
      assert Waits(w, t, h, i);
    }
  }

  /** A step after which states wait where they did or in the given new places, as far as
      the handlers are still there. */
  lemma {:induction false} LetGoMirrors(w: World, r: World, p: Plain, q: Plain)
    requires Mirrors(w, p) && Inv(r) && NoneDead(r)
    requires r.stacks == q.stacks && r.nextHandler == q.nextRegion && r.nextState == q.nextState
    requires forall s, h, i :: Waits(r, s, h, i) <==> s in q.places && q.places[s] == Place(h, i) && h in r.handlers
    ensures Mirrors(r, LetGo(q))
  {
    HandlersInside(r);
    hide Inv, NoneDead, Inside, Waits;
  }

  lemma {:induction false} OpenMirrors(w: World, p: Plain, s: int)
    requires Inv(w) && NoneDead(w) && Mirrors(w, p)
    ensures Mirrors(Step(w, OpenMerge(s)), PlainStep(p, OpenMerge(s)))
  {
    RunnableRuns(w, p, s);
    if s in w.runnable { OpenKeeps(w, s); }
    hide Inv, NoneDead, Waits;
  }

  lemma {:induction false} ForkMirrors(w: World, p: Plain, s: int)
    requires Inv(w) && NoneDead(w) && Mirrors(w, p)
    ensures Mirrors(Step(w, ForkState(s)), PlainStep(p, ForkState(s)))
  {
    RunnableRuns(w, p, s);
    if s in w.runnable { ForkKeeps(w, s); }
    hide Inv, NoneDead, Waits;
  }

  lemma {:induction false} TerminateMirrors(w: World, p: Plain, s: int)
    requires Inv(w) && NoneDead(w) && Mirrors(w, p)
    ensures Mirrors(Step(w, TerminateState(s)), PlainStep(p, TerminateState(s)))
  {
    RunnableRuns(w, p, s);
    hide Inv, NoneDead, Waits, Terminate, LetGo;
    if s in w.runnable { LetGoMirrors(w, Terminate(w, s), p, p.(stacks := p.stacks - {s})); }
  }

  lemma {:induction false} MergedMirrors(w: World, p: Plain, s: int, i: int)
    requires Inv(w) && NoneDead(w) && Mirrors(w, p) && s in w.runnable && s in w.stacks && w.stacks[s] != []
    requires AnyWaits(w, w.stacks[s][|w.stacks[s]| - 1], i)
    ensures Mirrors(CloseStep(w, s, i, true), LetGo(p.(stacks := p.stacks - {s})))
  {
    hide Inv, NoneDead, Waits, CloseStep, LetGo, AnyWaits;
    var r := CloseStep(w, s, i, true);
    assert r.stacks == w.stacks - {s};
    LetGoMirrors(w, r, p, p.(stacks := p.stacks - {s}));
  }

  lemma {:induction false} ParkedMirrors(w: World, p: Plain, s: int, i: int, merges: bool)
    requires Inv(w) && NoneDead(w) && Mirrors(w, p) && s in w.runnable && s in w.stacks && w.stacks[s] != []
    requires !(merges && AnyWaits(w, w.stacks[s][|w.stacks[s]| - 1], i))
    ensures var n := |w.stacks[s]| - 1;
            var q := p.(stacks := p.stacks[s := p.stacks[s][..n]], places := p.places[s := Place(w.stacks[s][n], i)]);
            Mirrors(CloseStep(w, s, i, merges), LetGo(q))
  {
    RunnableRuns(w, p, s);
    hide Inv, NoneDead, Waits, CloseStep, LetGo, AnyWaits;
    var n := |w.stacks[s]| - 1;
    var q := p.(stacks := p.stacks[s := p.stacks[s][..n]], places := p.places[s := Place(w.stacks[s][n], i)]);
    LetGoMirrors(w, CloseStep(w, s, i, merges), p, q);
  }

  lemma {:induction false} CloseMirrors(w: World, p: Plain, s: int, i: int, merges: bool)
    requires Inv(w) && NoneDead(w) && Mirrors(w, p)
    ensures Mirrors(Step(w, CloseMerge(s, i, merges)), PlainStep(p, CloseMerge(s, i, merges)))
  {
    RunnableRuns(w, p, s);
    assert w.stacks == p.stacks;
    hide Inv, NoneDead, CloseStep, LetGo, AnyWaits, Occupied, Mirrors, Waits, Runs;
    if s in w.runnable && w.stacks[s] != [] {
      OccupiedWaits(w, p, w.stacks[s][|w.stacks[s]| - 1], i);
      if merges && AnyWaits(w, w.stacks[s][|w.stacks[s]| - 1], i) {
        MergedMirrors(w, p, s, i);
      } else {
        ParkedMirrors(w, p, s, i, merges);
      }
    }
  }

  lemma {:induction false} ReleaseMirrors(w: World, p: Plain, h: int)
    requires Inv(w) && NoneDead(w) && Mirrors(w, p)
    ensures Mirrors(Step(w, ReleaseStates(h)), PlainStep(p, ReleaseStates(h)))
  {
    if h in w.handlers {
      ReleaseKeeps(w, h);
    } else {
      forall s, i ensures !Waits(w, s, h, i) { }
    }
    hide Inv, NoneDead, Waits;
  }

  lemma {:induction false} StepMirrors(w: World, p: Plain, e: Event)
    requires Inv(w) && NoneDead(w) && Mirrors(w, p)
    ensures Mirrors(Step(w, e), PlainStep(p, e))
  {
    hide *;
    match e
    case OpenMerge(s) => OpenMirrors(w, p, s);
    case ForkState(s) => ForkMirrors(w, p, s);
    case CloseMerge(s, i, merges) => CloseMirrors(w, p, s, i, merges);
    case TerminateState(s) => TerminateMirrors(w, p, s);
    case ReleaseStates(h) => ReleaseMirrors(w, p, h);
  }

  lemma {:induction false} RunFromAppend(w: World, es: seq<Event>, e: Event)
    requires Inv(w) && NoneDead(w)
    ensures RunFrom(w, es + [e]) == Step(RunFrom(w, es), e)
    decreases |es|
  {
    hide Step, Inv, NoneDead;
    if es == [] {
      assert ([] + [e])[1..] == [];
    } else {
      assert (es + [e])[1..] == es[1..] + [e];
      RunFromAppend(Step(w, es[0]), es[1..], e);
    }
  }

  /** Main theorem: over every run, handlers, reference counts, merge groups and the sets of
      paused and closing states amount to the plain account of regions and places. */
  lemma {:induction false} RunMirrors(es: seq<Event>)
    ensures Mirrors(RunFrom(Start(), es), PlainRun(es))
  {
    if es == [] {
      assert RunFrom(Start(), []) == Start();
    } else {
      var n := |es| - 1;
      assert es == es[..n] + [es[n]];
      RunMirrors(es[..n]);
      RunFromAppend(Start(), es[..n], es[n]);
      StepMirrors(RunFrom(Start(), es[..n]), PlainRun(es[..n]), es[n]);
      hide Step, PlainStep, Mirrors, RunFrom;
    }
  }
}
