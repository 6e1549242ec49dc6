/** Runs of accesses on an object, against the same accesses on a plain array. */
module MemoryRuns {
  import opened Bits
  import opened Exprs
  import opened Create
  import opened Canonical
  import opened ByteArrays
  import opened Memory

  datatype Access =
    | ReadFrom(offset: Expr, width: nat)
    | WriteTo(offset: Expr, value: Expr)
    | Zero
    | Random
    | Duplicate

  /** What the object demands of an access: sensible widths, expressions built by the
      constructors, and constant offsets in bounds. */
  ghost predicate Allowed(op: Access, size: nat) {
    match op
    case ReadFrom(offset, width) => AllowedAt(offset, width, size)
    case WriteTo(offset, value) => Wf(value) && Canon(value) && AllowedAt(offset, Width(value), size)
    case _ => true
  }

  ghost predicate AllowedAt(offset: Expr, width: nat, size: nat) {
    && IsAccessWidth(width) && BytesFor(width) <= size && Wf(offset) && Canon(offset)
    && (Offset32(offset).Constant? ==> Offset32(offset).value + BytesFor(width) <= size)
  }

  /** Expressions built by the constructors, such as those read from an object. */
  ghost predicate AllBuilt(es: seq<Expr>) {
    forall k :: 0 <= k < |es| ==> Wf(es[k]) && Canon(es[k])
  }

  /** A client chooses each access from what it has read so far, so that a pointer read
      may be the next offset. */
  ghost predicate Obeys(client: (nat, seq<Expr>) -> Access, n: nat, size: nat) {
    forall i, es :: 0 <= i < n && AllBuilt(es) ==> Allowed(client(i, es), size)
  }

  function Reads(ops: seq<Access>): (n: nat) {
    if ops == [] then 0 else Reads(ops[..|ops| - 1]) + if ops[|ops| - 1].ReadFrom? then 1 else 0
  }

  /** The access is in bounds under the assignment. */
  ghost predicate InBounds(op: Access, size: nat, a: Assignment)
    requires Allowed(op, size)
  {
    match op
    case ReadFrom(offset, width) => Wrap(Eval(offset, a), DOMAIN) + BytesFor(width) <= size
    case WriteTo(offset, value) => Wrap(Eval(offset, a), DOMAIN) + BytesFor(Width(value)) <= size
    case _ => true
  }

  ghost predicate AllAllowed(ops: seq<Access>, size: nat) {
    forall i :: 0 <= i < |ops| ==> Allowed(ops[i], size)
  }

  ghost predicate AllInBounds(ops: seq<Access>, size: nat, a: Assignment)
    requires AllAllowed(ops, size)
  {
    forall i :: 0 <= i < |ops| ==> InBounds(ops[i], size, a)
  }

  /** A plain array and the values loaded from it so far. */
  datatype Plain = Plain(bytes: seq<nat>, loaded: seq<nat>)

  ghost function Step(p: Plain, op: Access, little: bool, a: Assignment): (r: Plain)
    requires Allowed(op, |p.bytes|) && InBounds(op, |p.bytes|, a)
    ensures |r.bytes| == |p.bytes|
  {
    match op
    case ReadFrom(offset, width) =>
      p.(loaded := p.loaded + [LoadWidth(p.bytes, Wrap(Eval(offset, a), DOMAIN), width, little)])
    case WriteTo(offset, value) =>
      p.(bytes := StoreWidth(p.bytes, Wrap(Eval(offset, a), DOMAIN), Width(value), little, Eval(value, a)))
    case Zero => p.(bytes := seq(|p.bytes|, _ => 0))
    case Random => p.(bytes := seq(|p.bytes|, _ => 0xAB))
    case Duplicate => p
  }

  ghost function RunPlain(bytes: seq<nat>, ops: seq<Access>, little: bool, a: Assignment): (r: Plain)
    requires AllAllowed(ops, |bytes|) && AllInBounds(ops, |bytes|, a)
    ensures |r.bytes| == |bytes|
  {
    if ops == [] then Plain(bytes, [])
    else Step(RunPlain(bytes, ops[..|ops| - 1], little, a), ops[|ops| - 1], little, a)
  }

  ghost function Values(es: seq<Expr>, a: Assignment): (vs: seq<nat>)
    ensures |vs| == |es|
  {
    if es == [] then [] else Values(es[..|es| - 1], a) + [Eval(es[|es| - 1], a)]
  }

  lemma {:induction false} OneMore(bytes: seq<nat>, ops: seq<Access>, op: Access, little: bool, a: Assignment)
    requires AllAllowed(ops + [op], |bytes|) && AllInBounds(ops + [op], |bytes|, a)
    ensures AllAllowed(ops, |bytes|) && AllInBounds(ops, |bytes|, a) && Allowed(op, |bytes|) && InBounds(op, |bytes|, a)
    ensures RunPlain(bytes, ops + [op], little, a) == Step(RunPlain(bytes, ops, little, a), op, little, a)
  {
    hide Allowed, InBounds, Step;
    var all := ops + [op];
    assert all[..|all| - 1] == ops && all[|ops|] == op;
    forall i | 0 <= i < |ops| ensures Allowed(ops[i], |bytes|) { assert ops[i] == all[i]; }
    forall i | 0 <= i < |ops| ensures InBounds(ops[i], |bytes|, a) { assert ops[i] == all[i]; }
  }

  lemma {:induction false} OneMoreValue(es: seq<Expr>, e: Expr)
    ensures forall a: Assignment :: Values(es + [e], a) == Values(es, a) + [Eval(e, a)]
  {
    hide Eval;
    assert (es + [e])[..|es|] == es;
  }

  /** Wherever it is in bounds, the access takes the plain array `d[a]` to `d'[a]` and
      loads what `loaded` evaluates to. */
  ghost predicate Performs(d: imap<Assignment, seq<nat>>, op: Access, size: nat, little: bool,
      d': imap<Assignment, seq<nat>>, loaded: seq<Expr>)
    requires IsDenotation(d, size) && IsDenotation(d', size) && Allowed(op, size)
  {
    forall a: Assignment, vs: seq<nat> :: InBounds(op, size, a) ==>
      Step(Plain(d[a], vs), op, little, a) == Plain(d'[a], vs + Values(loaded, a))
  }

  /** The same for a run of accesses. */
  ghost predicate InStep(d: imap<Assignment, seq<nat>>, ops: seq<Access>, size: nat, little: bool,
      d': imap<Assignment, seq<nat>>, results: seq<Expr>)
    requires IsDenotation(d, size) && IsDenotation(d', size) && AllAllowed(ops, size)
  {
    forall a: Assignment :: AllInBounds(ops, size, a) ==>
      RunPlain(d[a], ops, little, a) == Plain(d'[a], Values(results, a))
  }

  lemma {:induction false} StartInStep(d: imap<Assignment, seq<nat>>, size: nat, little: bool)
    requires IsDenotation(d, size)
    ensures InStep(d, [], size, little, d, [])
  {
    NoValues();
  }

  lemma {:induction false} OneMoreInStep(d: imap<Assignment, seq<nat>>, ops: seq<Access>, size: nat, little: bool,
      d': imap<Assignment, seq<nat>>, results: seq<Expr>, op: Access, d'': imap<Assignment, seq<nat>>, loaded: seq<Expr>)
    requires IsDenotation(d, size) && IsDenotation(d', size) && IsDenotation(d'', size)
    requires AllAllowed(ops, size) && Allowed(op, size) && |loaded| <= 1
    requires InStep(d, ops, size, little, d', results) && Performs(d', op, size, little, d'', loaded)
    ensures AllAllowed(ops + [op], size) && InStep(d, ops + [op], size, little, d'', results + loaded)
  {
    hide Allowed, InBounds, Step, Eval, Values, RunPlain;
    JoinValues(results, loaded);
    forall a: Assignment | AllInBounds(ops + [op], size, a)
      ensures RunPlain(d[a], ops + [op], little, a) == Plain(d''[a], Values(results + loaded, a))
    {
      hide AllInBounds;
      OneMore(d[a], ops, op, little, a);
    }
  }

  lemma {:induction false} InStepMeans(d: imap<Assignment, seq<nat>>, ops: seq<Access>, size: nat, little: bool,
      d': imap<Assignment, seq<nat>>, results: seq<Expr>)
    requires IsDenotation(d, size) && IsDenotation(d', size) && AllAllowed(ops, size)
    requires InStep(d, ops, size, little, d', results)
    ensures forall a: Assignment :: AllInBounds(ops, size, a) ==>
      a in d && a in d' && |d[a]| == size && RunPlain(d[a], ops, little, a) == Plain(d'[a], Values(results, a))
  { }

  /** Each access is the one the client chose after the reads before it. */
  ghost predicate ChosenBy(client: (nat, seq<Expr>) -> Access, ops: seq<Access>, results: seq<Expr>) {
    && |results| == Reads(ops)
    && forall i :: 0 <= i < |ops| ==> Reads(ops[..i]) <= |results| && ops[i] == client(i, results[..Reads(ops[..i])])
  }

  lemma {:induction false} NothingBuilt()
    ensures AllBuilt([])
  { }

  /** One access keeps the object in step with the plain array. */
  method Perform(os: ObjectState, op: Access) returns (next: ObjectState, loaded: seq<Expr>)
    requires os.Valid() && !os.readOnly && Allowed(op, os.size)
    modifies os, os.concreteStore
    ensures next.Valid() && !next.readOnly && next.size == os.size && next.little == os.little
    ensures next == os || (fresh(next) && fresh(next.concreteStore))
    ensures |loaded| == (if op.ReadFrom? then 1 else 0) && AllBuilt(loaded)
    ensures IsDenotation(old(os.Denotation()), os.size) && IsDenotation(next.Denotation(), os.size)
    ensures Performs(old(os.Denotation()), op, os.size, os.little, next.Denotation(), loaded)
  {
    hide *;
    NothingBuilt();
    next, loaded := os, [];
    if op.ReadFrom? {
      loaded := PerformRead(os, op);
    } else if op.WriteTo? {
      PerformWrite(os, op);
    } else if op.Duplicate? {
      next := PerformCopy(os);
    } else {
      PerformFill(os, op);
    }
  }

  method PerformRead(os: ObjectState, op: Access) returns (loaded: seq<Expr>)
    requires os.Valid() && op.ReadFrom? && Allowed(op, os.size)
    modifies os`flushMask, os`root, os`head
    ensures os.Valid() && |loaded| == 1 && AllBuilt(loaded)
    ensures IsDenotation(old(os.Denotation()), os.size) && IsDenotation(os.Denotation(), os.size)
    ensures Performs(old(os.Denotation()), op, os.size, os.little, os.Denotation(), loaded)
  {
    hide Eval, Wrap, Wf, Width, Canon, Pow2, ZExtCreate, LoadWidth, IsAccessWidth, BytesFor, ObjectState.Bytes, ObjectState.Valid;
    var e := os.Read(op.offset, op.width);
    loaded := [e];
    OneMoreValue([], e);
    assert [] + [e] == loaded;
  }

  method PerformCopy(os: ObjectState) returns (next: ObjectState)
    requires os.Valid() && !os.readOnly
    ensures next.Valid() && !next.readOnly && next.size == os.size && next.little == os.little
    ensures fresh(next) && fresh(next.concreteStore)
    ensures IsDenotation(os.Denotation(), os.size) && IsDenotation(next.Denotation(), os.size)
    ensures Allowed(Duplicate, os.size) && Performs(os.Denotation(), Duplicate, os.size, os.little, next.Denotation(), [])
  {
    hide *;
    next := new ObjectState.Copy(os);
    os.DenotationShape();
    next.DenotationShape();
    CopyPerforms(os.Denotation(), os.size, os.little, next.Denotation());
  }

  method PerformWrite(os: ObjectState, op: Access)
    requires os.Valid() && op.WriteTo? && Allowed(op, os.size)
    modifies os`concreteMask, os`flushMask, os`knownSymbolics, os`head, os.concreteStore
    ensures os.Valid()
    ensures IsDenotation(old(os.Denotation()), os.size) && IsDenotation(os.Denotation(), os.size)
    ensures Performs(old(os.Denotation()), op, os.size, os.little, os.Denotation(), [])
  {
    hide Eval, Wrap, Wf, Width, Canon, Pow2, ZExtCreate, StoreWidth, IsAccessWidth, BytesFor, ObjectState.Bytes, ObjectState.Valid;
    os.Write(op.offset, op.value);
    NoValues();
  }

  method PerformFill(os: ObjectState, op: Access)
    requires os.Valid() && (op.Zero? || op.Random?)
    modifies os`concreteMask, os`flushMask, os`knownSymbolics, os.concreteStore
    ensures os.Valid() && Allowed(op, os.size)
    ensures IsDenotation(old(os.Denotation()), os.size) && IsDenotation(os.Denotation(), os.size)
    ensures Performs(old(os.Denotation()), op, os.size, os.little, os.Denotation(), [])
  {
    hide Eval, ObjectState.ByteAt, ObjectState.Valid;
    NoValues();
    if op.Zero? {
      os.InitializeToZero();
    } else {
      os.InitializeToRandom();
    }
  }

  lemma {:induction false} CopyPerforms(d: imap<Assignment, seq<nat>>, size: nat, little: bool, d': imap<Assignment, seq<nat>>)
    requires IsDenotation(d, size) && IsDenotation(d', size) && forall a: Assignment :: d[a] == d'[a]
    ensures Allowed(Duplicate, size) && Performs(d, Duplicate, size, little, d', [])
  {
    NoValues();
  }

  /** Main theorem: after any run of accesses, each chosen from what was read before it,
      under every assignment that keeps them in bounds, the object denotes the plain array
      after the same accesses, and every expression that was read evaluates to the value
      loaded from the plain array. */
  method Run(os: ObjectState, client: (nat, seq<Expr>) -> Access, n: nat)
    returns (last: ObjectState, results: seq<Expr>, ghost ops: seq<Access>)
    requires os.Valid() && !os.readOnly && Obeys(client, n, os.size)
    modifies os, os.concreteStore
    ensures last.Valid() && last.size == os.size && last.little == os.little
    ensures |ops| == n && AllAllowed(ops, os.size) && AllBuilt(results) && ChosenBy(client, ops, results)
    ensures forall a: Assignment :: AllInBounds(ops, os.size, a) ==>
      RunPlain(old(os.Bytes(a)), ops, os.little, a) == Plain(last.Bytes(a), Values(results, a))
  {
    hide *;
    last, results, ops := os, [], [];
    ghost var d := os.Denotation();
    os.DenotationShape();
    StartInStep(d, os.size, os.little);
    NothingChosen(client, os.size);
    for i := 0 to n
      invariant last.Valid() && !last.readOnly && last.size == os.size && last.little == os.little
      invariant last == os || (fresh(last) && fresh(last.concreteStore))
      invariant |ops| == i && AllAllowed(ops, os.size) && AllBuilt(results) && ChosenBy(client, ops, results)
      invariant IsDenotation(last.Denotation(), os.size)
      invariant InStep(d, ops, os.size, os.little, last.Denotation(), results)
    {
      ghost var d' := last.Denotation();
      var op := client(i, results);
      Chooses(client, n, os.size, i, results);
      var loaded;
      last, loaded := Perform(last, op);
      OneMoreInStep(d, ops, os.size, os.little, d', results, op, last.Denotation(), loaded);
      ChosenBefore(client, ops, op, results, loaded);
      results, ops := results + loaded, ops + [op];
    }
    InStepMeans(d, ops, os.size, os.little, last.Denotation(), results);
  }

  lemma {:induction false} NothingChosen(client: (nat, seq<Expr>) -> Access, size: nat)
    ensures AllAllowed([], size) && AllBuilt([]) && ChosenBy(client, [], [])
  { }

  lemma {:induction false} Chooses(client: (nat, seq<Expr>) -> Access, n: nat, size: nat, i: nat, es: seq<Expr>)
    requires Obeys(client, n, size) && i < n && AllBuilt(es)
    ensures Allowed(client(i, es), size)
  { }

  lemma {:induction false} ChosenBefore(client: (nat, seq<Expr>) -> Access, ops: seq<Access>, op: Access, results: seq<Expr>, loaded: seq<Expr>)
    requires ChosenBy(client, ops, results) && op == client(|ops|, results) && AllBuilt(results) && AllBuilt(loaded)
    requires |loaded| == if op.ReadFrom? then 1 else 0
    ensures ChosenBy(client, ops + [op], results + loaded) && AllBuilt(results + loaded)
  {
    var more, got := ops + [op], results + loaded;
    assert more[..|ops|] == ops;
    forall k | 0 <= k < |more| ensures Reads(more[..k]) <= |got| && more[k] == client(k, got[..Reads(more[..k])]) {
      if k < |ops| {
        assert more[..k] == ops[..k];
        assert got[..Reads(ops[..k])] == results[..Reads(ops[..k])];
      } else {
        assert got[..|results|] == results;
      }
    }
  }

  lemma {:induction false} NoValues()
    ensures forall a: Assignment :: Values([], a) == []
  {
  }

  lemma {:induction false} JoinValues(es: seq<Expr>, loaded: seq<Expr>)
    requires |loaded| <= 1
    ensures forall a: Assignment :: Values(es + loaded, a) == Values(es, a) + Values(loaded, a)
  {
    hide Eval;
    if loaded == [] {
      assert es + loaded == es;
    } else {
      OneMoreValue(es, loaded[0]);
      OneMoreValue([], loaded[0]);
      assert loaded == [loaded[0]] == [] + [loaded[0]];
    }
  }
}
