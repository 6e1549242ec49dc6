/** Object contents: a concrete byte store, two masks, a table of known symbolic
    bytes and a chain of array writes, which together denote one plain byte array
    under every assignment. */
module Memory {
  import opened Bits
  import opened Exprs
  import opened Create
  import opened CreateMeaning
  import opened Canonical
  import opened ByteArrays
  import opened Options

  /** What an update chain without a root stands for. */
  function ZeroArray(n: nat): (r: Array) {
    Array("", n, seq(n, _ => 0))
  }

  /** Writes at constant indices are in bounds. */
  predicate IndicesBelow(us: Updates, n: nat) {
    match us
    case Done => true
    case Update(i, _, next) => (i.Constant? ==> i.value < n) && IndicesBelow(next, n)
  }

  /** Expressions that come from the constructors are canonical. */
  predicate IsByteExpr(e: Expr) {
    Wf(e) && Width(e) == RANGE && Canon(e)
  }

  predicate IsIndex(e: Expr) {
    Wf(e) && Width(e) == DOMAIN && Canon(e)
  }

  /** A chain of writes to an object of `n` bytes. */
  predicate IsChain(us: Updates, n: nat) {
    WfUpdates(us) && CanonUpdates(us) && IndicesBelow(us, n)
  }

  function ByteConst(b: Byte): (e: Expr) { Constant(b, RANGE) }

  function IndexConst(i: nat): (e: Expr) { Constant(i, DOMAIN) }

  /** Everything an object holds. */
  datatype Contents = Contents(concreteMask: Option<seq<bool>>, flushMask: Option<seq<bool>>, knownSymbolics: Option<seq<Option<Expr>>>,
    root: Option<Array>, head: Updates, copyOnWriteOwner: nat, readOnly: bool, bytes: seq<Byte>)

  class ObjectState {
    const size: nat
    const little: bool
    const concreteStore: array<Byte>
    var concreteMask: Option<seq<bool>>
    var flushMask: Option<seq<bool>>
    var knownSymbolics: Option<seq<Option<Expr>>>
    var root: Option<Array>
    var head: Updates
    /** Used by the address space only: the epoch of the space that owns this object. */
    var copyOnWriteOwner: nat
    var readOnly: bool

    // ------------------------------------------------------- representation

    ghost predicate Shape()
      reads this`concreteMask, this`flushMask, this`knownSymbolics, this`root, this`head
    {
      && size < Pow2(DOMAIN)
      && concreteStore.Length == size
      && (concreteMask.Some? ==> |concreteMask.value| == size)
      && (flushMask.Some? ==> |flushMask.value| == size)
      && (knownSymbolics.Some? ==> |knownSymbolics.value| == size)
      && (forall i :: 0 <= i < size && knownSymbolics.Some? && knownSymbolics.value[i].Some? ==>
           IsByteExpr(knownSymbolics.value[i].value))
      && (root.Some? ==> WfArray(root.value))
      && IsChain(head, size)
    }

    predicate IsByteConcrete(i: nat)
      requires concreteMask.Some? ==> i < |concreteMask.value|
      reads this`concreteMask
    {
      concreteMask.None? || concreteMask.value[i]
    }

    predicate IsByteFlushed(i: nat)
      requires flushMask.Some? ==> i < |flushMask.value|
      reads this`flushMask
    {
      flushMask.Some? && !flushMask.value[i]
    }

    predicate IsByteKnownSymbolic(i: nat)
      requires knownSymbolics.Some? ==> i < |knownSymbolics.value|
      reads this`knownSymbolics
    {
      knownSymbolics.Some? && knownSymbolics.value[i].Some?
    }

    /** The array the update chain starts from; a missing one stands for zeros. */
    ghost function Root(): (r: Array)
      reads this`root
    {
      if root.Some? then root.value else ZeroArray(size)
    }

    /** The byte the update chain holds. */
    ghost function Written(i: nat, a: Assignment): (b: nat)
      reads this`root, this`head
    {
      EvalRead(Root(), head, i, a)
    }

    /** The byte the object denotes at offset `i`. */
    ghost function ByteAt(i: nat, a: Assignment): (b: nat)
      requires Shape() && i < size
      reads this`concreteMask, this`flushMask, this`knownSymbolics, this`root, this`head, concreteStore
    {
      if IsByteConcrete(i) then concreteStore[i]
      else if IsByteKnownSymbolic(i) then Eval(knownSymbolics.value[i].value, a)
      else Written(i, a)
    }

    /** The cache invariants at one offset; the last says that a flushed byte agrees
        with the update chain even while it is still cached. */
    ghost predicate CacheInv(i: nat)
      requires Shape() && i < size
      reads this`concreteMask, this`flushMask, this`knownSymbolics, this`root, this`head, concreteStore
    {
      && (IsByteKnownSymbolic(i) ==> !IsByteConcrete(i))
      && (!IsByteFlushed(i) ==> IsByteConcrete(i) || IsByteKnownSymbolic(i))
      && (IsByteFlushed(i) ==> forall a: Assignment :: Written(i, a) == ByteAt(i, a))
    }

    ghost predicate Valid()
      reads this`concreteMask, this`flushMask, this`knownSymbolics, this`root, this`head, concreteStore
    {
      Shape() && forall i :: 0 <= i < size ==> CacheInv(i)
    }

    /** The first `n` bytes of the denoted array. */
    ghost function Prefix(n: nat, a: Assignment): (bs: seq<nat>)
      requires Shape() && n <= size
      reads this`concreteMask, this`flushMask, this`knownSymbolics, this`root, this`head, concreteStore
      ensures |bs| == n && forall i :: 0 <= i < n ==> bs[i] == ByteAt(i, a)
    {
      if n == 0 then [] else Prefix(n - 1, a) + [ByteAt(n - 1, a)]
    }

    /** The plain byte array the object denotes under an assignment. */
    ghost function Bytes(a: Assignment): (bs: seq<nat>)
      requires Valid()
      reads this`concreteMask, this`flushMask, this`knownSymbolics, this`root, this`head, concreteStore
      ensures |bs| == size && forall i :: 0 <= i < size ==> bs[i] == ByteAt(i, a)
    {
      Prefix(size, a)
    }

    /** All of these arrays, as one value. */
    ghost function Denotation(): (d: imap<Assignment, seq<nat>>)
      requires Valid()
      reads this`concreteMask, this`flushMask, this`knownSymbolics, this`root, this`head, concreteStore
      ensures forall a: Assignment :: a in d && d[a] == Bytes(a)
    {
      imap a: Assignment | true :: Bytes(a)
    }

    // --------------------------------------------------------- construction

    /** A concrete object, all zero.  With constant arrays the chain has no root. */
    constructor Concrete(size: nat, little: bool, tmp: Option<Array>)
      requires size < Pow2(DOMAIN) && (tmp.Some? ==> WfArray(tmp.value))
      ensures Valid() && this.size == size && this.little == little && fresh(concreteStore)
      ensures copyOnWriteOwner == 0 && !readOnly
      ensures forall a: Assignment, i :: 0 <= i < size ==> ByteAt(i, a) == 0
    {
      this.size := size;
      this.little := little;
      concreteStore := new Byte[size](_ => 0);
      concreteMask, flushMask, knownSymbolics := None, None, None;
      root, head := tmp, Done;
      copyOnWriteOwner, readOnly := 0, false;
    }

    /** An object with the contents of a symbolic array. */
    constructor Symbolic(size: nat, little: bool, symbols: Array)
      requires size < Pow2(DOMAIN) && WfArray(symbols)
      ensures Valid() && this.size == size && this.little == little && fresh(concreteStore)
      ensures copyOnWriteOwner == 0 && !readOnly
      ensures forall i: nat, a: Assignment :: i < size ==> ByteAt(i, a) == RootByte(symbols, i, a)
    {
      this.size := size;
      this.little := little;
      concreteStore := new Byte[size](_ => 0);
      concreteMask, flushMask, knownSymbolics := None, None, None;
      root, head := Some(symbols), Done;
      copyOnWriteOwner, readOnly := 0, false;
      new;
      hide Pow2, Eval, EvalRead, ByteAt, CacheInv, RootByte;
      MakeSymbolic();
    }

    /** A copy that shares nothing with the original. */
    constructor Copy(os: ObjectState)
      requires os.Valid() && !os.readOnly
      ensures Valid() && size == os.size && little == os.little && fresh(concreteStore)
      ensures copyOnWriteOwner == 0 && !readOnly
      ensures forall a: Assignment :: Bytes(a) == os.Bytes(a)
    {
      size := os.size;
      little := os.little;
      var store := new Byte[os.size](i requires 0 <= i < os.concreteStore.Length reads os, os.concreteStore => os.concreteStore[i]);
      concreteStore := store;
      concreteMask, flushMask, knownSymbolics := os.concreteMask, os.flushMask, os.knownSymbolics;
      root, head := os.root, os.head;
      copyOnWriteOwner, readOnly := 0, false;
      new;
      hide EvalRead, Eval, Pow2, IsChain, WfArray;
      assert forall i, a: Assignment :: Written(i, a) == os.Written(i, a);
      assert forall i, a: Assignment :: 0 <= i < size ==> ByteAt(i, a) == os.ByteAt(i, a);
      forall i | 0 <= i < size ensures CacheInv(i) { assert os.CacheInv(i); }
    }

    // ------------------------------------------------------ marks and caches

    method MarkByteConcrete(offset: nat)
      requires Shape() && offset < size
      modifies this`concreteMask
      ensures concreteMask.Some? ==> |concreteMask.value| == size
      ensures forall i :: 0 <= i < size ==> IsByteConcrete(i) == (i == offset || old(IsByteConcrete(i)))
    {
      hide Pow2, IsChain;
      if concreteMask.Some? {
        concreteMask := Some(concreteMask.value[offset := true]);
      }
    }

    method MarkByteSymbolic(offset: nat)
      requires Shape() && offset < size
      modifies this`concreteMask
      ensures concreteMask.Some? ==> |concreteMask.value| == size
      ensures forall i :: 0 <= i < size ==> IsByteConcrete(i) == (i != offset && old(IsByteConcrete(i)))
    {
      hide Pow2, IsChain;
      if concreteMask.None? {
        concreteMask := Some(seq(size, _ => true));
      }
      concreteMask := Some(concreteMask.value[offset := false]);
    }

    method MarkByteUnflushed(offset: nat)
      requires Shape() && offset < size
      modifies this`flushMask
      ensures flushMask.Some? ==> |flushMask.value| == size
      ensures forall i :: 0 <= i < size ==> IsByteFlushed(i) == (i != offset && old(IsByteFlushed(i)))
    {
      hide Pow2, IsChain;
      if flushMask.Some? {
        flushMask := Some(flushMask.value[offset := true]);
      }
    }

    /** The first byte marked flushed marks them all: the new mask starts cleared. */
    method MarkByteFlushed(offset: nat)
      requires Shape() && offset < size
      modifies this`flushMask
      ensures flushMask.Some? && |flushMask.value| == size
      ensures forall i :: 0 <= i < size ==>
        IsByteFlushed(i) == (old(flushMask.None?) || i == offset || old(IsByteFlushed(i)))
    {
      hide Pow2, IsChain;
      if flushMask.None? {
        flushMask := Some(seq(size, _ => false));
      } else {
        flushMask := Some(flushMask.value[offset := false]);
      }
    }

    method SetKnownSymbolic(offset: nat, value: Option<Expr>)
      requires Shape() && offset < size && (value.Some? ==> IsByteExpr(value.value))
      modifies this`knownSymbolics
      ensures Shape()
      ensures IsByteKnownSymbolic(offset) == value.Some?
      ensures value.Some? ==> knownSymbolics.value[offset] == value
      ensures forall i :: 0 <= i < size && i != offset ==>
        && IsByteKnownSymbolic(i) == old(IsByteKnownSymbolic(i))
        && (IsByteKnownSymbolic(i) ==> knownSymbolics.value[i] == old(knownSymbolics).value[i])
    {
      hide Pow2, IsChain, IsByteExpr;
      if knownSymbolics.Some? {
        knownSymbolics := Some(knownSymbolics.value[offset := value]);
      } else if value.Some? {
        knownSymbolics := Some(seq(size, _ => None)[offset := value]);
      }
    }

    method MakeConcrete()
      modifies this`concreteMask, this`flushMask, this`knownSymbolics
      ensures concreteMask.None? && flushMask.None? && knownSymbolics.None?
    {
      concreteMask, flushMask, knownSymbolics := None, None, None;
    }

    /** Turns the contents into those of the root array. */
    method MakeSymbolic()
      requires Shape() && head.Done?
      modifies this`concreteMask, this`flushMask, this`knownSymbolics
      ensures Valid()
      ensures forall i, a: Assignment :: 0 <= i < size ==> ByteAt(i, a) == RootByte(Root(), i, a)
    {
      hide Pow2, IsByteExpr, Eval, EvalRead, RootByte;
      for k := 0 to size
        invariant Shape()
        invariant forall i :: 0 <= i < k ==> !IsByteConcrete(i) && !IsByteKnownSymbolic(i) && IsByteFlushed(i)
      {
        MarkByteSymbolic(k);
        SetKnownSymbolic(k, None);
        MarkByteFlushed(k);
      }
      assert forall i, a: Assignment :: Written(i, a) == RootByte(Root(), i, a) by { EmptyChain(Root()); }
    }

    // ------------------------------------------------------------ the chain

    /** Builds the constant root array on first use: the oldest writes that are
        constant go into it, the rest stay in the chain. */
    method GetUpdates() returns (r: Array, us: Updates)
      requires Valid()
      modifies this`root, this`head
      ensures Valid() && root == Some(r) && head == us && WfArray(r) && IsChain(us, size) && WfUpdates(us) && CanonUpdates(us)
      ensures forall i: nat, a: Assignment :: i < size ==> Written(i, a) == old(Written(i, a))
      ensures forall i: nat, a: Assignment :: i < size ==> ByteAt(i, a) == old(ByteAt(i, a))
    {
      hide Pow2, Eval, EvalRead, IsByteExpr, WfArray, IsChain;
      if root.None? {
        var built, rest := BuildConstantRoot(head, size);
        root, head := Some(built), rest;
        assert forall i: nat, a: Assignment :: i < size ==> Written(i, a) == old(Written(i, a));
      }
      assert forall i: nat, a: Assignment :: i < size ==> ByteAt(i, a) == old(ByteAt(i, a));
      forall i | 0 <= i < size ensures CacheInv(i) { assert old(CacheInv(i)); }
      r, us := root.value, head;
      ChainParts(us, size);
    }

    /** Pushes cached bytes of a range into the chain; they stay cached. */
    method FlushRangeForRead(base: nat, n: nat)
      requires Valid() && base + n <= size
      modifies this`flushMask, this`head
      ensures Valid()
      ensures forall i: nat, a: Assignment :: i < size ==> ByteAt(i, a) == old(ByteAt(i, a))
      ensures forall i :: base <= i < base + n ==> IsByteFlushed(i)
    {
      hide Pow2, Eval, EvalRead, IsByteExpr, Wf, Width, WfArray, IsChain;
      if flushMask.None? {
        flushMask := Some(seq(size, _ => true));
        forall i | 0 <= i < size ensures CacheInv(i) { assert old(CacheInv(i)); }
      }
      for offset := base to base + n
        invariant Valid() && flushMask.Some?
        invariant forall i: nat, a: Assignment :: i < size ==> ByteAt(i, a) == old(ByteAt(i, a))
        invariant forall i :: base <= i < offset ==> IsByteFlushed(i)
      {
        if !IsByteFlushed(offset) {
          assert CacheInv(offset);
          var value := if IsByteConcrete(offset) then ByteConst(concreteStore[offset]) else knownSymbolics.value[offset].value;
          ConstantByte(concreteStore[offset]);
          Extend(Root(), head, offset, value, size);
          label L:
          head := Update(IndexConst(offset), value, head);
          flushMask := Some(flushMask.value[offset := false]);
          assert forall i :: 0 <= i < size ==> IsByteFlushed(i) == (i == offset || old@L(IsByteFlushed(i)));
          assert forall i: nat, a: Assignment ::
            Written(i, a) == if i == offset then Eval(value, a) else old@L(Written(i, a));
          assert forall i: nat, a: Assignment :: i < size ==> ByteAt(i, a) == old@L(ByteAt(i, a));
          forall i | 0 <= i < size ensures CacheInv(i) {
            assert old@L(CacheInv(i));
          }
        }
      }
    }

    /** Pushes a range into the chain and drops every cached value in it. */
    method FlushRangeForWrite(base: nat, n: nat)
      requires Valid() && base + n <= size
      modifies this`concreteMask, this`flushMask, this`knownSymbolics, this`head
      ensures Valid()
      ensures forall i: nat, a: Assignment :: i < size ==> ByteAt(i, a) == old(ByteAt(i, a))
      ensures forall i :: base <= i < base + n ==>
        IsByteFlushed(i) && !IsByteConcrete(i) && !IsByteKnownSymbolic(i)
    {
      hide Pow2, Eval, EvalRead, IsByteExpr, WfArray, IsChain;
      if flushMask.None? {
        flushMask := Some(seq(size, _ => true));
        forall i | 0 <= i < size ensures CacheInv(i) { assert old(CacheInv(i)); }
      }
      for offset := base to base + n
        invariant Valid() && flushMask.Some?
        invariant forall i: nat, a: Assignment :: i < size ==> ByteAt(i, a) == old(ByteAt(i, a))
        invariant forall i :: base <= i < offset ==>
          IsByteFlushed(i) && !IsByteConcrete(i) && !IsByteKnownSymbolic(i)
      {
        FlushByteForWrite(offset);
      }
    }

    method FlushByteForWrite(offset: nat)
      requires Valid() && flushMask.Some? && offset < size
      modifies this`concreteMask, this`flushMask, this`knownSymbolics, this`head
      ensures Valid() && flushMask.Some?
      ensures forall i: nat, a: Assignment :: i < size ==> ByteAt(i, a) == old(ByteAt(i, a))
      ensures IsByteFlushed(offset) && !IsByteConcrete(offset) && !IsByteKnownSymbolic(offset)
      ensures forall i :: 0 <= i < size && i != offset ==>
        && IsByteFlushed(i) == old(IsByteFlushed(i)) && IsByteConcrete(i) == old(IsByteConcrete(i))
        && IsByteKnownSymbolic(i) == old(IsByteKnownSymbolic(i))
    {
      hide Pow2, Eval, EvalRead, IsByteExpr, WfArray, IsChain;
      assert CacheInv(offset);
      if !IsByteFlushed(offset) {
        if IsByteConcrete(offset) {
          ConstantByte(concreteStore[offset]);
          Extend(Root(), head, offset, ByteConst(concreteStore[offset]), size);
          head := Update(IndexConst(offset), ByteConst(concreteStore[offset]), head);
          MarkByteSymbolic(offset);
        } else {
          Extend(Root(), head, offset, knownSymbolics.value[offset].value, size);
          head := Update(IndexConst(offset), knownSymbolics.value[offset].value, head);
          SetKnownSymbolic(offset, None);
        }
        flushMask := Some(flushMask.value[offset := false]);
      } else if IsByteConcrete(offset) {
        MarkByteSymbolic(offset);
      } else if IsByteKnownSymbolic(offset) {
        SetKnownSymbolic(offset, None);
      }
      assert forall i: nat, a: Assignment :: i < size && i != offset ==> Written(i, a) == old(Written(i, a));
      assert forall a: Assignment :: Written(offset, a) == old(ByteAt(offset, a));
      forall i | 0 <= i < size ensures CacheInv(i) { assert old(CacheInv(i)); }
    }

    // ------------------------------------------------------- single bytes

    method Read8(offset: nat) returns (e: Expr)
      requires Valid() && offset < size
      modifies this`root, this`head
      ensures Valid() && IsByteExpr(e)
      ensures forall i: nat, a: Assignment :: i < size ==> ByteAt(i, a) == old(ByteAt(i, a))
      ensures forall a: Assignment :: Eval(e, a) == ByteAt(offset, a)
      ensures old(IsByteConcrete(offset)) ==> e == ByteConst(concreteStore[offset])
    {
      hide Pow2, Eval, EvalRead, WfArray, IsChain, ReadCreate, IsByteExpr;
      if IsByteConcrete(offset) {
        ConstantByte(concreteStore[offset]);
        e := ByteConst(concreteStore[offset]);
      } else if IsByteKnownSymbolic(offset) {
        e := knownSymbolics.value[offset].value;
      } else {
        var r, us := GetUpdates();
        ReadFrom(r, us, IndexConst(offset), offset);
        e := ReadCreate(r, us, IndexConst(offset));
        assert forall a: Assignment :: Eval(e, a) == Written(offset, a);
      }
    }

    /** A read at a symbolic offset flushes the whole object first. */
    method Read8Symbolic(offset: Expr) returns (e: Expr)
      requires Valid() && IsIndex(offset) && !offset.Constant?
      modifies this`flushMask, this`root, this`head
      ensures Valid() && IsByteExpr(e)
      ensures forall i: nat, a: Assignment :: i < size ==> ByteAt(i, a) == old(ByteAt(i, a))
      ensures forall a: Assignment :: Eval(offset, a) < size ==> Eval(e, a) == ByteAt(Eval(offset, a), a)
    {
      hide Pow2, Eval, EvalRead, WfArray, IsChain, ReadCreate, IsByteExpr;
      FlushRangeForRead(0, size);
      assert forall i :: 0 <= i < size ==> IsByteFlushed(i) && CacheInv(i);
      var r, us := GetUpdates();
      ReadMeaningForAll(r, us, offset);
      e := ReadCreate(r, us, offset);
      forall a: Assignment | Eval(offset, a) < size
        ensures Eval(e, a) == ByteAt(Eval(offset, a), a)
      {
        assert CacheInv(Eval(offset, a));
        assert Eval(e, a) == Written(Eval(offset, a), a);
      }
    }

    method Write8(offset: nat, value: Byte)
      requires Valid() && offset < size
      modifies this`concreteMask, this`flushMask, this`knownSymbolics, concreteStore
      ensures Valid()
      ensures forall i: nat, a: Assignment :: i < size ==>
        ByteAt(i, a) == if i == offset then value else old(ByteAt(i, a))
      ensures IsByteConcrete(offset)
    {
      hide Pow2, Eval, EvalRead, WfArray, IsChain, IsByteExpr;
      concreteStore[offset] := value;
      SetKnownSymbolic(offset, None);
      MarkByteConcrete(offset);
      MarkByteUnflushed(offset);
      assert forall i: nat, a: Assignment :: i < size ==>
        ByteAt(i, a) == if i == offset then value else old(ByteAt(i, a));
      forall i | 0 <= i < size ensures CacheInv(i) { assert old(CacheInv(i)); }
    }

    method Write8Expr(offset: nat, value: Expr)
      requires Valid() && offset < size && IsByteExpr(value)
      modifies this`concreteMask, this`flushMask, this`knownSymbolics, concreteStore
      ensures Valid()
      ensures forall i: nat, a: Assignment :: i < size ==>
        ByteAt(i, a) == if i == offset then Eval(value, a) else old(ByteAt(i, a))
      ensures IsByteConcrete(offset) <==> value.Constant?
    {
      hide Pow2, Eval, EvalRead, WfArray, IsChain, IsByteExpr;
      if value.Constant? {
        ConstantByteValue(value);
        Write8(offset, value.value);
      } else {
        SetKnownSymbolic(offset, Some(value));
        MarkByteSymbolic(offset);
        MarkByteUnflushed(offset);
        assert forall i: nat, a: Assignment :: i < size ==>
          ByteAt(i, a) == if i == offset then Eval(value, a) else old(ByteAt(i, a));
        forall i | 0 <= i < size ensures CacheInv(i) { assert old(CacheInv(i)); }
      }
    }

    /** A write at a symbolic offset empties all caches and extends the chain. */
    method Write8Symbolic(offset: Expr, value: Expr)
      requires Valid() && IsIndex(offset) && !offset.Constant? && IsByteExpr(value)
      modifies this`concreteMask, this`flushMask, this`knownSymbolics, this`head
      ensures Valid()
      ensures forall i: nat, a: Assignment :: i < size ==>
        ByteAt(i, a) == if i == Eval(offset, a) then Eval(value, a) else old(ByteAt(i, a))
    {
      hide Pow2, Eval, EvalRead, WfArray, IsChain, IsByteExpr;
      FlushRangeForWrite(0, size);
      label L:
      ExtendSymbolic(Root(), head, offset, value, size);
      head := Update(offset, value, head);
      assert forall i: nat, a: Assignment ::
        Written(i, a) == if i == Eval(offset, a) then Eval(value, a) else old@L(Written(i, a));
      forall i | 0 <= i < size ensures CacheInv(i) { assert old@L(CacheInv(i)); }
    }

    // -------------------------------------------------------- whole accesses

    ghost function Holding(): (c: Contents)
      reads this, concreteStore
    {
      Contents(concreteMask, flushMask, knownSymbolics, root, head, copyOnWriteOwner, readOnly, concreteStore[..])
    }

    twostate lemma SameDenotation()
      requires old(Valid()) && Valid()
      requires forall i: nat, a: Assignment :: i < size ==> ByteAt(i, a) == old(ByteAt(i, a))
      ensures Denotation() == old(Denotation())
    {
      hide ByteAt, Bytes;
      SameBytes();
    }

    lemma {:induction false} DenotationShape()
      requires Valid()
      ensures IsDenotation(Denotation(), size)
    {
      hide ByteAt, Bytes;
    }

    lemma {:induction false} ConstantOffset(offset: nat)
      requires Valid() && offset <= size
      ensures forall a: Assignment :: Eval(IndexConst(offset), a) == offset
    { }

    twostate lemma DenotesSame()
      requires old(Valid()) && Valid() && Denotation() == old(Denotation())
      ensures forall a: Assignment :: Bytes(a) == old(Bytes(a))
    {
      hide ByteAt, Bytes;
      forall a: Assignment ensures Bytes(a) == old(Bytes(a)) {
        assert Denotation()[a] == old(Denotation())[a];
      }
    }

    twostate lemma SameBytes()
      requires old(Valid()) && Valid()
      requires forall i: nat, a: Assignment :: i < size ==> ByteAt(i, a) == old(ByteAt(i, a))
      ensures forall a: Assignment :: Bytes(a) == old(Bytes(a))
    {
      hide ByteAt, Bytes;
    }

    /** Reads the byte `k` bytes after a constant offset. */
    method ReadByteAt(offset: nat, k: nat) returns (e: Expr)
      requires Valid() && offset + k < size
      modifies this`root, this`head
      ensures Valid() && Denotation() == old(Denotation())
      ensures IsDenotation(Denotation(), size) && IsByteOf(e, IndexConst(offset), Denotation(), size, k)
    {
      hide Pow2, Eval, ByteAt, CacheInv, IsByteExpr, IsChain, WfArray, IndexConst;
      IndexConstIs(offset);
      e := Read8(offset + k);
      SameDenotation();
      ghost var d := Denotation();
      forall a: Assignment ensures Eval(e, a) == d[a][offset + k] { assert Bytes(a) == d[a]; }
    }

    /** A read at a constant offset: a bit, or bytes put together in byte order. */
    method ReadAt(offset: nat, width: nat) returns (e: Expr)
      requires Valid() && IsAccessWidth(width) && offset + BytesFor(width) <= size
      modifies this`root, this`head
      ensures Valid() && Wf(e) && Width(e) == width && Canon(e)
      ensures forall a: Assignment :: Bytes(a) == old(Bytes(a))
      ensures forall a: Assignment :: Eval(e, a) == LoadWidth(old(Bytes(a)), offset, width, little)
    {
      hide *;
      AccessWidths(width);
      ConstantOffset(offset);
      var off := IndexConst(offset);
      var n := BytesFor(width);
      ghost var d := Denotation();
      DenotationShape();
      if width == 1 {
        var b := ReadByteAt(offset, 0);
        LoadBit(b, off, d, size, little);
        e := ExtractCreate(b, 0, 1);
      } else {
        e := Zero(1);
        for i := 0 to n
          invariant Valid() && Denotation() == d
          invariant i > 0 ==> LoadsLow(e, off, d, size, n, little, i)
        {
          var b := ReadByteAt(offset, Place(n, i, little));
          if i == 0 {
            LoadFirst(b, off, d, size, n, little);
            e := b;
          } else {
            LoadNext(b, e, off, d, size, n, little, i);
            e := ConcatCreate(b, e);
          }
        }
        LoadAll(e, off, d, size, width, little);
      }
      DenotesSame();
      LoadedMeans(e, off, d, size, width, little);
    }

    /** A read at any offset, cut to 32 bits; it must be in bounds where it is constant,
        and is correct under every assignment that puts it in bounds. */
    method Read(offset: Expr, width: nat) returns (e: Expr)
      requires Valid() && IsAccessWidth(width) && BytesFor(width) <= size && Wf(offset) && Canon(offset)
      requires Offset32(offset).Constant? ==> Offset32(offset).value + BytesFor(width) <= size
      modifies this`flushMask, this`root, this`head
      ensures Valid() && Wf(e) && Width(e) == width && Canon(e)
      ensures forall a: Assignment :: Bytes(a) == old(Bytes(a))
      ensures forall a: Assignment :: Wrap(Eval(offset, a), DOMAIN) + BytesFor(width) <= size ==>
        Eval(e, a) == LoadWidth(old(Bytes(a)), Wrap(Eval(offset, a), DOMAIN), width, little)
    {
      hide Pow2, Eval, ByteAt, CacheInv, Wf, Width, Canon, ZExtCreate, Wrap, LoadWidth;
      Offset32Meaning(offset);
      var off := Offset32(offset);
      if off.Constant? {
        ConstantIndex(off);
        e := ReadAt(off.value, width);
      } else {
        e := ReadSymbolic(off, width);
      }
    }

    method ReadSymbolic(off: Expr, width: nat) returns (e: Expr)
      requires Valid() && IsAccessWidth(width) && BytesFor(width) <= size
      requires IsIndex(off) && !off.Constant?
      modifies this`flushMask, this`root, this`head
      ensures Valid() && Wf(e) && Width(e) == width && Canon(e)
      ensures forall a: Assignment :: Bytes(a) == old(Bytes(a))
      ensures forall a: Assignment :: Eval(off, a) + BytesFor(width) <= size ==>
        Eval(e, a) == LoadWidth(old(Bytes(a)), Eval(off, a), width, little)
    {
      hide *;
      AccessWidths(width);
      var n := BytesFor(width);
      ghost var d := Denotation();
      DenotationShape();
      if width == 1 {
        var b := ReadByteOf(off, 0);
        LoadBit(b, off, d, size, little);
        e := ExtractCreate(b, 0, 1);
      } else {
        e := Zero(1);
        for i := 0 to n
          invariant Valid() && Denotation() == d
          invariant i > 0 ==> LoadsLow(e, off, d, size, n, little, i)
        {
          var b := ReadByteOf(off, Place(n, i, little));
          if i == 0 {
            LoadFirst(b, off, d, size, n, little);
            e := b;
          } else {
            LoadNext(b, e, off, d, size, n, little, i);
            e := ConcatCreate(b, e);
          }
        }
        LoadAll(e, off, d, size, width, little);
      }
      DenotesSame();
      LoadedMeans(e, off, d, size, width, little);
    }

    /** Reads the byte `k` bytes after a symbolic offset. */
    method ReadByteOf(off: Expr, k: nat) returns (e: Expr)
      requires Valid() && k < size && IsIndex(off) && !off.Constant?
      modifies this`flushMask, this`root, this`head
      ensures Valid() && Denotation() == old(Denotation())
      ensures IsDenotation(Denotation(), size) && IsByteOf(e, off, Denotation(), size, k)
    {
      assert size < Pow2(DOMAIN);
      hide *;
      OffsetPlus(off, k, size);
      e := ReadByteIn(AddCreate(off, IndexConst(k)));
      ByteFurther(e, off, AddCreate(off, IndexConst(k)), Denotation(), size, k);
    }

    method ReadByteIn(index: Expr) returns (e: Expr)
      requires Valid() && IsIndex(index) && !index.Constant?
      modifies this`flushMask, this`root, this`head
      ensures Valid() && Denotation() == old(Denotation())
      ensures IsDenotation(Denotation(), size) && IsByteOf(e, index, Denotation(), size, 0)
    {
      hide Pow2, Eval, ByteAt, CacheInv, Shape, IsByteExpr, IsIndex;
      e := Read8Symbolic(index);
      SameDenotation();
      ghost var d := Denotation();
      forall a: Assignment | Eval(index, a) + 0 < size ensures Eval(e, a) == d[a][Eval(index, a) + 0] {
        assert Bytes(a) == d[a];
      }
    }

    /** Writes `n` bytes of a constant: the 16, 32 and 64 bit writers. */
    method WriteWord(offset: nat, value: nat, n: nat)
      requires Valid() && offset + n <= size
      modifies this`concreteMask, this`flushMask, this`knownSymbolics, concreteStore
      ensures Valid()
      ensures forall a: Assignment :: Bytes(a) == Store(old(Bytes(a)), offset, n, little, value)
    {
      hide Pow2, ByteAt, CacheInv, ExtractBits;
      RangePow2();
      for i := 0 to n
        invariant Valid()
        invariant forall a: Assignment :: Bytes(a) == StoreLow(old(Bytes(a)), offset, n, little, value, i)
      {
        Write8(offset + Place(n, i, little), ExtractBits(value, 8 * i, 8));
      }
    }

    /** A write at a constant offset. */
    method WriteAt(offset: nat, value: Expr)
      requires Valid() && Wf(value) && Canon(value) && IsAccessWidth(Width(value)) && offset + BytesFor(Width(value)) <= size
      modifies this`concreteMask, this`flushMask, this`knownSymbolics, concreteStore
      ensures Valid()
      ensures forall a: Assignment :: Bytes(a) == StoreWidth(old(Bytes(a)), offset, Width(value), little, Eval(value, a))
    {
      hide Pow2, Eval, ByteAt, CacheInv, ExtractCreate, ExtractBits, Wf, Width, ZExtCreate;
      var w := Width(value);
      if value.Constant? && w in {1, 8, 16, 32, 64} {
        ConstantMeaningForAll(value);
        if w == 1 {
          BitRange(value);
          Write8(offset, value.value);
        } else {
          WriteWord(offset, value.value, w / 8);
        }
        return;
      }
      if w == 1 {
        BitAsByte(value);
        Write8Expr(offset, ZExtCreate(value, RANGE));
        return;
      }
      var n := w / 8;
      for i := 0 to n
        invariant Valid()
        invariant forall a: Assignment :: Bytes(a) == StoreLow(old(Bytes(a)), offset, n, little, Eval(value, a), i)
      {
        ByteOf(value, i);
        Write8Expr(offset + Place(n, i, little), ExtractCreate(value, 8 * i, RANGE));
      }
    }

    /** A write at any offset, cut to 32 bits. */
    method Write(offset: Expr, value: Expr)
      requires Valid() && Wf(value) && Canon(value) && IsAccessWidth(Width(value)) && BytesFor(Width(value)) <= size
      requires Wf(offset) && Canon(offset)
      requires Offset32(offset).Constant? ==> Offset32(offset).value + BytesFor(Width(value)) <= size
      modifies this`concreteMask, this`flushMask, this`knownSymbolics, this`head, concreteStore
      ensures Valid()
      ensures forall a: Assignment :: Wrap(Eval(offset, a), DOMAIN) + BytesFor(Width(value)) <= size ==>
        Bytes(a) == StoreWidth(old(Bytes(a)), Wrap(Eval(offset, a), DOMAIN), Width(value), little, Eval(value, a))
    {
      hide Pow2, Eval, ByteAt, CacheInv, Wf, Width, Canon, ZExtCreate, Wrap, StoreWidth;
      Offset32Meaning(offset);
      var off := Offset32(offset);
      if off.Constant? {
        ConstantIndex(off);
        WriteAt(off.value, value);
      } else {
        WriteSymbolic(off, value);
      }
    }

    method WriteSymbolic(off: Expr, value: Expr)
      requires Valid() && Wf(value) && Canon(value) && IsAccessWidth(Width(value)) && BytesFor(Width(value)) <= size
      requires IsIndex(off) && !off.Constant?
      modifies this`concreteMask, this`flushMask, this`knownSymbolics, this`head
      ensures Valid()
      ensures forall a: Assignment :: Eval(off, a) + BytesFor(Width(value)) <= size ==>
        Bytes(a) == StoreWidth(old(Bytes(a)), Eval(off, a), Width(value), little, Eval(value, a))
    {
      hide Pow2, Eval, ByteAt, CacheInv, ExtractCreate, ExtractBits, Wf, Width, Canon, ZExtCreate;
      hide IsByteExpr, IsChain, WfArray;
      var w := Width(value);
      if w == 1 {
        BitAsByte(value);
        Write8Symbolic(off, ZExtCreate(value, RANGE));
        return;
      }
      var n := w / 8;
      for i := 0 to n
        invariant Valid()
        invariant forall a: Assignment :: Eval(off, a) + n <= size ==>
          Bytes(a) == StoreLow(old(Bytes(a)), Eval(off, a), n, little, Eval(value, a), i)
      {
        WriteByteOf(off, value, i, Place(n, i, little));
      }
    }

    /** Stores byte `i` of a value `k` bytes after a symbolic offset. */
    method WriteByteOf(off: Expr, value: Expr, i: nat, k: nat)
      requires Valid() && Wf(value) && Canon(value) && 8 * i + 8 <= Width(value) && k < size
      requires IsIndex(off) && !off.Constant?
      modifies this`concreteMask, this`flushMask, this`knownSymbolics, this`head
      ensures Valid()
      ensures forall a: Assignment :: Eval(off, a) + k < size ==>
        Bytes(a) == old(Bytes(a))[Eval(off, a) + k := ExtractBits(Eval(value, a), 8 * i, 8)]
    {
      hide Pow2, Eval, ByteAt, CacheInv, ExtractCreate, ExtractBits, Wf, Width, Canon, AddCreate;
      ByteOf(value, i);
      OffsetPlus(off, k, size);
      Write8Symbolic(AddCreate(off, IndexConst(k)), ExtractCreate(value, 8 * i, RANGE));
    }

    method InitializeToZero()
      requires Valid()
      modifies this`concreteMask, this`flushMask, this`knownSymbolics, concreteStore
      ensures Valid()
      ensures forall i: nat, a: Assignment :: i < size ==> ByteAt(i, a) == 0
    {
      hide Pow2, Eval, EvalRead, WfArray, IsChain, IsByteExpr;
      MakeConcrete();
      forall i | 0 <= i < size { concreteStore[i] := 0; }
    }

    method InitializeToRandom()
      requires Valid()
      modifies this`concreteMask, this`flushMask, this`knownSymbolics, concreteStore
      ensures Valid()
      ensures forall i: nat, a: Assignment :: i < size ==> ByteAt(i, a) == 0xAB
    {
      hide Pow2, Eval, EvalRead, WfArray, IsChain, IsByteExpr;
      MakeConcrete();
      for k := 0 to size
        invariant Shape() && concreteMask.None? && flushMask.None? && knownSymbolics.None?
        invariant forall i :: 0 <= i < k ==> concreteStore[i] == 0xAB
      {
        concreteStore[k] := 0xAB;
      }
    }
  }

  // ------------------------------------------------------------ loading byte by byte

  ghost predicate IsDenotation(d: imap<Assignment, seq<nat>>, size: nat) {
    forall a: Assignment :: a in d && |d[a]| == size
  }

  /** `e` holds the `i` lowest bytes of the value at `off`, wherever that is in bounds. */
  ghost predicate LoadsLow(e: Expr, off: Expr, d: imap<Assignment, seq<nat>>, size: nat, n: nat, little: bool, i: nat)
    requires IsDenotation(d, size) && i <= n
  {
    && Wf(e) && Width(e) == 8 * i && Canon(e)
    && forall a: Assignment :: Eval(off, a) + n <= size ==> Eval(e, a) == LoadLow(d[a], Eval(off, a), n, little, i)
  }

  /** `e` is the value of the given width at `off`, wherever that is in bounds. */
  ghost predicate Loads(e: Expr, off: Expr, d: imap<Assignment, seq<nat>>, size: nat, width: nat, little: bool)
    requires IsDenotation(d, size) && IsAccessWidth(width)
  {
    && Wf(e) && Width(e) == width && Canon(e)
    && forall a: Assignment :: Eval(off, a) + BytesFor(width) <= size ==>
         Eval(e, a) == LoadWidth(d[a], Eval(off, a), width, little)
  }

  /** The byte `b` is byte `k` after `off` of what the object denotes. */
  ghost predicate IsByteOf(b: Expr, off: Expr, d: imap<Assignment, seq<nat>>, size: nat, k: nat)
    requires IsDenotation(d, size)
  {
    IsByteExpr(b) && forall a: Assignment :: Eval(off, a) + k < size ==> Eval(b, a) == d[a][Eval(off, a) + k]
  }

  /** A byte at a moved offset is a byte further on. */
  lemma {:induction false} ByteFurther(b: Expr, off: Expr, index: Expr, d: imap<Assignment, seq<nat>>, size: nat, k: nat)
    requires IsDenotation(d, size) && IsByteOf(b, index, d, size, 0)
    requires forall a: Assignment :: Eval(off, a) + k < size ==> Eval(index, a) == Eval(off, a) + k
    ensures IsByteOf(b, off, d, size, k)
  {
    hide Eval, IsByteExpr;
    forall a: Assignment | Eval(off, a) + k < size ensures Eval(b, a) == d[a][Eval(off, a) + k] {
      assert Eval(index, a) + 0 < size;
    }
  }

  lemma {:induction false} AccessWidths(width: nat)
    requires IsAccessWidth(width)
    ensures if width == 1 then BytesFor(width) == 1 else width == 8 * BytesFor(width)
    ensures BytesFor(width) > 0
  { }

  lemma {:induction false} LoadBit(b: Expr, off: Expr, d: imap<Assignment, seq<nat>>, size: nat, little: bool)
    requires IsDenotation(d, size) && IsByteOf(b, off, d, size, 0)
    ensures IsAccessWidth(1) && Wf(b) && Width(b) == RANGE
    ensures Loads(ExtractCreate(b, 0, 1), off, d, size, 1, little)
  {
    LowBit(b);
    hide Eval, Wf, Width, Canon, ExtractCreate, ExtractBits, IsDenotation;
  }

  lemma {:induction false} LoadFirst(b: Expr, off: Expr, d: imap<Assignment, seq<nat>>, size: nat, n: nat, little: bool)
    requires IsDenotation(d, size) && n > 0 && IsByteOf(b, off, d, size, Place(n, 0, little))
    ensures LoadsLow(b, off, d, size, n, little, 1)
  {
    LoneByte();
    hide Eval, Wf, Width, Canon, ConcatBits;
    forall a: Assignment | Eval(off, a) + n <= size
      ensures Eval(b, a) == LoadLow(d[a], Eval(off, a), n, little, 1)
    {
      assert LoadLow(d[a], Eval(off, a), n, little, 0) == 0;
    }
  }

  lemma {:induction false} LoadNextAt(b: Expr, e: Expr, off: Expr, d: imap<Assignment, seq<nat>>, size: nat, n: nat, little: bool,
      i: nat, a: Assignment)
    requires IsDenotation(d, size) && 0 < i < n && Eval(off, a) + n <= size
    requires IsByteOf(b, off, d, size, Place(n, i, little)) && LoadsLow(e, off, d, size, n, little, i)
    ensures Wf(b) && Wf(e)
    ensures Eval(ConcatCreate(b, e), a) == LoadLow(d[a], Eval(off, a), n, little, i + 1)
  {
    hide Eval, Wf, Width, Canon, ConcatCreate, ConcatBits, LoadLow;
    LoadLowStep(d[a], Eval(off, a), n, little, i);
    ConcatMeaning(b, e, a);
  }

  lemma {:induction false} LoadNext(b: Expr, e: Expr, off: Expr, d: imap<Assignment, seq<nat>>, size: nat, n: nat, little: bool, i: nat)
    requires IsDenotation(d, size) && 0 < i < n
    requires IsByteOf(b, off, d, size, Place(n, i, little)) && LoadsLow(e, off, d, size, n, little, i)
    ensures Wf(b) && Wf(e) && LoadsLow(ConcatCreate(b, e), off, d, size, n, little, i + 1)
  {
    PartsOf(b, e, off, d, size, n, little, i, Place(n, i, little));
    hide *;
    Joined(b, e);
    forall a: Assignment | Eval(off, a) + n <= size
      ensures a in d && Eval(off, a) + n <= |d[a]| && Eval(ConcatCreate(b, e), a) == LoadLow(d[a], Eval(off, a), n, little, i + 1)
    {
      InDenotation(d, size, a);
      LoadNextAt(b, e, off, d, size, n, little, i, a);
    }
    MakeLoadsLow(ConcatCreate(b, e), off, d, size, n, little, i + 1);
  }

  lemma {:induction false} PartsOf(b: Expr, e: Expr, off: Expr, d: imap<Assignment, seq<nat>>, size: nat, n: nat, little: bool, i: nat, k: nat)
    requires IsDenotation(d, size) && i <= n && IsByteOf(b, off, d, size, k) && LoadsLow(e, off, d, size, n, little, i)
    ensures IsByteExpr(b) && Wf(b) && Width(b) == RANGE && Wf(e) && Width(e) == 8 * i && Canon(e)
  {
    hide Wf, Width, Canon;
  }

  lemma {:induction false} InDenotation(d: imap<Assignment, seq<nat>>, size: nat, a: Assignment)
    requires IsDenotation(d, size)
    ensures a in d && |d[a]| == size
  { }

  lemma {:induction false} MakeLoadsLow(e: Expr, off: Expr, d: imap<Assignment, seq<nat>>, size: nat, n: nat, little: bool, i: nat)
    requires IsDenotation(d, size) && i <= n && Wf(e) && Width(e) == 8 * i && Canon(e)
    requires forall a: Assignment :: Eval(off, a) + n <= size ==>
      a in d && Eval(off, a) + n <= |d[a]| && Eval(e, a) == LoadLow(d[a], Eval(off, a), n, little, i)
    ensures LoadsLow(e, off, d, size, n, little, i)
  {
    hide Eval, Wf, Width, Canon, LoadLow;
  }

  lemma {:induction false} LoadAll(e: Expr, off: Expr, d: imap<Assignment, seq<nat>>, size: nat, width: nat, little: bool)
    requires IsDenotation(d, size) && IsAccessWidth(width) && width != 1
    requires LoadsLow(e, off, d, size, BytesFor(width), little, BytesFor(width))
    ensures Loads(e, off, d, size, width, little)
  {
    hide Eval, Wf, Width, Canon, LoadLow;
  }

  lemma {:induction false} LoadedMeans(e: Expr, off: Expr, d: imap<Assignment, seq<nat>>, size: nat, width: nat, little: bool)
    requires IsDenotation(d, size) && IsAccessWidth(width) && Loads(e, off, d, size, width, little)
    ensures Wf(e) && Width(e) == width && Canon(e)
    ensures forall a: Assignment :: Eval(off, a) + BytesFor(width) <= size ==>
      a in d && |d[a]| == size && Eval(e, a) == LoadWidth(d[a], Eval(off, a), width, little)
  { }

  // ----------------------------------------------------------- chains of writes

  /** The chain that results from performing `ws`, oldest first, on `base`. */
  function ChainOn(base: Updates, ws: seq<(Expr, Expr)>): (us: Updates) {
    if ws == [] then base
    else Update(ws[|ws| - 1].0, ws[|ws| - 1].1, ChainOn(base, ws[..|ws| - 1]))
  }

  lemma {:induction false} ChainPrepend(i: Expr, v: Expr, base: Updates, ws: seq<(Expr, Expr)>)
    ensures ChainOn(Update(i, v, base), ws) == ChainOn(base, [(i, v)] + ws)
  {
    var all := [(i, v)] + ws;
    if ws == [] {
      assert all[..|all| - 1] == [];
    } else {
      ChainPrepend(i, v, base, ws[..|ws| - 1]);
      assert all[..|all| - 1] == [(i, v)] + ws[..|ws| - 1];
    }
  }

  lemma {:induction false} ChainSplit(xs: seq<(Expr, Expr)>, ys: seq<(Expr, Expr)>)
    ensures ChainOn(Done, xs + ys) == ChainOn(ChainOn(Done, xs), ys)
  {
    if ys == [] {
      assert xs + ys == xs;
    } else {
      ChainSplit(xs, ys[..|ys| - 1]);
      assert (xs + ys)[..|xs + ys| - 1] == xs + ys[..|ys| - 1];
    }
  }

  /** The writes of a chain, oldest first. */
  method CollectWrites(us: Updates) returns (ws: seq<(Expr, Expr)>)
    ensures ChainOn(Done, ws) == us
  {
    ws := [];
    var un := us;
    while un.Update?
      invariant ChainOn(un, ws) == us
      decreases un
    {
      ChainPrepend(un.index, un.value, un.next, ws);
      ws := [(un.index, un.value)] + ws;
      un := un.next;
    }
  }

  predicate IsConstantWrite(w: (Expr, Expr)) {
    w.0.Constant? && w.1.Constant?
  }

  /** Performs the oldest constant writes on an array of zeros. */
  method FoldConstantWrites(ws: seq<(Expr, Expr)>, size: nat) returns (contents: seq<Byte>, begin: nat)
    requires IsChain(ChainOn(Done, ws), size)
    ensures |contents| == size && begin <= |ws|
    ensures forall i: nat, a: Assignment :: i < size ==>
      EvalRead(ZeroArray(size), ChainOn(Done, ws[..begin]), i, a) == contents[i]
  {
    hide Pow2, Wf, Width;
    contents, begin := seq(size, _ => 0), 0;
    assert ws[..0] == [];
    while begin < |ws| && IsConstantWrite(ws[begin])
      invariant begin <= |ws| && |contents| == size
      invariant forall i: nat, a: Assignment :: i < size ==>
        EvalRead(ZeroArray(size), ChainOn(Done, ws[..begin]), i, a) == contents[i]
    {
      ChainMember(ws, begin, size);
      assert ws[..begin + 1][..begin] == ws[..begin];
      contents := contents[ws[begin].0.value := ws[begin].1.value];
      begin := begin + 1;
    }
  }

  /** A constant array and a remaining chain that hold the same bytes as the whole
      chain does on zeros. */
  method BuildConstantRoot(us: Updates, size: nat) returns (r: Array, rest: Updates)
    requires IsChain(us, size)
    ensures WfArray(r) && IsChain(rest, size)
    ensures forall i: nat, a: Assignment :: i < size ==>
      EvalRead(r, rest, i, a) == EvalRead(ZeroArray(size), us, i, a)
  {
    hide Pow2, Eval, EvalRead, Wf, Width, IsChain;
    var writes := CollectWrites(us);
    var contents, begin := FoldConstantWrites(writes, size);
    var done, todo := writes[..begin], writes[begin..];
    assert writes == done + todo;
    ChainSplit(done, todo);
    ChainWf(done, todo, size);
    var name: string := *;
    r := Array(name, size, contents);
    SameOnTop(ZeroArray(size), ChainOn(Done, done), r, Done, todo, size, contents);
    rest := Done;
    for k := 0 to |todo|
      invariant rest == ChainOn(Done, todo[..k])
    {
      assert todo[..k + 1][..k] == todo[..k];
      rest := Update(todo[k].0, todo[k].1, rest);
    }
    assert todo[..|todo|] == todo;
  }

  lemma {:induction false} ChainMember(ws: seq<(Expr, Expr)>, k: nat, size: nat)
    requires k < |ws| && IsChain(ChainOn(Done, ws), size)
    ensures IsIndex(ws[k].0) && IsByteExpr(ws[k].1)
    ensures ws[k].0.Constant? ==> ws[k].0.value < size
    ensures ws[k].1.Constant? ==> ws[k].1.value < 256
  {
    hide Pow2;
    if k == |ws| - 1 {
      RangePow2();
    } else {
      ChainMember(ws[..|ws| - 1], k, size);
    }
  }

  lemma {:induction false} ChainWf(xs: seq<(Expr, Expr)>, ys: seq<(Expr, Expr)>, size: nat)
    requires IsChain(ChainOn(Done, xs + ys), size)
    ensures IsChain(ChainOn(Done, ys), size)
  {
    hide Wf, Width;
    if ys == [] {
    } else {
      assert (xs + ys)[..|xs + ys| - 1] == xs + ys[..|ys| - 1];
      ChainWf(xs, ys[..|ys| - 1], size);
    }
  }

  /** The same writes on top of chains that agree leave them in agreement. */
  lemma {:induction false} SameOnTop(r1: Array, b1: Updates, r2: Array, b2: Updates,
                                     ws: seq<(Expr, Expr)>, size: nat, contents: seq<Byte>)
    requires |contents| == size && r2.constantValues == contents && b2 == Done
    requires forall i: nat, a: Assignment :: i < size ==> EvalRead(r1, b1, i, a) == contents[i]
    ensures forall i: nat, a: Assignment :: i < size ==>
      EvalRead(r1, ChainOn(b1, ws), i, a) == EvalRead(r2, ChainOn(b2, ws), i, a)
  {
    hide Eval;
    if ws == [] {
    } else {
      SameOnTop(r1, b1, r2, b2, ws[..|ws| - 1], size, contents);
    }
  }

  lemma {:induction false} ChainParts(us: Updates, n: nat)
    requires IsChain(us, n)
    ensures WfUpdates(us) && CanonUpdates(us)
  { }

  /** A write at a constant index changes that byte only. */
  lemma {:induction false} Extend(root: Array, us: Updates, off: nat, value: Expr, size: nat)
    requires IsChain(us, size) && off < size < Pow2(DOMAIN) && IsByteExpr(value)
    ensures IsChain(Update(IndexConst(off), value, us), size)
    ensures forall i: nat, a: Assignment ::
      (EvalRead(root, Update(IndexConst(off), value, us), i, a)
       == if i == off then Eval(value, a) else EvalRead(root, us, i, a))
  {
    IndexConstIs(off);
    hide Pow2, Canon, Wf, Width, Eval;
  }

  lemma {:induction false} ConstantByte(b: Byte)
    ensures IsByteExpr(ByteConst(b)) && forall a: Assignment :: Eval(ByteConst(b), a) == b
  {
    RangePow2();
  }

  lemma {:induction false} ExtendSymbolic(root: Array, us: Updates, index: Expr, value: Expr, size: nat)
    requires IsChain(us, size) && IsIndex(index) && !index.Constant? && IsByteExpr(value)
    ensures IsChain(Update(index, value, us), size)
    ensures forall i: nat, a: Assignment ::
      (EvalRead(root, Update(index, value, us), i, a)
       == if i == Eval(index, a) then Eval(value, a) else EvalRead(root, us, i, a))
  {
    hide Pow2;
  }

  lemma {:induction false} ConstantByteValue(e: Expr)
    requires IsByteExpr(e) && e.Constant?
    ensures e.value < 256 && forall a: Assignment :: Eval(e, a) == e.value
  {
    RangePow2();
  }

  lemma {:induction false} ReadMeaningForAll(r: Array, us: Updates, index: Expr)
    requires WfArray(r) && WfUpdates(us) && CanonUpdates(us) && IsIndex(index)
    ensures IsByteExpr(ReadCreate(r, us, index))
    ensures forall a: Assignment :: Eval(ReadCreate(r, us, index), a) == EvalRead(r, us, Eval(index, a), a)
  {
    hide ReadCreate, Eval, EvalRead, Pow2, Canon, CanonUpdates;
    ReadCanon(r, us, index);
    forall a: Assignment
      ensures Eval(ReadCreate(r, us, index), a) == EvalRead(r, us, Eval(index, a), a)
    {
      ReadMeaning(r, us, index, a);
    }
  }

  lemma {:induction false} IndexConstIs(i: nat)
    requires i < Pow2(DOMAIN)
    ensures IsIndex(IndexConst(i)) && forall a: Assignment :: Eval(IndexConst(i), a) == i
  {
    hide Pow2;
  }

  lemma {:induction false} ReadFrom(r: Array, us: Updates, index: Expr, i: nat)
    requires WfArray(r) && WfUpdates(us) && CanonUpdates(us) && i < Pow2(DOMAIN) && index == IndexConst(i)
    ensures IsByteExpr(ReadCreate(r, us, index)) && IsIndex(index)
    ensures forall a: Assignment :: Eval(ReadCreate(r, us, index), a) == EvalRead(r, us, i, a)
  {
    IndexConstIs(i);
    hide ReadCreate, EvalRead, Pow2, WfUpdates, WfArray, CanonUpdates, Canon, Eval;
    ReadMeaningForAll(r, us, index);
  }

  lemma {:induction false} LowBit(b: Expr)
    requires IsByteExpr(b)
    ensures Wf(ExtractCreate(b, 0, 1)) && Width(ExtractCreate(b, 0, 1)) == 1 && Canon(ExtractCreate(b, 0, 1))
    ensures forall a: Assignment :: Eval(ExtractCreate(b, 0, 1), a) == ExtractBits(Eval(b, a), 0, 1)
  {
    hide ExtractCreate, Eval, ExtractBits, Pow2, Canon;
    ExtractCanon(b, 0, 1);
    forall a: Assignment
      ensures Eval(ExtractCreate(b, 0, 1), a) == ExtractBits(Eval(b, a), 0, 1)
    {
      ExtractMeaning(b, 0, 1, a);
    }
  }

  lemma {:induction false} LoneByte()
    ensures forall x: nat :: ConcatBits(x, 0, 0) == x
  {
    assert Pow2(0) == 1;
  }

  lemma {:induction false} Joined(b: Expr, e: Expr)
    requires IsByteExpr(b) && Wf(e) && Canon(e)
    ensures Wf(ConcatCreate(b, e)) && Width(ConcatCreate(b, e)) == RANGE + Width(e) && Canon(ConcatCreate(b, e))
    ensures forall a: Assignment :: Eval(ConcatCreate(b, e), a) == ConcatBits(Eval(b, a), Eval(e, a), Width(e))
  {
    hide ConcatCreate, Eval, ConcatBits, Pow2, Canon;
    ConcatCanon(b, e);
    forall a: Assignment
      ensures Eval(ConcatCreate(b, e), a) == ConcatBits(Eval(b, a), Eval(e, a), Width(e))
    {
      ConcatMeaning(b, e, a);
    }
  }

  function Offset32(offset: Expr): (e: Expr)
    requires Wf(offset)
  {
    ZExtCreate(offset, DOMAIN)
  }

  lemma {:induction false} Offset32Meaning(offset: Expr)
    requires Wf(offset) && Canon(offset)
    ensures IsIndex(Offset32(offset))
    ensures forall a: Assignment :: Eval(Offset32(offset), a) == Wrap(Eval(offset, a), DOMAIN)
  {
    hide Eval, Wrap, Pow2, Wf, Width, ExtractCreate;
    if DOMAIN < Width(offset) {
      ExtractCanon(offset, 0, DOMAIN);
    }
    forall a: Assignment
      ensures Eval(Offset32(offset), a) == Wrap(Eval(offset, a), DOMAIN)
    {
      ZExtMeaning(offset, DOMAIN, a);
    }
  }

  lemma {:induction false} ConstantIndex(e: Expr)
    requires IsIndex(e) && e.Constant?
    ensures forall a: Assignment :: Eval(e, a) == e.value
  {
  }

  lemma {:induction false} ConstantMeaningForAll(e: Expr)
    requires e.Constant?
    ensures forall a: Assignment :: Eval(e, a) == e.value
  {
  }

  lemma {:induction false} BitRange(e: Expr)
    requires Wf(e) && Width(e) == 1 && e.Constant?
    ensures e.value < 256
  {
    assert Pow2(1) == 2;
  }

  lemma {:induction false} BitAsByte(e: Expr)
    requires Wf(e) && Width(e) == 1 && Canon(e)
    ensures IsByteExpr(ZExtCreate(e, RANGE))
    ensures forall a: Assignment :: Eval(ZExtCreate(e, RANGE), a) == Eval(e, a)
  {
    hide Eval, Wrap, Pow2, Wf, Width;
    assert Canon(ZExtCreate(e, RANGE));
    hide ZExtCreate, Canon;
    forall a: Assignment
      ensures Eval(ZExtCreate(e, RANGE), a) == Eval(e, a)
    {
      ZExtMeaning(e, RANGE, a);
      BoolRange(e, a);
      RangePow2();
      WrapSmall(Eval(e, a), RANGE);
    }
  }

  /** Byte `i` of a value, counted from the least significant. */
  lemma {:induction false} ByteOf(e: Expr, i: nat)
    requires Wf(e) && Canon(e) && 8 * i + 8 <= Width(e)
    ensures IsByteExpr(ExtractCreate(e, 8 * i, RANGE))
    ensures forall a: Assignment :: Eval(ExtractCreate(e, 8 * i, RANGE), a) == ExtractBits(Eval(e, a), 8 * i, 8)
  {
    hide Eval, Pow2, ExtractCreate, ExtractBits, Wf, Width, Canon;
    ExtractCanon(e, 8 * i, RANGE);
    forall a: Assignment
      ensures Eval(ExtractCreate(e, 8 * i, RANGE), a) == ExtractBits(Eval(e, a), 8 * i, 8)
    {
      ExtractMeaning(e, 8 * i, RANGE, a);
    }
  }

  /** Adding a byte index to a symbolic offset stays symbolic, and in bounds it does
      not wrap around. */
  lemma {:induction false} OffsetPlus(off: Expr, k: nat, size: nat)
    requires IsIndex(off) && !off.Constant? && k < size < Pow2(DOMAIN)
    ensures IsIndex(IndexConst(k)) && SameWidth(off, IndexConst(k))
    ensures IsIndex(AddCreate(off, IndexConst(k))) && !AddCreate(off, IndexConst(k)).Constant?
    ensures forall a: Assignment :: Eval(off, a) + k < size ==>
      Eval(AddCreate(off, IndexConst(k)), a) == Eval(off, a) + k
  {
    hide AddCreate, Apply;
    assert IsIndex(IndexConst(k)) && Canon(IndexConst(k));
    AddCanon(off, IndexConst(k));
    forall a: Assignment | Eval(off, a) + k < size
      ensures Eval(AddCreate(off, IndexConst(k)), a) == Eval(off, a) + k
    {
      AddMeaning(off, IndexConst(k), a);
      AddSmall(Eval(off, a), k, DOMAIN);
    }
  }

  lemma {:induction false} AddSmall(x: nat, y: nat, w: nat)
    requires x + y < Pow2(w)
    ensures Apply(Add, x, y, w) == x + y
  {
    hide Wrap, Pow2;
    WrapSmall(x + y, w);
  }

  lemma {:induction false} EmptyChain(root: Array)
    ensures forall i: nat, a: Assignment :: EvalRead(root, Done, i, a) == RootByte(root, i, a)
  {
  }
}
