/** The plain memory model: one byte per offset, with multi-byte loads and stores
    in either byte order. */
module ByteArrays {
  import opened Bits

  /** Where the `i`-th least significant of `n` bytes lives. */
  function Place(n: nat, i: nat, little: bool): (p: nat)
    requires i < n
    ensures p < n
  {
    if little then i else n - i - 1
  }

  /** The low `k` bytes of the `n`-byte value at `off`. */
  function LoadLow(bs: seq<nat>, off: nat, n: nat, little: bool, k: nat): (v: nat)
    requires off + n <= |bs| && k <= n
  {
    if k == 0 then 0
    else ConcatBits(bs[off + Place(n, k - 1, little)], LoadLow(bs, off, n, little, k - 1), 8 * (k - 1))
  }

  lemma {:induction false} LoadLowStep(bs: seq<nat>, off: nat, n: nat, little: bool, k: nat)
    requires off + n <= |bs| && k < n
    ensures LoadLow(bs, off, n, little, k + 1)
         == ConcatBits(bs[off + Place(n, k, little)], LoadLow(bs, off, n, little, k), 8 * k)
  { }

  function Load(bs: seq<nat>, off: nat, n: nat, little: bool): (v: nat)
    requires off + n <= |bs|
  {
    LoadLow(bs, off, n, little, n)
  }

  /** Writes the low `k` bytes of the `n`-byte value `v` at `off`. */
  function StoreLow(bs: seq<nat>, off: nat, n: nat, little: bool, v: nat, k: nat): (r: seq<nat>)
    requires off + n <= |bs| && k <= n
    ensures |r| == |bs|
  {
    if k == 0 then bs
    else StoreLow(bs, off, n, little, v, k - 1)[off + Place(n, k - 1, little) := ExtractBits(v, 8 * (k - 1), 8)]
  }

  function Store(bs: seq<nat>, off: nat, n: nat, little: bool, v: nat): (r: seq<nat>)
    requires off + n <= |bs|
    ensures |r| == |bs|
  {
    StoreLow(bs, off, n, little, v, n)
  }

  /** A store places byte `i` of the value, and touches nothing else. */
  lemma {:induction false} StoreLowAt(bs: seq<nat>, off: nat, n: nat, little: bool, v: nat, k: nat, j: nat)
    requires off + n <= |bs| && k <= n && j < |bs|
    ensures forall i :: 0 <= i < k && j == off + Place(n, i, little) ==>
      StoreLow(bs, off, n, little, v, k)[j] == ExtractBits(v, 8 * i, 8)
    ensures (forall i :: 0 <= i < k ==> j != off + Place(n, i, little)) ==>
      StoreLow(bs, off, n, little, v, k)[j] == bs[j]
  {
    hide ExtractBits;
    if k == 0 {
    } else {
      StoreLowAt(bs, off, n, little, v, k - 1, j);
    }
  }

  lemma {:induction false} StoreOutside(bs: seq<nat>, off: nat, n: nat, little: bool, v: nat, j: nat)
    requires off + n <= |bs| && j < |bs| && !(off <= j < off + n)
    ensures Store(bs, off, n, little, v)[j] == bs[j]
  {
    StoreLowAt(bs, off, n, little, v, n, j);
  }

  lemma {:induction false} LoadStored(bs: seq<nat>, off: nat, n: nat, little: bool, v: nat, k: nat)
    requires off + n <= |bs| && k <= n
    ensures LoadLow(Store(bs, off, n, little, v), off, n, little, k) == ExtractBits(v, 0, 8 * k)
  {
    hide ExtractBits, ConcatBits;
    if k == 0 {
      assert ExtractBits(v, 0, 0) < Pow2(0) == 1;
    } else {
      var j := off + Place(n, k - 1, little);
      LoadStored(bs, off, n, little, v, k - 1);
      StoreLowAt(bs, off, n, little, v, n, j);
      assert Store(bs, off, n, little, v)[j] == ExtractBits(v, 8 * (k - 1), 8);
      ExtractSplit(v, 0, 8 * (k - 1), 8 * k);
    }
  }

  /** Reading back what was written yields the value. */
  lemma {:induction false} LoadAfterStore(bs: seq<nat>, off: nat, n: nat, little: bool, v: nat)
    requires off + n <= |bs| && v < Pow2(8 * n)
    ensures Load(Store(bs, off, n, little, v), off, n, little) == v
  {
    hide ExtractBits;
    LoadStored(bs, off, n, little, v, n);
    ExtractWhole(v, 8 * n);
  }

  /** A store does not disturb loads of other bytes. */
  lemma {:induction false} LoadLowSame(bs: seq<nat>, cs: seq<nat>, off: nat, n: nat, little: bool, k: nat)
    requires off + n <= |bs| == |cs| && k <= n
    requires forall j :: off <= j < off + n ==> bs[j] == cs[j]
    ensures LoadLow(bs, off, n, little, k) == LoadLow(cs, off, n, little, k)
  {
    hide ConcatBits;
    if k == 0 {
    } else {
      LoadLowSame(bs, cs, off, n, little, k - 1);
    }
  }

  // -------------------------------------------------- accesses by bit width

  /** One bit, or a whole number of bytes: the widths an access may have. */
  predicate IsAccessWidth(w: nat) {
    w == 1 || (w > 0 && w % 8 == 0)
  }

  function BytesFor(w: nat): (n: nat) { (w + 7) / 8 }

  /** Booleans occupy one byte; only its lowest bit is read back. */
  function LoadWidth(bs: seq<nat>, off: nat, w: nat, little: bool): (v: nat)
    requires IsAccessWidth(w) && off + BytesFor(w) <= |bs|
  {
    if w == 1 then ExtractBits(bs[off], 0, 1) else Load(bs, off, BytesFor(w), little)
  }

  function StoreWidth(bs: seq<nat>, off: nat, w: nat, little: bool, v: nat): (r: seq<nat>)
    requires IsAccessWidth(w) && off + BytesFor(w) <= |bs|
    ensures |r| == |bs|
  {
    if w == 1 then bs[off := v] else Store(bs, off, BytesFor(w), little, v)
  }

  /** A value read back at the width it was written with is the value written. */
  lemma {:induction false} ReadBack(bs: seq<nat>, off: nat, w: nat, little: bool, v: nat)
    requires IsAccessWidth(w) && off + BytesFor(w) <= |bs| && v < Pow2(w)
    ensures LoadWidth(StoreWidth(bs, off, w, little, v), off, w, little) == v
  {
    hide ExtractBits;
    if w == 1 {
      ExtractWhole(v, 1);
    } else {
      LoadAfterStore(bs, off, BytesFor(w), little, v);
    }
  }

  /** Accesses that do not overlap do not interfere. */
  lemma {:induction false} ReadApart(bs: seq<nat>, off: nat, w: nat, at: nat, u: nat, little: bool, v: nat)
    requires IsAccessWidth(w) && off + BytesFor(w) <= |bs| && IsAccessWidth(u) && at + BytesFor(u) <= |bs|
    requires off + BytesFor(w) <= at || at + BytesFor(u) <= off
    ensures LoadWidth(StoreWidth(bs, off, w, little, v), at, u, little) == LoadWidth(bs, at, u, little)
  {
    hide ExtractBits;
    var cs := StoreWidth(bs, off, w, little, v);
    forall j | at <= j < at + BytesFor(u) ensures cs[j] == bs[j] {
      if w != 1 { StoreOutside(bs, off, BytesFor(w), little, v, j); }
    }
    if u != 1 { LoadLowSame(cs, bs, at, BytesFor(u), little, BytesFor(u)); }
  }

  // ------------------------------------------------------------- byte order

  lemma {:induction false} LoadLowByte(bs: seq<nat>, off: nat, n: nat, little: bool, k: nat, i: nat)
    requires off + n <= |bs| && i < k <= n
    requires forall j :: off <= j < off + n ==> bs[j] < Pow2(8)
    ensures LoadLow(bs, off, n, little, k) < Pow2(8 * k)
    ensures ExtractBits(LoadLow(bs, off, n, little, k), 8 * i, 8) == bs[off + Place(n, i, little)]
  {
    hide ExtractBits, ConcatBits, Pow2;
    var m := 8 * (k - 1);
    var hi, lo := bs[off + Place(n, k - 1, little)], LoadLow(bs, off, n, little, k - 1);
    assert lo < Pow2(m) by {
      if k == 1 { assert LoadLow(bs, off, n, little, 0) == 0; } else { LoadLowByte(bs, off, n, little, k - 1, 0); }
    }
    ConcatRange(hi, lo, 8, m);
    if i == k - 1 {
      ExtractHigh(hi, lo, m, m, 8);
      ExtractWhole(hi, 8);
    } else {
      LoadLowByte(bs, off, n, little, k - 1, i);
      ExtractLow(hi, lo, m, 8 * i, 8);
    }
  }

  /** What byte order means for a read: byte `i` of the value, counted from the least
      significant one, is the `i`-th byte of the access if the object is little-endian
      and the `i`-th last otherwise. A boolean is the lowest bit of its byte. */
  lemma {:induction false} LoadOrder(bs: seq<nat>, off: nat, w: nat, little: bool, i: nat)
    requires IsAccessWidth(w) && off + BytesFor(w) <= |bs| && 8 * i < w
    requires forall j :: 0 <= j < |bs| ==> bs[j] < 256
    ensures LoadWidth(bs, off, w, little) < Pow2(w)
    ensures w == 1 ==> LoadWidth(bs, off, w, little) == bs[off] % 2
    ensures w > 1 ==>
      LoadWidth(bs, off, w, little) / Pow2(8 * i) % 256 == bs[if little then off + i else off + w / 8 - 1 - i]
  {
    PowersOfTwo();
    if w > 1 {
      var n := w / 8;
      assert BytesFor(w) == n && 8 * n == w && i < n;
      hide Pow2, LoadLow;
      LoadLowByte(bs, off, n, little, n, i);
    }
  }

  /** And for a write. */
  lemma {:induction false} StoreOrder(bs: seq<nat>, off: nat, w: nat, little: bool, v: nat, i: nat)
    requires IsAccessWidth(w) && off + BytesFor(w) <= |bs| && 8 * i < w && v < Pow2(w)
    ensures w == 1 ==> StoreWidth(bs, off, w, little, v) == bs[off := v]
    ensures w > 1 ==>
      StoreWidth(bs, off, w, little, v)[if little then off + i else off + w / 8 - 1 - i] == v / Pow2(8 * i) % 256
    ensures forall j :: 0 <= j < |bs| && !(off <= j < off + BytesFor(w)) ==> StoreWidth(bs, off, w, little, v)[j] == bs[j]
  {
    PowersOfTwo();
    if w > 1 {
      var n := w / 8;
      assert BytesFor(w) == n && 8 * n == w && i < n;
      hide Pow2, StoreLow;
      StoreLowAt(bs, off, n, little, v, n, off + Place(n, i, little));
      forall j | 0 <= j < |bs| && !(off <= j < off + n) ensures Store(bs, off, n, little, v)[j] == bs[j] {
        StoreOutside(bs, off, n, little, v, j);
      }
    }
  }
}
