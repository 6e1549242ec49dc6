/** The test-case file format by itself: where every field of a file lies, and exactly which
    files the reader accepts, with older headers, older versions and trailing bytes. */
module KTestFormat {
  import opened Options
  import opened Exprs
  import opened KTests

  // ------------------------------------------------------------ where the fields lie

  /** The four bytes at `off`, most significant first, hold `v`. */
  predicate Holds32(d: seq<Byte>, off: nat, v: int) {
    off + 4 <= |d| &&
    var b0: int, b1: int, b2: int, b3: int := d[off], d[off + 1], d[off + 2], d[off + 3];
    v == b0 * 0x100_0000 + b1 * 0x1_0000 + b2 * 0x100 + b3
  }

  predicate HoldsBytes(d: seq<Byte>, off: nat, s: seq<Byte>) {
    off + |s| <= |d| && d[off..off + |s|] == s
  }

  /** A string is its length and its bytes. */
  predicate HoldsString(d: seq<Byte>, off: nat, s: seq<Byte>) {
    Holds32(d, off, |s|) && HoldsBytes(d, off + 4, s)
  }

  /** An object is its name, and its size and bytes. */
  predicate HoldsObject(d: seq<Byte>, off: nat, o: Object) {
    HoldsString(d, off, o.name) && HoldsString(d, off + 4 + |o.name|, o.bytes)
  }

  function ArgsSize(xs: seq<seq<Byte>>): (n: nat) {
    if xs == [] then 0 else 4 + |xs[0]| + ArgsSize(xs[1..])
  }

  function ObjsSize(xs: seq<Object>): (n: nat) {
    if xs == [] then 0 else 8 + |xs[0].name| + |xs[0].bytes| + ObjsSize(xs[1..])
  }

  lemma {:induction false} U32Holds(v: int)
    requires 0 <= v < LIMIT
    ensures Holds32(U32(v), 0, v)
  {
    JoinSplit(v);
  }

  lemma {:induction false} Holds32In(p: seq<Byte>, v: int, q: seq<Byte>)
    requires 0 <= v < LIMIT
    ensures Holds32(p + U32(v) + q, |p|, v)
  {
    U32Holds(v);
    hide U32;
    var d := p + U32(v) + q;
    assert forall k :: 0 <= k < 4 ==> d[|p| + k] == U32(v)[k];
  }

  lemma {:induction false} HoldsBytesIn(p: seq<Byte>, s: seq<Byte>, q: seq<Byte>)
    ensures HoldsBytes(p + s + q, |p|, s)
  { }

  lemma {:induction false} HoldsStringIn(p: seq<Byte>, s: seq<Byte>, q: seq<Byte>)
    requires |s| < LIMIT
    ensures HoldsString(p + (U32(|s|) + s) + q, |p|, s)
  {
    hide U32, Holds32, HoldsBytes;
    Holds32In(p, |s|, s + q);
    HoldsBytesIn(p + U32(|s|), s, q);
    assert p + (U32(|s|) + s) + q == p + U32(|s|) + (s + q) == (p + U32(|s|)) + s + q;
  }

  lemma {:induction false} HoldsObjectIn(p: seq<Byte>, o: Object, q: seq<Byte>)
    requires |o.name| < LIMIT && |o.bytes| < LIMIT
    ensures HoldsObject(p + Obj(o) + q, |p|, o)
  {
    hide U32, HoldsString;
    var name, body := U32(|o.name|) + o.name, U32(|o.bytes|) + o.bytes;
    HoldsStringIn(p, o.name, body + q);
    HoldsStringIn(p + name, o.bytes, q);
    assert Obj(o) == name + body;
    assert p + Obj(o) + q == p + name + (body + q) == (p + name) + body + q;
  }

  /** Argument `i` comes after the arguments before it. */
  lemma {:induction false} ArgsAt(p: seq<Byte>, xs: seq<seq<Byte>>, q: seq<Byte>, i: nat)
    requires forall k :: 0 <= k < |xs| ==> |xs[k]| < LIMIT
    ensures |Args(xs)| == ArgsSize(xs)
    ensures i < |xs| ==> HoldsString(p + Args(xs) + q, |p| + ArgsSize(xs[..i]), xs[i])
    decreases |xs|
  {
    hide HoldsString;
    if xs == [] {
    } else {
      var first, more := U32(|xs[0]|) + xs[0], Args(xs[1..]);
      assert Args(xs) == first + more;
      assert p + Args(xs) + q == p + first + (more + q) == (p + first) + more + q;
      HoldsStringIn(p, xs[0], more + q);
      if 0 < i < |xs| {
        ArgsAt(p + first, xs[1..], q, i - 1);
        assert xs[..i][1..] == xs[1..][..i - 1];
      } else {
        ArgsAt(p + first, xs[1..], q, 0);
      }
    }
  }

  lemma {:induction false} ObjsAt(p: seq<Byte>, xs: seq<Object>, q: seq<Byte>, i: nat)
    requires forall k :: 0 <= k < |xs| ==> |xs[k].name| < LIMIT && |xs[k].bytes| < LIMIT
    ensures |Objs(xs)| == ObjsSize(xs)
    ensures i < |xs| ==> HoldsObject(p + Objs(xs) + q, |p| + ObjsSize(xs[..i]), xs[i])
    decreases |xs|
  {
    hide HoldsObject;
    if xs == [] {
    } else {
      var first, more := Obj(xs[0]), Objs(xs[1..]);
      assert |first| == 8 + |xs[0].name| + |xs[0].bytes|;
      hide Obj;
      assert p + Objs(xs) + q == p + first + (more + q) == (p + first) + more + q;
      HoldsObjectIn(p, xs[0], more + q);
      if 0 < i < |xs| {
        ObjsAt(p + first, xs[1..], q, i - 1);
        assert xs[..i][1..] == xs[1..][..i - 1];
      } else {
        ObjsAt(p + first, xs[1..], q, 0);
      }
    }
  }

  /** Where the counts after the arguments start. */
  function AfterArgs(t: KTest): (n: nat) { 13 + ArgsSize(t.args) }

  /** Every field of a complete file, at its place. */
  ghost predicate LaidOut(d: seq<Byte>, t: KTest) {
    && HoldsBytes(d, 0, ['K' as int, 'T' as int, 'E' as int, 'S' as int, 'T' as int])
    && Holds32(d, 5, 3) && Holds32(d, 9, |t.args|)
    && (forall i :: 0 <= i < |t.args| ==> HoldsString(d, 13 + ArgsSize(t.args[..i]), t.args[i]))
    && Holds32(d, AfterArgs(t), t.symArgvs) && Holds32(d, AfterArgs(t) + 4, t.symArgvLen)
    && Holds32(d, AfterArgs(t) + 8, |t.objects|)
    && (forall i :: 0 <= i < |t.objects| ==> HoldsObject(d, AfterArgs(t) + 12 + ObjsSize(t.objects[..i]), t.objects[i]))
    && |d| == AfterArgs(t) + 12 + ObjsSize(t.objects)
  }

  lemma {:induction false} CompleteFileLaidOut(t: KTest)
    requires KTests.Wf(t)
    ensures LaidOut(Encode(t), t)
  {
    hide U32, Args, Objs, Holds32, HoldsString, HoldsObject;
    var d, args, objs := Encode(t), Args(t.args), Objs(t.objects);
    var h1 := MAGIC + U32(VERSION);
    var h2 := h1 + U32(|t.args|);
    var h3 := h2 + args;
    var h4 := h3 + U32(t.symArgvs);
    var h5 := h4 + U32(t.symArgvLen);
    var h6 := h5 + U32(|t.objects|);
    var e5 := U32(|t.objects|) + objs;
    var e4 := U32(t.symArgvLen) + e5;
    var e3 := U32(t.symArgvs) + e4;
    var e2 := args + e3;
    assert d == h6 + objs + [] == h5 + U32(|t.objects|) + objs == h4 + U32(t.symArgvLen) + e5;
    assert d == h3 + U32(t.symArgvs) + e4 == h2 + args + e3 == h1 + U32(|t.args|) + e2 == MAGIC + U32(VERSION) + (U32(|t.args|) + e2);
    Holds32In(MAGIC, VERSION, U32(|t.args|) + e2);
    Holds32In(h1, |t.args|, e2);
    ArgsAt(h2, t.args, e3, 0);
    Holds32In(h3, t.symArgvs, e4);
    Holds32In(h4, t.symArgvLen, e5);
    Holds32In(h5, |t.objects|, objs);
    ObjsAt(h6, t.objects, [], 0);
    forall i | 0 <= i < |t.args| ensures HoldsString(d, 13 + ArgsSize(t.args[..i]), t.args[i]) {
      ArgsAt(h2, t.args, e3, i);
    }
    forall i | 0 <= i < |t.objects| ensures HoldsObject(d, |h6| + ObjsSize(t.objects[..i]), t.objects[i]) {
      ObjsAt(h6, t.objects, [], i);
    }
  }

  // ------------------------------------------------------- which files are accepted

  /** Lengths fit their fields; strings may hold zero bytes. */
  ghost predicate Sized(t: KTest) {
    && |t.args| < LIMIT && (forall i :: 0 <= i < |t.args| ==> |t.args[i]| < LIMIT)
    && 0 <= t.symArgvs < LIMIT && 0 <= t.symArgvLen < LIMIT
    && |t.objects| < LIMIT && (forall i :: 0 <= i < |t.objects| ==> |t.objects[i].name| < LIMIT && |t.objects[i].bytes| < LIMIT)
  }

  /** What a file of the given version holds. */
  function EncodeAs(header: seq<Byte>, version: int, t: KTest): (r: seq<Byte>) {
    header + U32(version) + (U32(|t.args|) + Args(t.args) + Argv(version, t) + (U32(|t.objects|) + Objs(t.objects)))
  }

  /** Versions below 2 have no argv fields. */
  function Argv(version: int, t: KTest): (r: seq<Byte>) {
    if version < 2 then [] else U32(t.symArgvs) + U32(t.symArgvLen)
  }

  /** A string, used as a C string, ends at its first zero byte. */
  ghost predicate CutAt(s: seq<Byte>, r: seq<Byte>) {
    |r| <= |s| && (forall i :: 0 <= i < |r| ==> r[i] == s[i] && s[i] != 0) && (|r| < |s| ==> s[|r|] == 0)
  }

  /** The record `r` is what the reader makes of the record `t` in a file of version `version`. */
  ghost predicate ReadAs(t: KTest, version: int, r: KTest) {
    && r.version == version && r.symArgvs == t.symArgvs && r.symArgvLen == t.symArgvLen
    && |r.args| == |t.args| && (forall i :: 0 <= i < |t.args| ==> CutAt(t.args[i], r.args[i]))
    && |r.objects| == |t.objects|
    && (forall i :: 0 <= i < |t.objects| ==>
         CutAt(t.objects[i].name, r.objects[i].name) && r.objects[i].bytes == t.objects[i].bytes)
  }

  /** File `d` is a file of one of the known versions with record `t`, and perhaps more after it. */
  ghost predicate IsFile(d: seq<Byte>, header: seq<Byte>, version: int, t: KTest, junk: seq<Byte>) {
    && d == EncodeAs(header, version, t) + junk
    && (header == MAGIC || header == ['B' as int, 'O' as int, 'U' as int, 'T' as int, '\n' as int]) && 0 <= version <= 3
    && Sized(t) && NothingEmpty(t) && (version < 2 ==> t.symArgvs == 0 && t.symArgvLen == 0)
  }

  lemma {:induction false} TruncatedCuts(s: seq<Byte>)
    ensures CutAt(s, Truncated(s))
  {
    if s == [] || s[0] == 0 {
    } else {
      TruncatedCuts(s[1..]);
    }
  }

  lemma {:induction false} CutUnique(s: seq<Byte>, r: seq<Byte>)
    requires CutAt(s, r)
    ensures r == Truncated(s)
  {
    TruncatedCuts(s);
    assert |r| == |Truncated(s)|;
  }

  // Reading what was laid out.

  lemma {:induction false} StrReads(s: seq<Byte>, rest: seq<Byte>)
    requires s != [] && |s| < LIMIT
    ensures GetStr(Str(s) + rest) == Got(Truncated(s), rest)
  {
    assert Str(s) + rest == U32(|s|) + (s + rest);
    U32RoundTrip(|s|, s + rest);
    BlockRoundTrip(s, rest);
    hide U32, GetU32, Block, Truncated;
  }

  function CutArgs(xs: seq<seq<Byte>>): (r: seq<seq<Byte>>)
    ensures |r| == |xs| && forall i :: 0 <= i < |xs| ==> r[i] == Truncated(xs[i])
  {
    if xs == [] then [] else [Truncated(xs[0])] + CutArgs(xs[1..])
  }

  function CutObjs(xs: seq<Object>): (r: seq<Object>)
    ensures |r| == |xs| && forall i :: 0 <= i < |xs| ==> r[i] == Object(Truncated(xs[i].name), xs[i].bytes)
  {
    if xs == [] then [] else [Object(Truncated(xs[0].name), xs[0].bytes)] + CutObjs(xs[1..])
  }

  lemma {:induction false} ArgsRead(xs: seq<seq<Byte>>, rest: seq<Byte>)
    requires forall i :: 0 <= i < |xs| ==> xs[i] != [] && |xs[i]| < LIMIT
    ensures GetArgs(Args(xs) + rest, |xs|) == Got(CutArgs(xs), rest)
  {
    hide GetStr, Str, Truncated;
    if xs == [] {
      assert Args(xs) + rest == rest;
    } else {
      var more := Args(xs[1..]) + rest;
      ArgsFirst(xs, rest);
      StrReads(xs[0], more);
      ArgsRead(xs[1..], rest);
      ArgsMore(Str(xs[0]) + more, |xs|, Truncated(xs[0]), more, CutArgs(xs[1..]), rest);
    }
  }

  lemma {:induction false} ObjReads(o: Object, rest: seq<Byte>)
    requires o.name != [] && o.bytes != [] && |o.name| < LIMIT && |o.bytes| < LIMIT
    ensures GetObj(Obj(o) + rest) == Got(Object(Truncated(o.name), o.bytes), rest)
  {
    var tail := o.bytes + rest;
    assert Obj(o) + rest == Str(o.name) + (U32(|o.bytes|) + tail);
    StrReads(o.name, U32(|o.bytes|) + tail);
    U32RoundTrip(|o.bytes|, tail);
    BlockRoundTrip(o.bytes, rest);
    hide GetStr, GetU32, Block, U32, Str, Truncated;
  }

  lemma {:induction false} ObjsRead(xs: seq<Object>, rest: seq<Byte>)
    requires forall i :: 0 <= i < |xs| ==> xs[i].name != [] && xs[i].bytes != [] && |xs[i].name| < LIMIT && |xs[i].bytes| < LIMIT
    ensures GetObjs(Objs(xs) + rest, |xs|) == Got(CutObjs(xs), rest)
  {
    hide GetObj, Obj, Truncated;
    if xs == [] {
      assert Objs(xs) + rest == rest;
    } else {
      var more := Objs(xs[1..]) + rest;
      ObjsFirst(xs, rest);
      ObjReads(xs[0], more);
      ObjsRead(xs[1..], rest);
      ObjsMore(Obj(xs[0]) + more, |xs|, CutObjs(xs)[0], more, CutObjs(xs[1..]), rest);
    }
  }

  function CutRecord(t: KTest, version: int): (r: KTest) {
    KTest(version, CutArgs(t.args), t.symArgvs, t.symArgvLen, CutObjs(t.objects))
  }

  lemma {:induction false} CutRecordReads(t: KTest, version: int, r: KTest)
    ensures ReadAs(t, version, r) <==> r == CutRecord(t, version)
  {
    forall s: seq<Byte>, q: seq<Byte> ensures CutAt(s, q) <==> q == Truncated(s) {
      TruncatedCuts(s);
      if CutAt(s, q) { CutUnique(s, q); }
    }
    hide CutAt, Truncated;
    if ReadAs(t, version, r) {
      assert r.args == CutArgs(t.args);
      forall i | 0 <= i < |t.objects| ensures r.objects[i] == CutObjs(t.objects)[i] { }
      assert r.objects == CutObjs(t.objects);
    }
  }

  lemma {:induction false} TailReads(t: KTest, version: int, junk: seq<Byte>)
    requires Sized(t) && NothingEmpty(t)
    ensures Tail(version, CutArgs(t.args), t.symArgvs, t.symArgvLen, U32(|t.objects|) + (Objs(t.objects) + junk))
         == Some(CutRecord(t, version))
  {
    U32RoundTrip(|t.objects|, Objs(t.objects) + junk);
    ObjsRead(t.objects, junk);
    hide GetU32, GetObjs, U32, Objs, CutArgs, CutObjs;
  }

  lemma {:induction false} ArgvReads(t: KTest, version: int, rest: seq<Byte>)
    requires Sized(t) && version >= 2
    ensures GetU32(Argv(version, t) + rest) == Got(t.symArgvs, U32(t.symArgvLen) + rest)
    ensures GetU32(U32(t.symArgvLen) + rest) == Got(t.symArgvLen, rest)
  {
    U32RoundTrip(t.symArgvs, U32(t.symArgvLen) + rest);
    U32RoundTrip(t.symArgvLen, rest);
    hide U32, GetU32;
    assert Argv(version, t) + rest == U32(t.symArgvs) + (U32(t.symArgvLen) + rest);
  }

  lemma {:induction false} BodySteps(version: nat, d: seq<Byte>, n: int, d1: seq<Byte>, args: seq<seq<Byte>>, d2: seq<Byte>)
    requires n >= 0 && GetU32(d) == Got(n, d1) && GetArgs(d1, n) == Got(args, d2)
    ensures version < 2 ==> Body(version, d) == Tail(version, args, 0, 0, d2)
    ensures forall x, y, d3, d4 :: version >= 2 && GetU32(d2) == Got(x, d3) && GetU32(d3) == Got(y, d4) ==>
      Body(version, d) == Tail(version, args, x, y, d4)
  {
    hide GetU32, GetArgs, Tail;
  }

  lemma {:induction false} BodyReads(t: KTest, version: nat, junk: seq<Byte>)
    requires Sized(t) && NothingEmpty(t) && (version < 2 ==> t.symArgvs == 0 && t.symArgvLen == 0)
    ensures Body(version, U32(|t.args|) + (Args(t.args) + (Argv(version, t) + (U32(|t.objects|) + (Objs(t.objects) + junk)))))
         == Some(CutRecord(t, version))
  {
    hide U32, Args, Objs, GetU32, GetArgs, Tail, Body, CutArgs, CutObjs;
    var d5 := U32(|t.objects|) + (Objs(t.objects) + junk);
    var d3 := Argv(version, t) + d5;
    U32RoundTrip(|t.args|, Args(t.args) + d3);
    ArgsRead(t.args, d3);
    BodySteps(version, U32(|t.args|) + (Args(t.args) + d3), |t.args|, Args(t.args) + d3, CutArgs(t.args), d3);
    TailReads(t, version, junk);
    if version >= 2 { ArgvReads(t, version, d5); } else { assert d3 == d5; }
  }

  lemma {:induction false} FileReads(d: seq<Byte>, header: seq<Byte>, version: int, t: KTest, junk: seq<Byte>)
    requires IsFile(d, header, version, t, junk)
    ensures Decode(d) == Some(CutRecord(t, version))
  {
    var d2 := U32(|t.args|) + (Args(t.args) + (Argv(version, t) + (U32(|t.objects|) + (Objs(t.objects) + junk))));
    BodyReads(t, version, junk);
    BlockRoundTrip(header, U32(version) + d2);
    U32RoundTrip(version, d2);
    hide U32, Args, Objs, GetU32, Body, Block, CutRecord, Argv;
    Regroup(header, U32(version), U32(|t.args|), Args(t.args), Argv(version, t), U32(|t.objects|), Objs(t.objects), junk);
  }

  lemma {:induction false} Regroup(a: seq<Byte>, b: seq<Byte>, c: seq<Byte>, d: seq<Byte>, e: seq<Byte>, f: seq<Byte>, g: seq<Byte>, h: seq<Byte>)
    ensures a + b + (c + d + e + (f + g)) + h == a + (b + (c + (d + (e + (f + (g + h))))))
  { }

  // What was read was laid out.

  lemma {:induction false} JoinedDigits(b0: Byte, b1: Byte, b2: Byte, b3: Byte)
    ensures U32(Join(b0, b1, b2, b3)) == [b0, b1, b2, b3]
  {
    var v := Join(b0, b1, b2, b3);
    var a: int, b: int := b0 * 0x100 + b1, (b0 * 0x100 + b1) * 0x100 + b2;
    assert v == b * 0x100 + b3;
    assert v / 0x100 == b && v % 0x100 == b3;
    assert b / 0x100 == a && b % 0x100 == b2;
    assert a / 0x100 == b0 && a % 0x100 == b1;
    assert v / 0x1_0000 == b / 0x100 && v / 0x100_0000 == a / 0x100;
  }

  lemma {:induction false} U32Read(d: seq<Byte>)
    requires GetU32(d).Got?
    ensures 0 <= GetU32(d).value < LIMIT && d == U32(GetU32(d).value) + GetU32(d).rest
  {
    JoinedDigits(d[0], d[1], d[2], d[3]);
    hide U32, Join;
  }

  lemma {:induction false} BlockRead(d: seq<Byte>, n: nat)
    requires Block(d, n).Got?
    ensures var s := Block(d, n).value; n > 0 && |s| == n && d == s + Block(d, n).rest
  { }

  lemma {:induction false} StrRead(d: seq<Byte>) returns (s: seq<Byte>)
    requires GetStr(d).Got?
    ensures s != [] && |s| < LIMIT && d == Str(s) + GetStr(d).rest && GetStr(d).value == Truncated(s)
  {
    U32Read(d);
    var e := GetU32(d).rest;
    BlockRead(e, GetU32(d).value);
    s := Block(e, GetU32(d).value).value;
    hide U32, GetU32, Block, Truncated;
  }

  lemma {:induction false} ArgsWereLaidOut(d: seq<Byte>, n: nat) returns (xs: seq<seq<Byte>>)
    requires GetArgs(d, n).Got?
    ensures |xs| == n && (forall i :: 0 <= i < n ==> xs[i] != [] && |xs[i]| < LIMIT)
    ensures d == Args(xs) + GetArgs(d, n).rest && GetArgs(d, n).value == CutArgs(xs)
    decreases n
  {
    hide GetStr, Str, Truncated;
    if n == 0 {
      xs := [];
      assert d == Args(xs) + d;
    } else {
      var s := StrRead(d);
      var ys := ArgsWereLaidOut(GetStr(d).rest, n - 1);
      xs := [s] + ys;
      ArgsFirst(xs, GetArgs(d, n).rest);
    }
  }

  lemma {:induction false} ObjFirst(o: Object, rest: seq<Byte>)
    ensures Obj(o) + rest == Str(o.name) + (U32(|o.bytes|) + (o.bytes + rest))
  {
    hide U32, Str;
  }

  lemma {:induction false} ObjRead(d: seq<Byte>) returns (o: Object)
    requires GetObj(d).Got?
    ensures o.name != [] && o.bytes != [] && |o.name| < LIMIT && |o.bytes| < LIMIT
    ensures d == Obj(o) + GetObj(d).rest && GetObj(d).value == Object(Truncated(o.name), o.bytes)
  {
    var name := StrRead(d);
    var e := GetStr(d).rest;
    U32Read(e);
    var f := GetU32(e).rest;
    BlockRead(f, GetU32(e).value);
    o := Object(name, Block(f, GetU32(e).value).value);
    assert GetObj(d) == Got(Object(Truncated(name), o.bytes), Block(f, |o.bytes|).rest);
    ObjFirst(o, GetObj(d).rest);
    hide U32, Str, GetU32, GetStr, Block, Truncated, GetObj, Obj;
  }

  lemma {:induction false} ObjsWereLaidOut(d: seq<Byte>, n: nat) returns (xs: seq<Object>)
    requires GetObjs(d, n).Got?
    ensures |xs| == n
    ensures forall i :: 0 <= i < n ==> xs[i].name != [] && xs[i].bytes != [] && |xs[i].name| < LIMIT && |xs[i].bytes| < LIMIT
    ensures d == Objs(xs) + GetObjs(d, n).rest && GetObjs(d, n).value == CutObjs(xs)
    decreases n
  {
    hide GetObj, Obj, Truncated;
    if n == 0 {
      xs := [];
      assert d == Objs(xs) + d;
    } else {
      var o := ObjRead(d);
      var ys := ObjsWereLaidOut(GetObj(d).rest, n - 1);
      xs := [o] + ys;
      ObjsFirst(xs, GetObjs(d, n).rest);
    }
  }

  lemma {:induction false} TailWasLaidOut(version: int, args: seq<seq<Byte>>, x: int, y: int, d: seq<Byte>)
      returns (objects: seq<Object>, junk: seq<Byte>)
    requires Tail(version, args, x, y, d).Some?
    ensures |objects| < LIMIT
    ensures forall i :: 0 <= i < |objects| ==>
      objects[i].name != [] && objects[i].bytes != [] && |objects[i].name| < LIMIT && |objects[i].bytes| < LIMIT
    ensures d == U32(|objects|) + (Objs(objects) + junk)
    ensures Tail(version, args, x, y, d) == Some(KTest(version, args, x, y, CutObjs(objects)))
  {
    U32Read(d);
    var e, n := GetU32(d).rest, GetU32(d).value;
    objects := ObjsWereLaidOut(e, n);
    junk := GetObjs(e, n).rest;
    hide U32, Objs, GetU32, GetObjs, CutObjs;
  }

  lemma {:induction false} ArgvRead(d: seq<Byte>) returns (x: int, y: int, rest: seq<Byte>)
    requires GetU32(d).Got? && GetU32(GetU32(d).rest).Got?
    ensures 0 <= x < LIMIT && 0 <= y < LIMIT && d == U32(x) + U32(y) + rest
    ensures GetU32(d).value == x && GetU32(GetU32(d).rest) == Got(y, rest)
  {
    var e := GetU32(d).rest;
    U32Read(d);
    U32Read(e);
    x, y, rest := GetU32(d).value, GetU32(e).value, GetU32(e).rest;
    hide U32, GetU32;
    assert U32(x) + (U32(y) + rest) == U32(x) + U32(y) + rest;
  }

  lemma {:induction false} BodyWasLaidOut(version: nat, d: seq<Byte>) returns (t: KTest, junk: seq<Byte>)
    requires Body(version, d).Some?
    ensures Sized(t) && NothingEmpty(t) && (version < 2 ==> t.symArgvs == 0 && t.symArgvLen == 0)
    ensures d == U32(|t.args|) + (Args(t.args) + (Argv(version, t) + (U32(|t.objects|) + (Objs(t.objects) + junk))))
    ensures Body(version, d) == Some(CutRecord(t, version))
  {
    U32Read(d);
    var n, d1 := GetU32(d).value, GetU32(d).rest;
    var args := ArgsWereLaidOut(d1, n);
    var d2 := GetArgs(d1, n).rest;
    hide U32, Args, Objs, GetU32, GetArgs, Tail, CutArgs, CutObjs;
    if version < 2 {
      var objects, rest := TailWasLaidOut(version, CutArgs(args), 0, 0, d2);
      t, junk := KTest(version, args, 0, 0, objects), rest;
      assert d2 == Argv(version, t) + d2;
    } else {
      var x, y, d4 := ArgvRead(d2);
      var objects, rest := TailWasLaidOut(version, CutArgs(args), x, y, d4);
      t, junk := KTest(version, args, x, y, objects), rest;
      assert Argv(version, t) == U32(x) + U32(y);
    }
  }

  /** Main theorem: the reader accepts exactly the files of the known headers and versions in
      which nothing is empty, whatever follows the record, and the record it returns has the
      strings cut at their first zero byte. */
  lemma {:induction false} AcceptsExactly(d: seq<Byte>, r: KTest)
    ensures Decode(d) == Some(r)
       <==> exists header, version, t, junk :: IsFile(d, header, version, t, junk) && ReadAs(t, version, r)
  {
    if Decode(d) == Some(r) {
      BlockRead(d, 5);
      var header, d1 := Block(d, 5).value, Block(d, 5).rest;
      U32Read(d1);
      var version := GetU32(d1).value;
      var t, junk := BodyWasLaidOut(version, GetU32(d1).rest);
      hide U32, Args, Objs, GetU32, Body, Block, CutRecord, Argv;
      CutRecordReads(t, version, r);
      Regroup(header, U32(version), U32(|t.args|), Args(t.args), Argv(version, t), U32(|t.objects|), Objs(t.objects), junk);
      assert IsFile(d, header, version, t, junk);
    }
    if header, version, t, junk :| IsFile(d, header, version, t, junk) && ReadAs(t, version, r) {
      FileReads(d, header, version, t, junk);
      CutRecordReads(t, version, r);
    }
  }
}
