/** The file format of generated test cases: a writer and a reader over a byte stream. */
module KTests {
  import opened Options
  import opened Exprs

  const LIMIT: int := 0x1_0000_0000
  const VERSION: int := 3
  const MAGIC: seq<Byte> := [75, 84, 69, 83, 84]
  const OLD_MAGIC: seq<Byte> := [66, 79, 85, 84, 10]

  /** A C string: no byte of it is zero. */
  ghost predicate CString(s: seq<Byte>) {
    forall i :: 0 <= i < |s| ==> s[i] != 0
  }

  datatype Object = Object(name: seq<Byte>, bytes: seq<Byte>)

  datatype KTest = KTest(version: int, args: seq<seq<Byte>>, symArgvs: int, symArgvLen: int, objects: seq<Object>)

  ghost predicate WfString(s: seq<Byte>) { CString(s) && |s| + 1 < LIMIT }

  ghost predicate WfObject(o: Object) { WfString(o.name) && |o.bytes| < LIMIT }

  /** Counts and lengths fit the unsigned fields that hold them. */
  ghost predicate Wf(t: KTest) {
    && |t.args| < LIMIT && (forall i :: 0 <= i < |t.args| ==> WfString(t.args[i]))
    && 0 <= t.symArgvs < LIMIT && 0 <= t.symArgvLen < LIMIT
    && |t.objects| < LIMIT && (forall i :: 0 <= i < |t.objects| ==> WfObject(t.objects[i]))
  }

  /** No argument, name or object body is empty. */
  predicate NothingEmpty(t: KTest) {
    && (forall i :: 0 <= i < |t.args| ==> t.args[i] != [])
    && (forall i :: 0 <= i < |t.objects| ==> t.objects[i].name != [] && t.objects[i].bytes != [])
  }

  // ------------------------------------------------------------------- the format

  /** Four bytes, most significant first; anything above 32 bits is cut off. */
  function U32(v: int): (r: seq<Byte>)
    ensures |r| == 4
  {
    [v / 0x100_0000 % 0x100, v / 0x1_0000 % 0x100, v / 0x100 % 0x100, v % 0x100]
  }

  function Join(d0: Byte, d1: Byte, d2: Byte, d3: Byte): (v: int)
    ensures 0 <= v < LIMIT
  {
    ((d0 * 0x100 + d1) * 0x100 + d2) * 0x100 + d3
  }

  function Str(s: seq<Byte>): (r: seq<Byte>)
  {
    U32(|s|) + s
  }

  function Args(xs: seq<seq<Byte>>): (r: seq<Byte>)
  {
    if xs == [] then [] else Str(xs[0]) + Args(xs[1..])
  }

  function Obj(o: Object): (r: seq<Byte>)
  {
    Str(o.name) + U32(|o.bytes|) + o.bytes
  }

  function Objs(xs: seq<Object>): (r: seq<Byte>)
  {
    if xs == [] then [] else Obj(xs[0]) + Objs(xs[1..])
  }

  /** What a complete file holds. */
  function Encode(t: KTest): (r: seq<Byte>)
  {
    MAGIC + U32(VERSION) + U32(|t.args|) + Args(t.args) + U32(t.symArgvs) + U32(t.symArgvLen)
    + U32(|t.objects|) + Objs(t.objects)
  }

  // ------------------------------------------------------------ reading, as functions

  datatype Parsed<T> = Fail | Got(value: T, rest: seq<Byte>)

  /** One block of `n` bytes; a block of length 0 counts as a failure. */
  function Block(d: seq<Byte>, n: nat): (r: Parsed<seq<Byte>>) {
    if n == 0 || |d| < n then Fail else Got(d[..n], d[n..])
  }

  function GetU32(d: seq<Byte>): (r: Parsed<int>) {
    if |d| < 4 then Fail else Got(Join(d[0], d[1], d[2], d[3]), d[4..])
  }

  /** What is read is used as a C string, which ends at the first zero byte. */
  function Truncated(s: seq<Byte>): (r: seq<Byte>)
    ensures CString(r) && |r| <= |s|
  {
    if s == [] || s[0] == 0 then [] else [s[0]] + Truncated(s[1..])
  }

  function GetStr(d: seq<Byte>): (r: Parsed<seq<Byte>>) {
    match GetU32(d)
    case Fail => Fail
    case Got(n, e) =>
      match Block(e, n) {
        case Fail => Fail
        case Got(s, f) => Got(Truncated(s), f)
      }
  }

  function GetArgs(d: seq<Byte>, n: nat): (r: Parsed<seq<seq<Byte>>>) {
    if n == 0 then Got([], d)
    else
      match GetStr(d)
      case Fail => Fail
      case Got(s, e) =>
        match GetArgs(e, n - 1) {
          case Fail => Fail
          case Got(xs, f) => Got([s] + xs, f)
        }
  }

  function GetObj(d: seq<Byte>): (r: Parsed<Object>) {
    match GetStr(d)
    case Fail => Fail
    case Got(name, e) =>
      match GetU32(e)
      case Fail => Fail
      case Got(n, f) =>
        match Block(f, n) {
          case Fail => Fail
          case Got(bytes, g) => Got(Object(name, bytes), g)
        }
  }

  function GetObjs(d: seq<Byte>, n: nat): (r: Parsed<seq<Object>>) {
    if n == 0 then Got([], d)
    else
      match GetObj(d)
      case Fail => Fail
      case Got(o, e) =>
        match GetObjs(e, n - 1) {
          case Fail => Fail
          case Got(xs, f) => Got([o] + xs, f)
        }
  }

  // -------------------------------------------------------------------- round trips

  lemma {:induction false} JoinSplit(v: int)
    requires 0 <= v < LIMIT
    ensures var r := U32(v); Join(r[0], r[1], r[2], r[3]) == v
  {
    var a := v / 0x100;
    var b := a / 0x100;
    assert v / 0x1_0000 == b;
    assert v / 0x100_0000 == b / 0x100 < 0x100;
    assert v == a * 0x100 + v % 0x100;
    assert a == b * 0x100 + a % 0x100;
    assert b == b / 0x100 * 0x100 + b % 0x100;
  }

  lemma {:induction false} U32RoundTrip(v: int, rest: seq<Byte>)
    requires 0 <= v < LIMIT
    ensures GetU32(U32(v) + rest) == Got(v, rest)
  {
    JoinSplit(v);
    hide U32, Join;
    assert (U32(v) + rest)[4..] == rest;
  }

  lemma {:induction false} BlockRoundTrip(s: seq<Byte>, rest: seq<Byte>)
    requires s != []
    ensures Block(s + rest, |s|) == Got(s, rest)
  { }

  lemma {:induction false} TruncatedSame(s: seq<Byte>)
    requires CString(s)
    ensures Truncated(s) == s
  {
    if s == [] {
    } else {
      TruncatedSame(s[1..]);
    }
  }

  lemma {:induction false} StrRoundTrip(s: seq<Byte>, rest: seq<Byte>)
    requires CString(s) && s != [] && |s| < LIMIT
    ensures GetStr(Str(s) + rest) == Got(s, rest)
  {
    assert Str(s) + rest == U32(|s|) + (s + rest);
    U32RoundTrip(|s|, s + rest);
    BlockRoundTrip(s, rest);
    TruncatedSame(s);
    hide U32, GetU32, Block, Truncated;
  }

  lemma {:induction false} ArgsMore(d: seq<Byte>, n: nat, s: seq<Byte>, e: seq<Byte>, ys: seq<seq<Byte>>, f: seq<Byte>)
    requires n > 0 && GetStr(d) == Got(s, e) && GetArgs(e, n - 1) == Got(ys, f)
    ensures GetArgs(d, n) == Got([s] + ys, f)
  {
    hide GetStr;
  }

  lemma {:induction false} ArgsRoundTrip(xs: seq<seq<Byte>>, rest: seq<Byte>)
    requires forall i :: 0 <= i < |xs| ==> WfString(xs[i]) && xs[i] != []
    ensures GetArgs(Args(xs) + rest, |xs|) == Got(xs, rest)
  {
    if xs == [] {
    } else {
      var more := Args(xs[1..]) + rest;
      assert Args(xs) + rest == Str(xs[0]) + more;
      assert WfString(xs[0]) && xs == [xs[0]] + xs[1..];
      hide GetStr, Str, GetArgs, Args;
      StrRoundTrip(xs[0], more);
      ArgsRoundTrip(xs[1..], rest);
      ArgsMore(Str(xs[0]) + more, |xs|, xs[0], more, xs[1..], rest);
    }
  }

  lemma {:induction false} ObjRoundTrip(o: Object, rest: seq<Byte>)
    requires WfObject(o) && o.name != [] && o.bytes != []
    ensures GetObj(Obj(o) + rest) == Got(o, rest)
  {
    var tail := o.bytes + rest;
    assert Obj(o) + rest == Str(o.name) + (U32(|o.bytes|) + tail);
    StrRoundTrip(o.name, U32(|o.bytes|) + tail);
    U32RoundTrip(|o.bytes|, tail);
    BlockRoundTrip(o.bytes, rest);
    hide GetStr, GetU32, Block, U32, Str;
  }

  lemma {:induction false} ObjsMore(d: seq<Byte>, n: nat, o: Object, e: seq<Byte>, ys: seq<Object>, f: seq<Byte>)
    requires n > 0 && GetObj(d) == Got(o, e) && GetObjs(e, n - 1) == Got(ys, f)
    ensures GetObjs(d, n) == Got([o] + ys, f)
  {
    hide GetObj;
  }

  lemma {:induction false} ObjsRoundTrip(xs: seq<Object>, rest: seq<Byte>)
    requires forall i :: 0 <= i < |xs| ==> WfObject(xs[i]) && xs[i].name != [] && xs[i].bytes != []
    ensures GetObjs(Objs(xs) + rest, |xs|) == Got(xs, rest)
  {
    if xs == [] {
    } else {
      var more := Objs(xs[1..]) + rest;
      assert Objs(xs) + rest == Obj(xs[0]) + more;
      assert WfObject(xs[0]) && xs == [xs[0]] + xs[1..];
      hide GetObj, Obj, GetObjs, Objs;
      ObjRoundTrip(xs[0], more);
      ObjsRoundTrip(xs[1..], rest);
      ObjsMore(Obj(xs[0]) + more, |xs|, xs[0], more, xs[1..], rest);
    }
  }

  // ------------------------------------------------------------------- whole records

  /** The fields after the version; versions below 2 have no argv fields. */
  function Body(version: int, d: seq<Byte>): (r: Option<KTest>)
    requires version >= 0
  {
    match GetU32(d)
    case Fail => None
    case Got(numArgs, d1) =>
      match GetArgs(d1, numArgs)
      case Fail => None
      case Got(args, d2) =>
        if version < 2 then Tail(version, args, 0, 0, d2)
        else
          match GetU32(d2)
          case Fail => None
          case Got(symArgvs, d3) =>
            match GetU32(d3)
            case Fail => None
            case Got(symArgvLen, d4) => Tail(version, args, symArgvs, symArgvLen, d4)
  }

  function Tail(version: int, args: seq<seq<Byte>>, symArgvs: int, symArgvLen: int, d: seq<Byte>): (r: Option<KTest>) {
    match GetU32(d)
    case Fail => None
    case Got(numObjects, d1) =>
      match GetObjs(d1, numObjects) {
        case Fail => None
        case Got(objects, _) => Some(KTest(version, args, symArgvs, symArgvLen, objects))
      }
  }

  function Decode(d: seq<Byte>): (r: Option<KTest>) {
    match Block(d, 5)
    case Fail => None
    case Got(header, d1) =>
      if header != MAGIC && header != OLD_MAGIC then None
      else
        match GetU32(d1)
        case Fail => None
        case Got(version, d2) => if version > VERSION then None else Body(version, d2)
  }

  lemma {:induction false} TailRoundTrip(t: KTest, version: int)
    requires Wf(t) && NothingEmpty(t)
    ensures Tail(version, t.args, t.symArgvs, t.symArgvLen, U32(|t.objects|) + Objs(t.objects)) == Some(t.(version := version))
  {
    assert Objs(t.objects) + [] == Objs(t.objects);
    U32RoundTrip(|t.objects|, Objs(t.objects));
    ObjsRoundTrip(t.objects, []);
    hide GetU32, GetObjs, U32, Objs;
  }

  lemma {:induction false} BodyRoundTrip(t: KTest, version: int)
    requires Wf(t) && NothingEmpty(t) && version >= 2
    ensures var rest := U32(|t.objects|) + Objs(t.objects);
            Body(version, U32(|t.args|) + (Args(t.args) + (U32(t.symArgvs) + (U32(t.symArgvLen) + rest)))) == Some(t.(version := version))
  {
    var e4 := U32(|t.objects|) + Objs(t.objects);
    var e3 := U32(t.symArgvLen) + e4;
    var e2 := U32(t.symArgvs) + e3;
    TailRoundTrip(t, version);
    U32RoundTrip(|t.args|, Args(t.args) + e2);
    ArgsRoundTrip(t.args, e2);
    U32RoundTrip(t.symArgvs, e3);
    U32RoundTrip(t.symArgvLen, e4);
    hide GetU32, GetArgs, Tail, U32, Args, Objs;
  }

  lemma {:induction false} EncodeNested(t: KTest)
    ensures var rest := U32(|t.objects|) + Objs(t.objects);
            Encode(t) == MAGIC + (U32(VERSION) + (U32(|t.args|) + (Args(t.args) + (U32(t.symArgvs) + (U32(t.symArgvLen) + rest)))))
  {
    hide U32, Args, Objs;
    var e4 := U32(|t.objects|) + Objs(t.objects);
    var e2 := U32(t.symArgvs) + (U32(t.symArgvLen) + e4);
    var h := MAGIC + U32(VERSION) + U32(|t.args|);
    assert U32(t.symArgvs) + U32(t.symArgvLen) + U32(|t.objects|) + Objs(t.objects) == e2;
    assert Encode(t) == h + Args(t.args) + e2;
  }

  /** Main theorem: reading a complete file gives the record back, with the version of the
      format in place of the record's own, which is not written. */
  lemma {:induction false} RoundTrip(t: KTest)
    requires Wf(t) && NothingEmpty(t)
    ensures Decode(Encode(t)) == Some(t.(version := VERSION))
  {
    EncodeNested(t);
    var rest := U32(|t.objects|) + Objs(t.objects);
    var e0 := U32(|t.args|) + (Args(t.args) + (U32(t.symArgvs) + (U32(t.symArgvLen) + rest)));
    BlockRoundTrip(MAGIC, U32(VERSION) + e0);
    U32RoundTrip(VERSION, e0);
    BodyRoundTrip(t, VERSION);
    hide GetU32, Block, Body, U32, Args, Objs, Encode;
  }

  // --------------------------------------------------------------- empty parts fail

  lemma {:induction false} EmptyStrFails(rest: seq<Byte>)
    ensures GetStr(Str([]) + rest) == Fail
  {
    hide U32, Join, GetU32;
    U32RoundTrip(0, rest);
    assert Str([]) == U32(0);
  }

  lemma {:induction false} LaterArgFails(d: seq<Byte>, n: nat)
    requires n > 0 && (GetStr(d).Fail? || GetArgs(GetStr(d).rest, n - 1).Fail?)
    ensures GetArgs(d, n) == Fail
  {
    hide GetStr;
  }

  lemma {:induction false} LaterObjFails(d: seq<Byte>, n: nat)
    requires n > 0 && (GetObj(d).Fail? || GetObjs(GetObj(d).rest, n - 1).Fail?)
    ensures GetObjs(d, n) == Fail
  {
    hide GetObj;
  }

  lemma {:induction false} ArgsFirst(xs: seq<seq<Byte>>, rest: seq<Byte>)
    requires xs != []
    ensures Args(xs) + rest == Str(xs[0]) + (Args(xs[1..]) + rest)
  {
    hide Str;
  }

  lemma {:induction false} EmptyArgFails(xs: seq<seq<Byte>>, rest: seq<Byte>)
    requires forall i :: 0 <= i < |xs| ==> WfString(xs[i])
    requires exists i :: 0 <= i < |xs| && xs[i] == []
    ensures GetArgs(Args(xs) + rest, |xs|) == Fail
  {
    hide GetStr, Str, GetArgs, CString;
    var more := Args(xs[1..]) + rest;
    ArgsFirst(xs, rest);
    hide Args;
    if xs[0] == [] {
      EmptyStrFails(more);
    } else {
      StrRoundTrip(xs[0], more);
      var i :| 0 <= i < |xs| && xs[i] == [];
      assert xs[1..][i - 1] == [];
      EmptyArgFails(xs[1..], rest);
    }
    LaterArgFails(Str(xs[0]) + more, |xs|);
  }

  lemma {:induction false} EmptyObjFails(o: Object, rest: seq<Byte>)
    requires WfObject(o) && (o.name == [] || o.bytes == [])
    ensures GetObj(Obj(o) + rest) == Fail
  {
    var tail := o.bytes + rest;
    assert Obj(o) + rest == Str(o.name) + (U32(|o.bytes|) + tail);
    if o.name == [] {
      EmptyStrFails(U32(|o.bytes|) + tail);
    } else {
      StrRoundTrip(o.name, U32(|o.bytes|) + tail);
      U32RoundTrip(|o.bytes|, tail);
    }
    hide GetStr, GetU32, U32, Str;
  }

  lemma {:induction false} ObjsFirst(xs: seq<Object>, rest: seq<Byte>)
    requires xs != []
    ensures Objs(xs) + rest == Obj(xs[0]) + (Objs(xs[1..]) + rest)
  {
    hide Obj;
  }

  lemma {:induction false} EmptyObjsFail(xs: seq<Object>, rest: seq<Byte>)
    requires forall i :: 0 <= i < |xs| ==> WfObject(xs[i])
    requires exists i :: 0 <= i < |xs| && (xs[i].name == [] || xs[i].bytes == [])
    ensures GetObjs(Objs(xs) + rest, |xs|) == Fail
  {
    hide GetObj, Obj, GetObjs, WfObject;
    var more := Objs(xs[1..]) + rest;
    ObjsFirst(xs, rest);
    hide Objs;
    if xs[0].name == [] || xs[0].bytes == [] {
      EmptyObjFails(xs[0], more);
    } else {
      ObjRoundTrip(xs[0], more);
      var i :| 0 <= i < |xs| && (xs[i].name == [] || xs[i].bytes == []);
      assert xs[1..][i - 1] == xs[i];
      EmptyObjsFail(xs[1..], rest);
    }
    LaterObjFails(Obj(xs[0]) + more, |xs|);
  }

  /** The reader accepts a complete file exactly if nothing in it is empty. */
  lemma {:induction false} ReadsBackIff(t: KTest)
    requires Wf(t)
    ensures Decode(Encode(t)).Some? <==> NothingEmpty(t)
  {
    if NothingEmpty(t) {
      RoundTrip(t);
    } else {
      EncodeNested(t);
      var e4 := U32(|t.objects|) + Objs(t.objects);
      var e2 := U32(t.symArgvs) + (U32(t.symArgvLen) + e4);
      var e0 := U32(|t.args|) + (Args(t.args) + e2);
      BlockRoundTrip(MAGIC, U32(VERSION) + e0);
      U32RoundTrip(VERSION, e0);
      EmptyBodyFails(t, VERSION);
      hide GetU32, Block, Body, U32, Args, Objs, Encode;
    }
  }

  lemma {:induction false} EmptyBodyFails(t: KTest, version: int)
    requires Wf(t) && !NothingEmpty(t) && version >= 2
    ensures var e4 := U32(|t.objects|) + Objs(t.objects);
            Body(version, U32(|t.args|) + (Args(t.args) + (U32(t.symArgvs) + (U32(t.symArgvLen) + e4)))).None?
  {
    var e4 := U32(|t.objects|) + Objs(t.objects);
    var e3 := U32(t.symArgvLen) + e4;
    var e2 := U32(t.symArgvs) + e3;
    U32RoundTrip(|t.args|, Args(t.args) + e2);
    if exists i :: 0 <= i < |t.args| && t.args[i] == [] {
      EmptyArgFails(t.args, e2);
    } else {
      ArgsRoundTrip(t.args, e2);
      U32RoundTrip(t.symArgvs, e3);
      U32RoundTrip(t.symArgvLen, e4);
      U32RoundTrip(|t.objects|, Objs(t.objects));
      assert Objs(t.objects) + [] == Objs(t.objects);
      EmptyObjsFail(t.objects, []);
    }
    hide GetU32, GetArgs, GetObjs, U32, Args, Objs;
  }

  /** A record with one empty argument is well formed, and neither written nor read. */
  lemma {:induction false} EmptyArgumentIsLost()
    ensures var t := KTest(VERSION, [[]], 0, 0, []);
            Wf(t) && !NothingEmpty(t) && Decode(Encode(t)).None?
  {
    var t := KTest(VERSION, [[]], 0, 0, []);
    assert t.args[0] == [];
    ReadsBackIff(t);
    hide Decode, Encode;
  }

  /** Two records with the same file differ at most in their version. */
  lemma {:induction false} EncodeIsInjective(t: KTest, u: KTest)
    requires Wf(t) && Wf(u) && NothingEmpty(t) && NothingEmpty(u) && Encode(t) == Encode(u)
    ensures t.(version := 0) == u.(version := 0)
  {
    RoundTrip(t);
    RoundTrip(u);
  }

  // ----------------------------------------------------------------- one element more

  lemma {:induction false} ArgsAppend(xs: seq<seq<Byte>>, x: seq<Byte>)
    ensures Args(xs + [x]) == Args(xs) + Str(x)
  {
    if xs == [] {
    } else {
      assert (xs + [x])[1..] == xs[1..] + [x];
      ArgsAppend(xs[1..], x);
    }
  }

  lemma {:induction false} ObjsAppend(xs: seq<Object>, x: Object)
    ensures Objs(xs + [x]) == Objs(xs) + Obj(x)
  {
    if xs == [] {
    } else {
      assert (xs + [x])[1..] == xs[1..] + [x];
      ObjsAppend(xs[1..], x);
    }
  }

  lemma {:induction false} GetArgsAppend(d: seq<Byte>, n: nat, m: nat)
    requires GetArgs(d, n).Got?
    ensures var g := GetArgs(d, n);
            GetArgs(d, n + m) == match GetArgs(g.rest, m) case Fail => Fail case Got(ys, f) => Got(g.value + ys, f)
    decreases n
  {
    hide GetStr;
    var g := GetArgs(d, n);
    if n > 0 {
      var e := GetStr(d).rest;
      GetArgsAppend(e, n - 1, m);
      if GetArgs(g.rest, m).Got? {
        var a, ys := GetArgs(e, n - 1).value, GetArgs(g.rest, m).value;
        assert [GetStr(d).value] + (a + ys) == g.value + ys;
      }
    } else if GetArgs(d, m).Got? {
      assert [] + GetArgs(d, m).value == GetArgs(d, m).value;
    }
  }

  lemma {:induction false} GetObjsAppend(d: seq<Byte>, n: nat, m: nat)
    requires GetObjs(d, n).Got?
    ensures var g := GetObjs(d, n);
            GetObjs(d, n + m) == match GetObjs(g.rest, m) case Fail => Fail case Got(ys, f) => Got(g.value + ys, f)
    decreases n
  {
    hide GetObj;
    var g := GetObjs(d, n);
    if n > 0 {
      var e := GetObj(d).rest;
      GetObjsAppend(e, n - 1, m);
      if GetObjs(g.rest, m).Got? {
        var a, ys := GetObjs(e, n - 1).value, GetObjs(g.rest, m).value;
        assert [GetObj(d).value] + (a + ys) == g.value + ys;
      }
    } else if GetObjs(d, m).Got? {
      assert [] + GetObjs(d, m).value == GetObjs(d, m).value;
    }
  }

  // ------------------------------------------------------------------------ the stream

  /** An open file whose device never fails. */
  class File {
    var data: seq<Byte>
    var pos: nat

    ghost predicate Valid()
      reads this
    {
      pos <= |data|
    }

    ghost function Rest(): (r: seq<Byte>)
      reads this
      requires Valid()
    {
      data[pos..]
    }

    constructor (data: seq<Byte>)
      ensures Valid() && this.data == data && pos == 0
    {
      this.data, pos := data, 0;
    }

    /** One block; the number of complete blocks of a non-zero size is reported. */
    method Fwrite(chunk: seq<Byte>) returns (blocks: nat)
      modifies this`data
      ensures data == old(data) + chunk && blocks == if chunk == [] then 0 else 1
    {
      data := data + chunk;
      blocks := if chunk == [] then 0 else 1;
    }

    method Fread(n: nat) returns (blocks: nat, chunk: seq<Byte>)
      requires Valid()
      modifies this`pos
      ensures Valid()
      ensures match Block(old(Rest()), n)
              case Fail => blocks == 0
              case Got(c, rest) => blocks == 1 && chunk == c && Rest() == rest
    {
      if n == 0 {
        return 0, [];
      } else if |data| - pos < n {
        pos := |data|;
        return 0, [];
      }
      chunk := data[pos..pos + n];
      pos := pos + n;
      return 1, chunk;
    }

    method WriteUint32(v: int) returns (ok: bool)
      modifies this`data
      ensures ok && data == old(data) + U32(v)
    {
      var blocks := Fwrite(U32(v));
      ok := blocks == 1;
    }

    method ReadUint32() returns (ok: bool, v: int)
      requires Valid()
      modifies this`pos
      ensures Valid() && 0 <= v
      ensures match GetU32(old(Rest()))
              case Fail => !ok
              case Got(x, rest) => ok && v == x && Rest() == rest
    {
      var blocks, d := Fread(4);
      if blocks != 1 { return false, 0; }
      return true, Join(d[0], d[1], d[2], d[3]);
    }

    method WriteString(s: seq<Byte>) returns (ok: bool)
      modifies this`data
      ensures data == old(data) + Str(s) && (ok <==> s != [])
    {
      ok := WriteUint32(|s|);
      var blocks := Fwrite(s);
      ok := ok && blocks == 1;
    }

    method ReadString() returns (ok: bool, s: seq<Byte>)
      requires Valid()
      modifies this`pos
      ensures Valid()
      ensures match GetStr(old(Rest()))
              case Fail => !ok
              case Got(x, rest) => ok && s == x && Rest() == rest
    {
      hide GetU32, Block;
      var got, len := ReadUint32();
      if !got { return false, []; }
      var blocks, chunk := Fread(len);
      if blocks != 1 { return false, []; }
      return true, Truncated(chunk);
    }

    method ReadObject() returns (ok: bool, o: Object)
      requires Valid()
      modifies this`pos
      ensures Valid()
      ensures match GetObj(old(Rest()))
              case Fail => !ok
              case Got(x, rest) => ok && o == x && Rest() == rest
    {
      hide GetStr, GetU32, Block;
      o := Object([], []);
      var got, name := ReadString();
      if !got { return false, o; }
      var sized, n := ReadUint32();
      if !sized { return false, o; }
      var blocks, bytes := Fread(n);
      if blocks != 1 { return false, o; }
      return true, Object(name, bytes);
    }

    method WriteArgs(xs: seq<seq<Byte>>) returns (ok: bool)
      modifies this`data
      ensures ok <==> forall i :: 0 <= i < |xs| ==> xs[i] != []
      ensures ok ==> data == old(data) + Args(xs)
    {
      hide Args, Str;
      ArgsNone();
      for i := 0 to |xs|
        invariant forall k :: 0 <= k < i ==> xs[k] != []
        invariant data == old(data) + Args(xs[..i])
      {
        assert xs[..i + 1] == xs[..i] + [xs[i]];
        ArgsAppend(xs[..i], xs[i]);
        var wrote := WriteString(xs[i]);
        if !wrote { return false; }
      }
      assert xs[..|xs|] == xs;
      return true;
    }

    method WriteObjects(xs: seq<Object>) returns (ok: bool)
      modifies this`data
      ensures ok <==> forall i :: 0 <= i < |xs| ==> xs[i].name != [] && xs[i].bytes != []
      ensures ok ==> data == old(data) + Objs(xs)
    {
      hide Objs;
      ObjsNone();
      for i := 0 to |xs|
        invariant forall k :: 0 <= k < i ==> xs[k].name != [] && xs[k].bytes != []
        invariant data == old(data) + Objs(xs[..i])
      {
        assert xs[..i + 1] == xs[..i] + [xs[i]];
        ObjsAppend(xs[..i], xs[i]);
        var wrote := WriteObject(xs[i]);
        if !wrote { return false; }
      }
      assert xs[..|xs|] == xs;
      return true;
    }

    method WriteObject(o: Object) returns (ok: bool)
      modifies this`data
      ensures ok <==> o.name != [] && o.bytes != []
      ensures ok ==> data == old(data) + Obj(o)
    {
      hide U32, Str;
      ok := WriteString(o.name);
      if !ok { return; }
      ok := WriteUint32(|o.bytes|);
      var blocks := Fwrite(o.bytes);
      ok := blocks == 1;
    }

    /** Main theorem on writing: success is reported exactly when no argument, name or
        object body is empty, and then the file is complete. */
    method ToFile(t: KTest) returns (ok: bool)
      requires data == []
      modifies this`data
      ensures ok <==> NothingEmpty(t)
      ensures ok ==> data == Encode(t)
    {
      hide U32, Args, Objs;
      var blocks := Fwrite(MAGIC);
      ok := WriteUint32(VERSION);
      ok := WriteUint32(|t.args|);
      ok := WriteArgs(t.args);
      if !ok { return; }
      ok := WriteUint32(t.symArgvs);
      ok := WriteUint32(t.symArgvLen);
      ok := WriteUint32(|t.objects|);
      ok := WriteObjects(t.objects);
    }

    method ReadArgs(n: nat) returns (ok: bool, xs: seq<seq<Byte>>)
      requires Valid()
      modifies this`pos
      ensures Valid()
      ensures match GetArgs(old(Rest()), n)
              case Fail => !ok
              case Got(ys, rest) => ok && xs == ys && Rest() == rest
    {
      hide GetArgs, GetStr;
      ghost var d := Rest();
      xs := [];
      NoStr(d);
      for i := 0 to n
        invariant Valid() && GetArgs(d, i) == Got(xs, Rest())
      {
        NextStr(d, i, n, xs, Rest());
        var got, s := ReadString();
        if !got { return false, []; }
        xs := xs + [s];
      }
      return true, xs;
    }

    method ReadObjects(n: nat) returns (ok: bool, xs: seq<Object>)
      requires Valid()
      modifies this`pos
      ensures Valid()
      ensures match GetObjs(old(Rest()), n)
              case Fail => !ok
              case Got(ys, rest) => ok && xs == ys && Rest() == rest
    {
      hide GetObjs, GetObj;
      ghost var d := Rest();
      xs := [];
      NoObj(d);
      for i := 0 to n
        invariant Valid() && GetObjs(d, i) == Got(xs, Rest())
      {
        NextObj(d, i, n, xs, Rest());
        var got, o := ReadObject();
        if !got { return false, []; }
        xs := xs + [o];
      }
      return true, xs;
    }

    /** Reading follows `Decode`. */
    method FromFile() returns (r: Option<KTest>)
      requires Valid() && pos == 0
      modifies this`pos
      ensures r == Decode(data)
    {
      hide GetU32, Block, Body;
      assert Rest() == data;
      var blocks, header := Fread(5);
      if blocks != 1 { return None; }
      if header != MAGIC && header != OLD_MAGIC { return None; }
      var got, version := ReadUint32();
      if !got { return None; }
      if version > VERSION { return None; }
      r := ReadBody(version);
    }

    method ReadBody(version: int) returns (r: Option<KTest>)
      requires Valid() && version >= 0
      modifies this`pos
      ensures r == Body(version, old(Rest()))
    {
      hide GetU32, GetArgs, Tail;
      var got, numArgs := ReadUint32();
      if !got { return None; }
      var read, args := ReadArgs(numArgs);
      if !read { return None; }
      var symArgvs, symArgvLen := 0, 0;
      if version >= 2 {
        got, symArgvs := ReadUint32();
        if !got { return None; }
        got, symArgvLen := ReadUint32();
        if !got { return None; }
      }
      r := ReadTail(version, args, symArgvs, symArgvLen);
    }

    method ReadTail(version: int, args: seq<seq<Byte>>, symArgvs: int, symArgvLen: int) returns (r: Option<KTest>)
      requires Valid()
      modifies this`pos
      ensures r == Tail(version, args, symArgvs, symArgvLen, old(Rest()))
    {
      hide GetU32, GetObjs;
      var got, numObjects := ReadUint32();
      if !got { return None; }
      var read, objects := ReadObjects(numObjects);
      if !read { return None; }
      return Some(KTest(version, args, symArgvs, symArgvLen, objects));
    }
  }

  lemma {:induction false} ArgsNone()
    ensures Args([]) == []
  { }

  lemma {:induction false} ObjsNone()
    ensures Objs([]) == []
  { }

  /** The first of `n` strings decides. */
  lemma {:induction false} FirstArg(d: seq<Byte>, n: nat)
    requires n > 0
    ensures GetStr(d).Fail? ==> GetArgs(d, n).Fail?
    ensures GetStr(d).Got? ==> GetArgs(d, 1) == Got([GetStr(d).value], GetStr(d).rest)
  {
    hide GetStr;
    if GetStr(d).Got? {
      assert [GetStr(d).value] + [] == [GetStr(d).value];
      ArgsMore(d, 1, GetStr(d).value, GetStr(d).rest, [], GetStr(d).rest);
    }
  }

  lemma {:induction false} NoStr(d: seq<Byte>)
    ensures GetArgs(d, 0) == Got([], d)
  { }

  lemma {:induction false} NextStr(d: seq<Byte>, i: nat, n: nat, xs: seq<seq<Byte>>, e: seq<Byte>)
    requires i < n && GetArgs(d, i) == Got(xs, e)
    ensures GetStr(e).Fail? ==> GetArgs(d, n).Fail?
    ensures GetStr(e).Got? ==> GetArgs(d, i + 1) == Got(xs + [GetStr(e).value], GetStr(e).rest)
  {
    hide GetArgs, GetStr;
    GetArgsAppend(d, i, n - i);
    GetArgsAppend(d, i, 1);
    FirstArg(e, n - i);
  }

  lemma {:induction false} FirstObj(d: seq<Byte>, n: nat)
    requires n > 0
    ensures GetObj(d).Fail? ==> GetObjs(d, n).Fail?
    ensures GetObj(d).Got? ==> GetObjs(d, 1) == Got([GetObj(d).value], GetObj(d).rest)
  {
    hide GetObj;
    if GetObj(d).Got? {
      assert [GetObj(d).value] + [] == [GetObj(d).value];
      ObjsMore(d, 1, GetObj(d).value, GetObj(d).rest, [], GetObj(d).rest);
    }
  }

  lemma {:induction false} NoObj(d: seq<Byte>)
    ensures GetObjs(d, 0) == Got([], d)
  { }

  lemma {:induction false} NextObj(d: seq<Byte>, i: nat, n: nat, xs: seq<Object>, e: seq<Byte>)
    requires i < n && GetObjs(d, i) == Got(xs, e)
    ensures GetObj(e).Fail? ==> GetObjs(d, n).Fail?
    ensures GetObj(e).Got? ==> GetObjs(d, i + 1) == Got(xs + [GetObj(e).value], GetObj(e).rest)
  {
    hide GetObjs, GetObj;
    GetObjsAppend(d, i, n - i);
    GetObjsAppend(d, i, 1);
    FirstObj(e, n - i);
  }

  /** A record that was written successfully is read back. */
  method WriteThenRead(t: KTest) returns (ok: bool, r: Option<KTest>)
    requires Wf(t)
    ensures ok <==> NothingEmpty(t)
    ensures ok ==> r == Some(t.(version := VERSION))
  {
    var f := new File([]);
    ok := f.ToFile(t);
    r := f.FromFile();
    if ok { RoundTrip(t); }
  }
}
