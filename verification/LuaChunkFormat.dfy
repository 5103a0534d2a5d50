/** The format of precompiled chunks, stated byte by byte of what is dumped (ldump.c, lundump.c). */
module LuaChunkFormat {
  import opened LuaResults
  import opened LuaPatterns
  import opened LuaChunk

  // ---- the format

  /** The value of byte `j` of an integer, counted from the least significant one. */
  function Weight(j: nat): (weight: nat)
    requires j < 8
    ensures weight > 0
  {
    [1, 0x100, 0x1_0000, 0x100_0000, 0x1_0000_0000, 0x100_0000_0000, 0x1_0000_0000_0000, 0x100_0000_0000_0000][j]
  }

  /** Where byte `j` of an integer of `w` bytes is: first on a little-endian machine is the least significant. */
  function Place(m: Machine, w: nat, j: nat): (place: nat)
    requires j < w
    ensures place < w
  {
    if m.little then j else w - 1 - j
  }

  ghost predicate NumberAt(m: Machine, b: seq<Byte>, i: nat, w: nat, n: nat)
    requires w <= 8
  {
    i + w <= |b| && forall j: nat :: j < w ==> b[i + Place(m, w, j)] == n / Weight(j) % 256
  }

  /** The four bytes of a signed integer. */
  ghost predicate IntAt(m: Machine, b: seq<Byte>, i: nat, x: int) {
    NumberAt(m, b, i, 4, if 0 <= x then x else if -0x8000_0000 <= x then 0x1_0000_0000 + x else 0)
  }

  function StringSize(m: Machine, s: Option<seq<Byte>>): nat {
    (if m.wide then 8 else 4) + if s.None? then 0 else |s.value| + 1
  }

  /** The size, with the zero byte at the end, and the bytes; no string has size zero. */
  ghost predicate StringAt(m: Machine, b: seq<Byte>, i: nat, s: Option<seq<Byte>>) {
    var w := if m.wide then 8 else 4;
    && i + StringSize(m, s) <= |b|
    && match s
       case None => NumberAt(m, b, i, w, 0)
       case Some(s) => NumberAt(m, b, i, w, |s| + 1) && b[i + w..i + w + |s|] == s && b[i + w + |s|] == 0
  }

  function ConstantSize(m: Machine, k: Constant): nat {
    match k
    case KNil => 1
    case KBool(_) => 2
    case KNumber(_) => 9
    case KString(s) => 1 + StringSize(m, s)
  }

  /** The tags are those of the types nil, boolean, number and string. */
  ghost predicate ConstantAt(m: Machine, b: seq<Byte>, i: nat, k: Constant) {
    && i + ConstantSize(m, k) <= |b|
    && match k
       case KNil => b[i] == 0
       case KBool(v) => b[i] == 1 && b[i + 1] == if v then 1 else 0
       case KNumber(n) => b[i] == 3 && b[i + 1..i + 9] == n
       case KString(s) => b[i] == 4 && StringAt(m, b, i + 1, s)
  }

  function ConstantsSize(m: Machine, ks: seq<Constant>): nat {
    if ks == [] then 0 else ConstantSize(m, ks[0]) + ConstantsSize(m, ks[1..])
  }

  ghost predicate ConstantsAt(m: Machine, b: seq<Byte>, i: nat, ks: seq<Constant>)
    decreases ks
  {
    ks != [] ==> ConstantAt(m, b, i, ks[0]) && ConstantsAt(m, b, i + ConstantSize(m, ks[0]), ks[1..])
  }

  function LocVarsSize(m: Machine, vs: seq<LocVar>): nat {
    if vs == [] then 0 else StringSize(m, vs[0].varname) + 8 + LocVarsSize(m, vs[1..])
  }

  ghost predicate LocVarsAt(m: Machine, b: seq<Byte>, i: nat, vs: seq<LocVar>)
    decreases vs
  {
    vs != [] ==>
      var j := i + StringSize(m, vs[0].varname);
      && StringAt(m, b, i, vs[0].varname) && IntAt(m, b, j, vs[0].startpc) && IntAt(m, b, j + 4, vs[0].endpc)
      && LocVarsAt(m, b, j + 8, vs[1..])
  }

  function StringsSize(m: Machine, ss: seq<Option<seq<Byte>>>): nat {
    if ss == [] then 0 else StringSize(m, ss[0]) + StringsSize(m, ss[1..])
  }

  ghost predicate StringsAt(m: Machine, b: seq<Byte>, i: nat, ss: seq<Option<seq<Byte>>>)
    decreases ss
  {
    ss != [] ==> StringAt(m, b, i, ss[0]) && StringsAt(m, b, i + StringSize(m, ss[0]), ss[1..])
  }

  /** A count, and as many words. */
  ghost predicate VectorAt(m: Machine, b: seq<Byte>, i: nat, ws: seq<Word>) {
    && IntAt(m, b, i, |ws|) && i + 4 + 4 * |ws| <= |b|
    && forall x: nat :: x < |ws| ==> WordAt(m, b, i, ws, x)
  }

  ghost predicate WordAt(m: Machine, b: seq<Byte>, i: nat, ws: seq<Word>, x: nat)
    requires x < |ws|
  {
    NumberAt(m, b, i + 4 + 4 * x, 4, ws[x])
  }

  function DebugSize(m: Machine, d: Debug): nat {
    12 + 4 * |d.lineinfo| + LocVarsSize(m, d.locvars) + StringsSize(m, d.upvalues)
  }

  /** The lines, the local variables and the names of upvalues, each with its count. */
  ghost predicate DebugAt(m: Machine, b: seq<Byte>, i: nat, d: Debug) {
    var j := i + 4 + 4 * |d.lineinfo|;
    var k := j + 4 + LocVarsSize(m, d.locvars);
    && VectorAt(m, b, i, d.lineinfo)
    && IntAt(m, b, j, |d.locvars|) && LocVarsAt(m, b, j + 4, d.locvars)
    && IntAt(m, b, k, |d.upvalues|) && StringsAt(m, b, k + 4, d.upvalues)
  }

  /** The source, the two lines, four bytes, the code, the constants, the functions and the debug information.
      There is no source if it is that of the enclosing function or if it is stripped. */
  ghost predicate FunctionAt(m: Machine, b: seq<Byte>, i: nat, f: Proto, parent: Option<seq<Byte>>, strip: bool)
    decreases f, 1
  {
    var source := if strip || f.head.source == parent then None else f.head.source;
    var h := i + StringSize(m, source);
    var k := h + 16 + 4 * |f.code|;
    var p := k + 4 + ConstantsSize(m, f.k);
    && StringAt(m, b, i, source) && IntAt(m, b, h, f.head.linedefined) && IntAt(m, b, h + 4, f.head.lastlinedefined)
    && h + 12 <= |b| && b[h + 8] == f.head.nups && b[h + 9] == f.head.numparams
    && b[h + 10] == f.head.isVararg && b[h + 11] == f.head.maxstacksize
    && VectorAt(m, b, h + 12, f.code)
    && IntAt(m, b, k, |f.k|) && ConstantsAt(m, b, k + 4, f.k)
    && IntAt(m, b, p, |f.p|) && FunctionsAt(m, b, p + 4, f.p, f.head.source, strip)
    && DebugAt(m, b, p + 4 + FunctionsSize(m, f.p, f.head.source, strip),
               if strip then Debug([], [], []) else f.debug)
  }

  function FunctionSize(m: Machine, f: Proto, parent: Option<seq<Byte>>, strip: bool): nat
    decreases f, 1
  {
    StringSize(m, if strip || f.head.source == parent then None else f.head.source) + 24 + 4 * |f.code| +
    ConstantsSize(m, f.k) + FunctionsSize(m, f.p, f.head.source, strip) +
    DebugSize(m, if strip then Debug([], [], []) else f.debug)
  }

  function FunctionsSize(m: Machine, fs: seq<Proto>, parent: Option<seq<Byte>>, strip: bool): nat
    decreases fs, 0
  {
    if fs == [] then 0 else FunctionSize(m, fs[0], parent, strip) + FunctionsSize(m, fs[1..], parent, strip)
  }

  ghost predicate FunctionsAt(m: Machine, b: seq<Byte>, i: nat, fs: seq<Proto>, parent: Option<seq<Byte>>, strip: bool)
    decreases fs, 0
  {
    fs != [] ==>
      && FunctionAt(m, b, i, fs[0], parent, strip)
      && FunctionsAt(m, b, i + FunctionSize(m, fs[0], parent, strip), fs[1..], parent, strip)
  }

  // ---- integers

  lemma DivideTwice(n: nat, j: nat)
    requires 0 < j < 8
    ensures n / 256 / Weight(j - 1) == n / Weight(j)
  {
    match j
    case 1 =>
    case 2 =>
    case 3 =>
    case 4 =>
    case 5 =>
    case 6 =>
    case 7 =>
  }

  /** Byte `j` of an integer that is dumped is its digit with the weight `256^j`. */
  lemma {:induction false} EncodedByte(m: Machine, w: nat, n: nat, j: nat)
    requires j < w && j < 8
    ensures Encode(m, w, n)[Place(m, w, j)] == n / Weight(j) % 256
    decreases w
  {
    if j > 0 {
      EncodedByte(m, w - 1, n / 256, j - 1);
      DivideTwice(n, j);
    }
  }

  /** Wherever an integer of `w` bytes stands in what is dumped. */
  lemma EncodedIs(m: Machine, w: nat, n: nat, a: seq<Byte>, c: seq<Byte>)
    requires w <= 8
    ensures NumberAt(m, a + Encode(m, w, n) + c, |a|, w, n)
  {
    forall j: nat | j < w ensures (a + Encode(m, w, n) + c)[|a| + Place(m, w, j)] == n / Weight(j) % 256 {
      EncodedByte(m, w, n, j);
    }
  }

  lemma IntIsAt(m: Machine, x: CInt, a: seq<Byte>, c: seq<Byte>)
    ensures |DumpedInt(m, x)| == 4 && IntAt(m, a + DumpedInt(m, x) + c, |a|, x)
  {
    EncodedIs(m, 4, ToWord(x), a, c);
  }

  /** Byte `j` of an integer, counted from the least significant one. */
  function Digit(m: Machine, b: seq<Byte>, j: nat): nat
    requires j < |b|
  {
    b[Place(m, |b|, j)]
  }

  lemma FourMore(m: Machine, b: seq<Byte>)
    requires |b| >= 4
    ensures Decode(m, b) == Digit(m, b, 0) + 0x100 * Digit(m, b, 1) + 0x1_0000 * Digit(m, b, 2) +
      0x100_0000 * Digit(m, b, 3) + 0x1_0000_0000 * Decode(m, if m.little then b[4..] else b[..|b| - 4])
  {
    var n := |b|;
    if m.little {
      assert b[1..][1..] == b[2..] && b[2..][1..] == b[3..] && b[3..][1..] == b[4..];
      assert Decode(m, b[3..]) == b[3] + 256 * Decode(m, b[4..]);
      assert Decode(m, b[2..]) == b[2] + 256 * Decode(m, b[3..]);
    } else {
      assert b[..n - 1][..n - 2] == b[..n - 2] && b[..n - 2][..n - 3] == b[..n - 3];
      assert b[..n - 3][..n - 4] == b[..n - 4];
      assert Decode(m, b[..n - 3]) == b[n - 4] + 256 * Decode(m, b[..n - 4]);
      assert Decode(m, b[..n - 2]) == b[n - 3] + 256 * Decode(m, b[..n - 3]);
    }
  }

  function HighDigits(m: Machine, b: seq<Byte>): nat
    requires |b| == 8
  {
    0x1_0000_0000 * Digit(m, b, 4) + 0x100_0000_0000 * Digit(m, b, 5) + 0x1_0000_0000_0000 * Digit(m, b, 6) +
    0x100_0000_0000_0000 * Digit(m, b, 7)
  }

  /** An integer that is loaded is the sum of its bytes with their weights. */
  lemma DecodedIs(m: Machine, b: seq<Byte>)
    requires |b| == 4 || |b| == 8
    ensures Decode(m, b) == Digit(m, b, 0) + 0x100 * Digit(m, b, 1) + 0x1_0000 * Digit(m, b, 2) +
      0x100_0000 * Digit(m, b, 3) + if |b| == 4 then 0 else HighDigits(m, b)
  {
    FourMore(m, b);
    if |b| == 8 {
      FourMore(m, if m.little then b[4..] else b[..4]);
    }
  }

  // ---- the header

  /** The bytes of the header; the seventh is the first byte of the integer 1 as the machine stores it. */
  lemma HeaderIs(m: Machine)
    ensures DumpedInt(m, 1) == if m.little then [1, 0, 0, 0] else [0, 0, 0, 1]
    ensures Header(m) == [0x1B, 0x4C, 0x75, 0x61, 0x51, 0, DumpedInt(m, 1)[0], 4, if m.wide then 8 else 4, 4, 8, 0]
  {
    forall j: nat | j < 4 ensures DumpedInt(m, 1)[Place(m, 4, j)] == if j == 0 then 1 else 0 {
      EncodedByte(m, 4, 1, j);
    }
    assert Place(m, 4, 0) + Place(m, 4, 3) == Place(m, 4, 1) + Place(m, 4, 2) == 3;
  }

  // ---- what is dumped has the format

  lemma StringIsAt(m: Machine, s: Option<seq<Byte>>, a: seq<Byte>, c: seq<Byte>)
    requires StringFits(m, s)
    ensures |DumpedString(m, s)| == StringSize(m, s) && StringAt(m, a + DumpedString(m, s) + c, |a|, s)
  {
    hide Encode, NumberAt;
    if s.Some? {
      var t := s.value + [0];
      var e := Encode(m, m.SizeT(), |s.value| + 1);
      EncodedIs(m, m.SizeT(), |s.value| + 1, a, t + c);
      assert a + e + (t + c) == a + DumpedString(m, s) + c;
    } else {
      EncodedIs(m, m.SizeT(), 0, a, c);
    }
  }

  lemma ConstantIsAt(m: Machine, k: Constant, a: seq<Byte>, c: seq<Byte>)
    requires ConstantFits(m, k)
    ensures |DumpedConstant(m, k)| == ConstantSize(m, k) && ConstantAt(m, a + DumpedConstant(m, k) + c, |a|, k)
  {
    hide DumpedString, StringAt, StringSize;
    if k.KString? {
      StringIsAt(m, k.s, a + [4], c);
      assert a + [4] + DumpedString(m, k.s) + c == a + DumpedConstant(m, k) + c;
    }
  }

  lemma {:induction false} ConstantsAreAt(m: Machine, ks: seq<Constant>, a: seq<Byte>, c: seq<Byte>)
    requires forall i :: 0 <= i < |ks| ==> ConstantFits(m, ks[i])
    ensures var b := All(ConstantDumper(m), ks);
      |b| == ConstantsSize(m, ks) && ConstantsAt(m, a + b + c, |a|, ks)
    decreases ks
  {
    hide DumpedConstant, ConstantAt, ConstantSize, ConstantFits;
    if ks != [] {
      var d, more := DumpedConstant(m, ks[0]), All(ConstantDumper(m), ks[1..]);
      ConstantIsAt(m, ks[0], a, more + c);
      ConstantsAreAt(m, ks[1..], a + d, c);
      assert a + d + (more + c) == a + All(ConstantDumper(m), ks) + c == a + d + more + c;
    }
  }

  lemma LocVarIsAt(m: Machine, v: LocVar, a: seq<Byte>, c: seq<Byte>)
    requires LocVarFits(m, v)
    ensures var b := a + DumpedLocVar(m, v) + c;
      var j := |a| + StringSize(m, v.varname);
      |DumpedLocVar(m, v)| == StringSize(m, v.varname) + 8 && StringAt(m, b, |a|, v.varname) &&
      IntAt(m, b, j, v.startpc) && IntAt(m, b, j + 4, v.endpc)
  {
    hide DumpedString, DumpedInt, StringAt, StringSize, IntAt, StringFits;
    var n, s, e := DumpedString(m, v.varname), DumpedInt(m, v.startpc), DumpedInt(m, v.endpc);
    StringIsAt(m, v.varname, a, s + e + c);
    IntIsAt(m, v.startpc, a + n, e + c);
    IntIsAt(m, v.endpc, a + n + s, c);
    var b := a + DumpedLocVar(m, v) + c;
    assert b == a + n + (s + e + c) == a + n + s + (e + c) == a + n + s + e + c;
  }

  lemma {:induction false} LocVarsAreAt(m: Machine, vs: seq<LocVar>, a: seq<Byte>, c: seq<Byte>)
    requires forall i :: 0 <= i < |vs| ==> LocVarFits(m, vs[i])
    ensures var b := All(LocVarDumper(m), vs);
      |b| == LocVarsSize(m, vs) && LocVarsAt(m, a + b + c, |a|, vs)
    decreases vs
  {
    hide DumpedLocVar, StringAt, StringSize, IntAt, LocVarFits;
    if vs != [] {
      var d, more := DumpedLocVar(m, vs[0]), All(LocVarDumper(m), vs[1..]);
      LocVarIsAt(m, vs[0], a, more + c);
      LocVarsAreAt(m, vs[1..], a + d, c);
      assert a + d + (more + c) == a + All(LocVarDumper(m), vs) + c == a + d + more + c;
    }
  }

  lemma {:induction false} StringsAreAt(m: Machine, ss: seq<Option<seq<Byte>>>, a: seq<Byte>, c: seq<Byte>)
    requires forall i :: 0 <= i < |ss| ==> StringFits(m, ss[i])
    ensures var b := All(StringDumper(m), ss);
      |b| == StringsSize(m, ss) && StringsAt(m, a + b + c, |a|, ss)
    decreases ss
  {
    hide DumpedString, StringAt, StringSize, StringFits;
    if ss != [] {
      var d, more := DumpedString(m, ss[0]), All(StringDumper(m), ss[1..]);
      StringIsAt(m, ss[0], a, more + c);
      StringsAreAt(m, ss[1..], a + d, c);
      assert a + d + (more + c) == a + All(StringDumper(m), ss) + c == a + d + more + c;
    }
  }

  lemma {:induction false} WordsAreAt(m: Machine, ws: seq<Word>, a: seq<Byte>, c: seq<Byte>, x: nat)
    requires x < |ws|
    ensures NumberAt(m, a + DumpedWords(m, ws) + c, |a| + 4 * x, 4, ws[x])
    decreases ws
  {
    hide NumberAt, Encode;
    var d, more := Encode(m, 4, ws[0]), DumpedWords(m, ws[1..]);
    assert a + d + (more + c) == a + DumpedWords(m, ws) + c == a + d + more + c;
    if x == 0 {
      EncodedIs(m, 4, ws[0], a, more + c);
    } else {
      WordsAreAt(m, ws[1..], a + d, c, x - 1);
    }
  }

  lemma VectorIsAt(m: Machine, ws: seq<Word>, a: seq<Byte>, c: seq<Byte>)
    requires |ws| < 0x8000_0000
    ensures |DumpedVector(m, ws)| == 4 + 4 * |ws| && VectorAt(m, a + DumpedVector(m, ws) + c, |a|, ws)
  {
    hide NumberAt, DumpedWords, DumpedInt, IntAt;
    var n, d := DumpedInt(m, |ws|), DumpedWords(m, ws);
    var b := a + DumpedVector(m, ws) + c;
    assert b == a + n + (d + c) == a + n + d + c;
    IntIsAt(m, |ws|, a, d + c);
    forall x: nat | x < |ws| ensures WordAt(m, b, |a|, ws, x) {
      WordsAreAt(m, ws, a + n, c, x);
    }
  }

  lemma DebugIsAt(m: Machine, d: Debug, a: seq<Byte>, c: seq<Byte>)
    requires DebugFits(m, d)
    ensures |DumpedDebug(m, d)| == DebugSize(m, d) && DebugAt(m, a + DumpedDebug(m, d) + c, |a|, d)
  {
    hide DumpedVector, DumpedInt, All, VectorAt, IntAt, LocVarsAt, StringsAt, LocVarFits, StringFits, LocVarsSize,
      StringsSize;
    var x, y, v, z, u := DumpedVector(m, d.lineinfo), DumpedInt(m, |d.locvars|), All(LocVarDumper(m), d.locvars),
      DumpedInt(m, |d.upvalues|), All(StringDumper(m), d.upvalues);
    VectorIsAt(m, d.lineinfo, a, y + v + z + u + c);
    IntIsAt(m, |d.locvars|, a + x, v + z + u + c);
    LocVarsAreAt(m, d.locvars, a + x + y, z + u + c);
    IntIsAt(m, |d.upvalues|, a + x + y + v, u + c);
    StringsAreAt(m, d.upvalues, a + x + y + v + z, c);
    var b := a + DumpedDebug(m, d) + c;
    assert b == a + x + (y + v + z + u + c) == a + x + y + (v + z + u + c) == a + x + y + v + (z + u + c);
    assert b == a + x + y + v + z + (u + c) == a + x + y + v + z + u + c;
  }

  lemma HeadIsAt(m: Machine, h: Head, a: seq<Byte>, c: seq<Byte>)
    requires HeadFits(m, h)
    ensures var b := a + DumpedHead(m, h) + c;
      var j := |a| + StringSize(m, h.source);
      && |DumpedHead(m, h)| == StringSize(m, h.source) + 12 && StringAt(m, b, |a|, h.source)
      && IntAt(m, b, j, h.linedefined) && IntAt(m, b, j + 4, h.lastlinedefined)
      && b[j + 8..j + 12] == [h.nups, h.numparams, h.isVararg, h.maxstacksize]
  {
    hide DumpedString, DumpedInt, StringAt, StringSize, IntAt, StringFits;
    var s, x, y, f := DumpedString(m, h.source), DumpedInt(m, h.linedefined), DumpedInt(m, h.lastlinedefined),
      [h.nups, h.numparams, h.isVararg, h.maxstacksize];
    StringIsAt(m, h.source, a, x + y + f + c);
    IntIsAt(m, h.linedefined, a + s, y + f + c);
    IntIsAt(m, h.lastlinedefined, a + s + x, f + c);
    var b := a + DumpedHead(m, h) + c;
    assert b == a + s + (x + y + f + c) == a + s + x + (y + f + c) == a + s + x + y + (f + c);
  }

  /** Wherever a function stands in what is dumped. */
  lemma {:induction false} FunctionIsAt(m: Machine, f: Proto, parent: Option<seq<Byte>>, strip: bool, a: seq<Byte>,
      c: seq<Byte>)
    requires Fits(m, f)
    ensures var d := DumpedFunction(m, f, parent, strip);
      |d| == FunctionSize(m, f, parent, strip) && FunctionAt(m, a + d + c, |a|, f, parent, strip)
    decreases f, 1
  {
    hide DumpedHead, DumpedVector, DumpedInt, All, DumpedFunctions, DumpedDebug, StringAt, StringSize, IntAt, VectorAt,
      ConstantsAt, ConstantsSize, FunctionsAt, FunctionsSize, DebugAt, DebugSize, HeadFits, DebugFits, ConstantFits,
      Fits;
    PartsFit(m, f, parent, strip);
    var sent, debug := SentHead(f.head, parent, strip), SentDebug(f.debug, strip);
    var h, v, n, k, l, p, d := DumpedHead(m, sent), DumpedVector(m, f.code), DumpedInt(m, |f.k|),
      All(ConstantDumper(m), f.k), DumpedInt(m, |f.p|), DumpedFunctions(m, f.p, f.head.source, strip),
      DumpedDebug(m, debug);
    HeadIsAt(m, sent, a, v + n + k + l + p + d + c);
    VectorIsAt(m, f.code, a + h, n + k + l + p + d + c);
    IntIsAt(m, |f.k|, a + h + v, k + l + p + d + c);
    ConstantsAreAt(m, f.k, a + h + v + n, l + p + d + c);
    IntIsAt(m, |f.p|, a + h + v + n + k, p + d + c);
    FunctionsAreAt(m, f.p, f.head.source, strip, a + h + v + n + k + l, d + c);
    DebugIsAt(m, debug, a + h + v + n + k + l + p, c);
    var b := a + DumpedFunction(m, f, parent, strip) + c;
    assert b == a + h + v + n + k + l + p + d + c;
    SevenParts(a, h, v, n, k, l, p, d, c);
  }

  lemma PartsFit(m: Machine, f: Proto, parent: Option<seq<Byte>>, strip: bool)
    requires Fits(m, f)
    ensures HeadFits(m, SentHead(f.head, parent, strip)) && DebugFits(m, SentDebug(f.debug, strip))
    ensures |f.code| < 0x8000_0000 && |f.k| < 0x8000_0000 && |f.p| < 0x8000_0000
    ensures forall i :: 0 <= i < |f.k| ==> ConstantFits(m, f.k[i])
    ensures forall i :: 0 <= i < |f.p| ==> Fits(m, f.p[i])
  {
  }

  lemma SevenParts(a: seq<Byte>, h: seq<Byte>, v: seq<Byte>, n: seq<Byte>, k: seq<Byte>, l: seq<Byte>, p: seq<Byte>,
      d: seq<Byte>, c: seq<Byte>)
    ensures var b := a + h + v + n + k + l + p + d + c;
      && a + h + (v + n + k + l + p + d + c) == b && a + h + v + (n + k + l + p + d + c) == b
      && a + h + v + n + (k + l + p + d + c) == b && a + h + v + n + k + (l + p + d + c) == b
      && a + h + v + n + k + l + (p + d + c) == b && a + h + v + n + k + l + p + (d + c) == b
  {
  }

  lemma {:induction false} FunctionsAreAt(m: Machine, fs: seq<Proto>, parent: Option<seq<Byte>>, strip: bool,
      a: seq<Byte>, c: seq<Byte>)
    requires forall i :: 0 <= i < |fs| ==> Fits(m, fs[i])
    ensures var d := DumpedFunctions(m, fs, parent, strip);
      |d| == FunctionsSize(m, fs, parent, strip) && FunctionsAt(m, a + d + c, |a|, fs, parent, strip)
    decreases fs, 0
  {
    hide DumpedFunction, FunctionAt, FunctionSize, Fits;
    if fs != [] {
      var d, more := DumpedFunction(m, fs[0], parent, strip), DumpedFunctions(m, fs[1..], parent, strip);
      FunctionIsAt(m, fs[0], parent, strip, a, more + c);
      FunctionsAreAt(m, fs[1..], parent, strip, a + d, c);
      assert a + d + (more + c) == a + DumpedFunctions(m, fs, parent, strip) + c == a + d + more + c;
    }
  }

  /** A dumped chunk is the header, with all its bytes, and the function after it. */
  lemma ChunkHasTheFormat(m: Machine, f: Proto, strip: bool)
    requires Fits(m, f)
    ensures var b := DumpedChunk(m, f, strip);
      && |b| == 12 + FunctionSize(m, f, None, strip)
      && b[..12] == [0x1B, 0x4C, 0x75, 0x61, 0x51, 0, if m.little then 1 else 0, 4, if m.wide then 8 else 4, 4, 8, 0]
      && FunctionAt(m, b, 12, f, None, strip)
  {
    hide FunctionAt, DumpedFunction, FunctionSize, Fits;
    HeaderIs(m);
    FunctionIsAt(m, f, None, strip, Header(m), []);
    assert Header(m) + DumpedFunction(m, f, None, strip) + [] == DumpedChunk(m, f, strip);
  }
}
