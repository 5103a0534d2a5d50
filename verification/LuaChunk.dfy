/** Precompiled chunks (ldump.c, lundump.c): the bytes of a function, and what is read back from them. */
module LuaChunk {
  import opened LuaResults
  import opened LuaPatterns

  type Word = n: int | 0 <= n < 0x1_0000_0000
  type CInt = x: int | -0x8000_0000 <= x < 0x8000_0000

  /** A number, as the bytes that it has in memory. */
  type Number = b: seq<Byte> | |b| == 8 witness seq(8, _ => 0)

  /** What the format depends on: the order of bytes in memory, and the size of `size_t`. */
  datatype Machine = Machine(little: bool, wide: bool) {
    function SizeT(): nat { if wide then 8 else 4 }
  }

  datatype Constant = KNil | KBool(b: bool) | KNumber(n: Number) | KString(s: Option<seq<Byte>>)
  datatype LocVar = LocVar(varname: Option<seq<Byte>>, startpc: CInt, endpc: CInt)

  /** The fields before the code. */
  datatype Head = Head(source: Option<seq<Byte>>, linedefined: CInt, lastlinedefined: CInt,
                       nups: Byte, numparams: Byte, isVararg: Byte, maxstacksize: Byte)
  datatype Debug = Debug(lineinfo: seq<Word>, locvars: seq<LocVar>, upvalues: seq<Option<seq<Byte>>>)
  datatype Proto = Proto(head: Head, code: seq<Word>, k: seq<Constant>, p: seq<Proto>, debug: Debug)

  // ---- integers

  function Pow256(w: nat): (r: nat)
    ensures r > 0
  {
    if w == 0 then 1 else 256 * Pow256(w - 1)
  }

  function Encode(m: Machine, w: nat, n: nat): (b: seq<Byte>)
    ensures |b| == w
  {
    if w == 0 then [] else if m.little then [n % 256] + Encode(m, w - 1, n / 256)
      else Encode(m, w - 1, n / 256) + [n % 256]
  }

  function Decode(m: Machine, b: seq<Byte>): (n: nat)
    ensures n < Pow256(|b|)
  {
    if b == [] then 0
    else if m.little then b[0] + 256 * Decode(m, b[1..])
    else b[|b| - 1] + 256 * Decode(m, b[..|b| - 1])
  }

  lemma {:induction false} EncodeDecode(m: Machine, w: nat, n: nat)
    requires n < Pow256(w)
    ensures Decode(m, Encode(m, w, n)) == n
  {
    if w > 0 {
      EncodeDecode(m, w - 1, n / 256);
      var b := Encode(m, w, n);
      assert if m.little then b[1..] == Encode(m, w - 1, n / 256) else b[..|b| - 1] == Encode(m, w - 1, n / 256);
    }
  }

  lemma FourBytes()
    ensures Pow256(4) == 0x1_0000_0000
  {
    assert Pow256(2) == 0x1_0000;
    assert Pow256(3) == 0x100_0000;
  }

  /** Two's complement. */
  function ToWord(x: CInt): Word { if x < 0 then x + 0x1_0000_0000 else x }

  function ToInt(n: Word): (x: CInt)
    ensures ToWord(x) == n
  {
    if n >= 0x8000_0000 then n - 0x1_0000_0000 else n
  }

  function DecodeWord(m: Machine, b: seq<Byte>): Word
    requires |b| == 4
  {
    FourBytes();
    Decode(m, b)
  }

  // ---- dumping

  function DumpedInt(m: Machine, x: CInt): seq<Byte> { Encode(m, 4, ToWord(x)) }

  /** A string has a zero byte at its end; no string has size zero. */
  function DumpedString(m: Machine, s: Option<seq<Byte>>): seq<Byte> {
    match s
    case None => Encode(m, m.SizeT(), 0)
    case Some(s) => Encode(m, m.SizeT(), |s| + 1) + s + [0]
  }

  function DumpedWords(m: Machine, ws: seq<Word>): (b: seq<Byte>)
    ensures |b| == 4 * |ws|
  {
    if ws == [] then [] else Encode(m, 4, ws[0]) + DumpedWords(m, ws[1..])
  }

  function DumpedConstant(m: Machine, k: Constant): seq<Byte> {
    match k
    case KNil => [0]
    case KBool(b) => [1] + [if b then 1 else 0]
    case KNumber(n) => [3] + n
    case KString(s) => [4] + DumpedString(m, s)
  }

  function DumpedLocVar(m: Machine, v: LocVar): seq<Byte> {
    DumpedString(m, v.varname) + (DumpedInt(m, v.startpc) + DumpedInt(m, v.endpc))
  }

  function All<T(!new)>(dump: T -> seq<Byte>, xs: seq<T>): seq<Byte> {
    if xs == [] then [] else dump(xs[0]) + All(dump, xs[1..])
  }

  function ConstantDumper(m: Machine): Constant -> seq<Byte> { k => DumpedConstant(m, k) }
  function LocVarDumper(m: Machine): LocVar -> seq<Byte> { v => DumpedLocVar(m, v) }
  function StringDumper(m: Machine): Option<seq<Byte>> -> seq<Byte> { s => DumpedString(m, s) }

  function DumpedList<T(!new)>(m: Machine, dump: T -> seq<Byte>, xs: seq<T>): seq<Byte>
    requires |xs| < 0x8000_0000
  {
    DumpedInt(m, |xs|) + All(dump, xs)
  }

  function DumpedHead(m: Machine, h: Head): seq<Byte> {
    DumpedString(m, h.source) + (DumpedInt(m, h.linedefined) +
      (DumpedInt(m, h.lastlinedefined) + [h.nups, h.numparams, h.isVararg, h.maxstacksize]))
  }

  function DumpedVector(m: Machine, ws: seq<Word>): seq<Byte>
    requires |ws| < 0x8000_0000
  {
    DumpedInt(m, |ws|) + DumpedWords(m, ws)
  }

  function DumpedDebug(m: Machine, d: Debug): seq<Byte>
    requires DebugFits(m, d)
  {
    DumpedVector(m, d.lineinfo) + (DumpedList(m, LocVarDumper(m), d.locvars) +
      DumpedList(m, StringDumper(m), d.upvalues))
  }

  /** What is dumped of the head: no source if it is that of the enclosing function or if it is stripped. */
  function SentHead(h: Head, parent: Option<seq<Byte>>, strip: bool): Head {
    h.(source := if h.source == parent || strip then None else h.source)
  }

  function SentDebug(d: Debug, strip: bool): Debug { if strip then Debug([], [], []) else d }

  function DumpedFunction(m: Machine, f: Proto, parent: Option<seq<Byte>>, strip: bool): seq<Byte>
    requires Fits(m, f)
    decreases f, 1
  {
    DumpedHead(m, SentHead(f.head, parent, strip)) + (DumpedVector(m, f.code) + (DumpedList(m, ConstantDumper(m), f.k) +
      (DumpedInt(m, |f.p|) + (DumpedFunctions(m, f.p, f.head.source, strip) +
        DumpedDebug(m, SentDebug(f.debug, strip))))))
  }

  function DumpedFunctions(m: Machine, fs: seq<Proto>, parent: Option<seq<Byte>>, strip: bool): seq<Byte>
    requires forall i :: 0 <= i < |fs| ==> Fits(m, fs[i])
    decreases fs, 0
  {
    if fs == [] then [] else DumpedFunction(m, fs[0], parent, strip) + DumpedFunctions(m, fs[1..], parent, strip)
  }

  const VERSION: Byte := 0x51

  /** `luaU_header`: a different machine has a different header. */
  function Header(m: Machine): (h: seq<Byte>)
    ensures |h| == 12
  {
    [27, 'L' as int, 'u' as int, 'a' as int, VERSION, 0, if m.little then 1 else 0, 4, m.SizeT(), 4, 8, 0]
  }

  function DumpedChunk(m: Machine, f: Proto, strip: bool): seq<Byte>
    requires Fits(m, f)
  {
    Header(m) + DumpedFunction(m, f, None, strip)
  }

  // ---- functions that are dumped without loss

  predicate StringFits(m: Machine, s: Option<seq<Byte>>) { s.Some? ==> |s.value| + 1 < Pow256(m.SizeT()) }

  predicate ConstantFits(m: Machine, k: Constant) { k.KString? ==> StringFits(m, k.s) }

  predicate LocVarFits(m: Machine, v: LocVar) { StringFits(m, v.varname) && v.startpc >= 0 && v.endpc >= 0 }

  predicate HeadFits(m: Machine, h: Head) { StringFits(m, h.source) && h.linedefined >= 0 && h.lastlinedefined >= 0 }

  predicate DebugFits(m: Machine, d: Debug) {
    && |d.lineinfo| < 0x8000_0000 && |d.locvars| < 0x8000_0000 && |d.upvalues| < 0x8000_0000
    && (forall i :: 0 <= i < |d.locvars| ==> LocVarFits(m, d.locvars[i]))
    && (forall i :: 0 <= i < |d.upvalues| ==> StringFits(m, d.upvalues[i]))
  }

  /** Sizes that fit their fields, and no negative line or position. */
  predicate Fits(m: Machine, f: Proto) {
    && HeadFits(m, f.head) && DebugFits(m, f.debug)
    && |f.code| < 0x8000_0000 && |f.k| < 0x8000_0000 && |f.p| < 0x8000_0000
    && (forall i :: 0 <= i < |f.k| ==> ConstantFits(m, f.k[i]))
    && (forall i :: 0 <= i < |f.p| ==> Fits(m, f.p[i]))
  }

  // ---- loading

  datatype Got<+T> = Got(v: T, rest: seq<Byte>)

  function Block(b: seq<Byte>, n: nat): Result<Got<seq<Byte>>> {
    if n <= |b| then Success(Got(b[..n], b[n..])) else Failure("unexpected end")
  }

  function LoadedByte(b: seq<Byte>): Result<Got<Byte>> {
    var g :- Block(b, 1);
    Success(Got(g.v[0], g.rest))
  }

  function LoadedInt(m: Machine, b: seq<Byte>): (r: Result<Got<CInt>>)
    ensures r.Success? ==> r.value.v >= 0
  {
    var g :- Block(b, 4);
    var x := ToInt(DecodeWord(m, g.v));
    if x < 0 then Failure("bad integer") else Success(Got(x, g.rest))
  }

  function LoadedString(m: Machine, b: seq<Byte>): Result<Got<Option<seq<Byte>>>> {
    var g :- Block(b, m.SizeT());
    var size := Decode(m, g.v);
    if size == 0 then Success(Got(None, g.rest))
    else
      var s :- Block(g.rest, size);
      Success(Got(Some(s.v[..size - 1]), s.rest))
  }

  function Words(m: Machine, b: seq<Byte>): seq<Word>
    requires |b| % 4 == 0
  {
    if b == [] then [] else [DecodeWord(m, b[..4])] + Words(m, b[4..])
  }

  function LoadedVector(m: Machine, b: seq<Byte>): Result<Got<seq<Word>>> {
    var n :- LoadedInt(m, b);
    var g :- Block(n.rest, 4 * n.v);
    Success(Got(Words(m, g.v), g.rest))
  }

  function LoadedConstant(m: Machine, b: seq<Byte>): Result<Got<Constant>> {
    var t :- LoadedByte(b);
    if t.v == 0 then Success(Got(KNil, t.rest))
    else if t.v == 1 then
      var x :- LoadedByte(t.rest);
      Success(Got(KBool(x.v != 0), x.rest))
    else if t.v == 3 then
      var n :- Block(t.rest, 8);
      Success(Got(KNumber(n.v), n.rest))
    else if t.v == 4 then
      var s :- LoadedString(m, t.rest);
      Success(Got(KString(s.v), s.rest))
    else Failure("bad constant")
  }

  function LoadedLocVar(m: Machine, b: seq<Byte>): Result<Got<LocVar>> {
    var name :- LoadedString(m, b);
    var start :- LoadedInt(m, name.rest);
    var end :- LoadedInt(m, start.rest);
    Success(Got(LocVar(name.v, start.v, end.v), end.rest))
  }

  type Loader<T> = seq<Byte> -> Result<Got<T>>

  function LoadedAll<T(!new)>(l: Loader<T>, b: seq<Byte>, n: nat): (r: Result<Got<seq<T>>>)
    ensures r.Success? ==> |r.value.v| == n
    decreases n
  {
    if n == 0 then Success(Got([], b))
    else
      var x :- l(b);
      var xs :- LoadedAll(l, x.rest, n - 1);
      Success(Got([x.v] + xs.v, xs.rest))
  }

  function ConstantLoader(m: Machine): Loader<Constant> { b => LoadedConstant(m, b) }
  function LocVarLoader(m: Machine): Loader<LocVar> { b => LoadedLocVar(m, b) }
  function StringLoader(m: Machine): Loader<Option<seq<Byte>>> { b => LoadedString(m, b) }

  function LoadedList<T(!new)>(m: Machine, l: Loader<T>, b: seq<Byte>): Result<Got<seq<T>>> {
    var n :- LoadedInt(m, b);
    LoadedAll(l, n.rest, n.v)
  }

  function LoadedHead(m: Machine, b: seq<Byte>): Result<Got<Head>> {
    var source :- LoadedString(m, b);
    var first :- LoadedInt(m, source.rest);
    var last :- LoadedInt(m, first.rest);
    var four :- Block(last.rest, 4);
    Success(Got(Head(source.v, first.v, last.v, four.v[0], four.v[1], four.v[2], four.v[3]), four.rest))
  }

  function LoadedDebug(m: Machine, b: seq<Byte>): Result<Got<Debug>> {
    var lines :- LoadedVector(m, b);
    var vars :- LoadedList(m, LocVarLoader(m), lines.rest);
    var ups :- LoadedList(m, StringLoader(m), vars.rest);
    Success(Got(Debug(lines.v, vars.v, ups.v), ups.rest))
  }

  /** `luaG_checkcode` is a parameter. */
  type Checker = Proto -> bool

  /** A function, where `room` more levels of nesting are allowed. */
  function LoadedFunction(m: Machine, check: Checker, b: seq<Byte>, parent: seq<Byte>, room: nat): Result<Got<Proto>>
    decreases room, 0
  {
    if room == 0 then Failure("code too deep")
    else
      var h :- LoadedHead(m, b);
      var source := if h.v.source.None? then parent else h.v.source.value;
      var code :- LoadedVector(m, h.rest);
      var k :- LoadedList(m, ConstantLoader(m), code.rest);
      var n :- LoadedInt(m, k.rest);
      var p :- LoadedFunctions(m, check, n.rest, n.v, source, room - 1);
      var d :- LoadedDebug(m, p.rest);
      var f := Proto(h.v.(source := Some(source)), code.v, k.v, p.v, d.v);
      if !check(f) then Failure("bad code") else Success(Got(f, d.rest))
  }

  function LoadedFunctions(m: Machine, check: Checker, b: seq<Byte>, n: nat, parent: seq<Byte>,
      room: nat): Result<Got<seq<Proto>>>
    decreases room, n + 1
  {
    if n == 0 then Success(Got([], b))
    else
      var f :- LoadedFunction(m, check, b, parent, room);
      var fs :- LoadedFunctions(m, check, f.rest, n - 1, parent, room);
      Success(Got([f.v] + fs.v, fs.rest))
  }

  /** The levels that are left when `level` C calls are active (`L->nCcalls`). */
  function RoomAt(level: nat): (room: nat)
    ensures room > 0 <==> level < LUAI_MAXCCALLS
  {
    if level <= LUAI_MAXCCALLS then LUAI_MAXCCALLS - level else 0
  }

  function LoadedChunk(m: Machine, check: Checker, b: seq<Byte>, level: nat): Result<Got<Proto>> {
    var h :- Block(b, 12);
    if h.v != Header(m) then Failure("bad header") else LoadedFunction(m, check, h.rest, UNKNOWN, RoomAt(level))
  }

  const UNKNOWN: seq<Byte> := ['=' as int, '?' as int]
}
