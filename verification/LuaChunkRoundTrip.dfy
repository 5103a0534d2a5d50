/** Loading a dumped function gives the function back, and loading a part of a dump fails. */
module LuaChunkRoundTrip {
  import opened LuaResults
  import opened LuaPatterns
  import opened LuaChunk

  // ---- the pieces

  lemma BlockIs(a: seq<Byte>, rest: seq<Byte>)
    ensures Block(a + rest, |a|) == Success(Got(a, rest))
  {
    assert (a + rest)[..|a|] == a && (a + rest)[|a|..] == rest;
  }

  lemma IntIs(m: Machine, x: CInt, rest: seq<Byte>)
    requires x >= 0
    ensures LoadedInt(m, DumpedInt(m, x) + rest) == Success(Got(x, rest))
  {
    BlockIs(DumpedInt(m, x), rest);
    FourBytes();
    EncodeDecode(m, 4, x);
  }

  lemma StringIs(m: Machine, s: Option<seq<Byte>>, rest: seq<Byte>)
    requires StringFits(m, s)
    ensures LoadedString(m, DumpedString(m, s) + rest) == Success(Got(s, rest))
  {
    var size := if s.Some? then |s.value| + 1 else 0;
    var e := Encode(m, m.SizeT(), size);
    EncodeDecode(m, m.SizeT(), size);
    if s.Some? {
      assert DumpedString(m, s) + rest == e + ((s.value + [0]) + rest);
      BlockIs(e, (s.value + [0]) + rest);
      BlockIs(s.value + [0], rest);
      assert (s.value + [0])[..size - 1] == s.value;
    } else {
      BlockIs(e, rest);
    }
  }

  lemma {:induction false} WordsAre(m: Machine, ws: seq<Word>)
    ensures Words(m, DumpedWords(m, ws)) == ws
  {
    if ws != [] {
      var e := Encode(m, 4, ws[0]);
      var b := DumpedWords(m, ws);
      assert b[..4] == e && b[4..] == DumpedWords(m, ws[1..]);
      FourBytes();
      EncodeDecode(m, 4, ws[0]);
      WordsAre(m, ws[1..]);
    }
  }

  lemma VectorIs(m: Machine, ws: seq<Word>, rest: seq<Byte>)
    requires |ws| < 0x8000_0000
    ensures LoadedVector(m, DumpedVector(m, ws) + rest) == Success(Got(ws, rest))
  {
    hide Block, LoadedInt, DumpedInt, DumpedWords, Words;
    assert DumpedVector(m, ws) + rest == DumpedInt(m, |ws|) + (DumpedWords(m, ws) + rest);
    IntIs(m, |ws|, DumpedWords(m, ws) + rest);
    BlockIs(DumpedWords(m, ws), rest);
    WordsAre(m, ws);
  }

  lemma ConstantIs(m: Machine, k: Constant, rest: seq<Byte>)
    requires ConstantFits(m, k)
    ensures LoadedConstant(m, DumpedConstant(m, k) + rest) == Success(Got(k, rest))
  {
    hide LoadedString, DumpedString;
    var t := DumpedConstant(m, k)[0];
    var more := DumpedConstant(m, k)[1..];
    assert DumpedConstant(m, k) + rest == [t] + (more + rest);
    BlockIs([t], more + rest);
    BlockIs(more, rest);
    if k.KString? {
      StringIs(m, k.s, rest);
    }
  }

  lemma LocVarIs(m: Machine, v: LocVar, rest: seq<Byte>)
    requires LocVarFits(m, v)
    ensures LoadedLocVar(m, DumpedLocVar(m, v) + rest) == Success(Got(v, rest))
  {
    hide LoadedString, LoadedInt, DumpedString, DumpedInt;
    var s, e := DumpedInt(m, v.startpc), DumpedInt(m, v.endpc);
    assert DumpedLocVar(m, v) + rest == DumpedString(m, v.varname) + (s + (e + rest));
    StringIs(m, v.varname, s + (e + rest));
    IntIs(m, v.startpc, e + rest);
    IntIs(m, v.endpc, rest);
  }

  ghost predicate Inverse<T(!new)>(dump: T -> seq<Byte>, l: Loader<T>, x: T) {
    forall rest :: l(dump(x) + rest) == Success(Got(x, rest))
  }

  lemma {:induction false} AllAre<T(!new)>(dump: T -> seq<Byte>, l: Loader<T>, xs: seq<T>, rest: seq<Byte>)
    requires forall i :: 0 <= i < |xs| ==> Inverse(dump, l, xs[i])
    ensures LoadedAll(l, All(dump, xs) + rest, |xs|) == Success(Got(xs, rest))
    decreases xs
  {
    if xs != [] {
      var tail := All(dump, xs[1..]) + rest;
      assert All(dump, xs) + rest == dump(xs[0]) + tail;
      assert Inverse(dump, l, xs[0]) && l(dump(xs[0]) + tail) == Success(Got(xs[0], tail));
      AllAre(dump, l, xs[1..], rest);
      assert [xs[0]] + xs[1..] == xs;
    } else {
      assert [] + rest == rest;
    }
  }

  lemma ListIs<T(!new)>(m: Machine, dump: T -> seq<Byte>, l: Loader<T>, xs: seq<T>, rest: seq<Byte>)
    requires |xs| < 0x8000_0000 && forall i :: 0 <= i < |xs| ==> Inverse(dump, l, xs[i])
    ensures LoadedList(m, l, DumpedList(m, dump, xs) + rest) == Success(Got(xs, rest))
  {
    hide LoadedInt, DumpedInt, All, LoadedAll;
    assert DumpedList(m, dump, xs) + rest == DumpedInt(m, |xs|) + (All(dump, xs) + rest);
    IntIs(m, |xs|, All(dump, xs) + rest);
    AllAre(dump, l, xs, rest);
  }

  lemma ConstantsAre(m: Machine, ks: seq<Constant>, rest: seq<Byte>)
    requires |ks| < 0x8000_0000 && forall i :: 0 <= i < |ks| ==> ConstantFits(m, ks[i])
    ensures LoadedList(m, ConstantLoader(m), DumpedList(m, ConstantDumper(m), ks) + rest) == Success(Got(ks, rest))
  {
    hide LoadedList, DumpedList, ConstantFits, LoadedConstant, DumpedConstant;
    forall i | 0 <= i < |ks| ensures Inverse(ConstantDumper(m), ConstantLoader(m), ks[i]) {
      forall rest ensures LoadedConstant(m, DumpedConstant(m, ks[i]) + rest) == Success(Got(ks[i], rest)) {
        ConstantIs(m, ks[i], rest);
      }
    }
    ListIs(m, ConstantDumper(m), ConstantLoader(m), ks, rest);
  }

  lemma LocVarsAre(m: Machine, vs: seq<LocVar>, rest: seq<Byte>)
    requires |vs| < 0x8000_0000 && forall i :: 0 <= i < |vs| ==> LocVarFits(m, vs[i])
    ensures LoadedList(m, LocVarLoader(m), DumpedList(m, LocVarDumper(m), vs) + rest) == Success(Got(vs, rest))
  {
    hide LoadedList, DumpedList, LocVarFits, LoadedLocVar, DumpedLocVar;
    forall i | 0 <= i < |vs| ensures Inverse(LocVarDumper(m), LocVarLoader(m), vs[i]) {
      forall rest ensures LoadedLocVar(m, DumpedLocVar(m, vs[i]) + rest) == Success(Got(vs[i], rest)) {
        LocVarIs(m, vs[i], rest);
      }
    }
    ListIs(m, LocVarDumper(m), LocVarLoader(m), vs, rest);
  }

  lemma StringsAre(m: Machine, ss: seq<Option<seq<Byte>>>, rest: seq<Byte>)
    requires |ss| < 0x8000_0000 && forall i :: 0 <= i < |ss| ==> StringFits(m, ss[i])
    ensures LoadedList(m, StringLoader(m), DumpedList(m, StringDumper(m), ss) + rest) == Success(Got(ss, rest))
  {
    hide LoadedList, DumpedList, StringFits, LoadedString, DumpedString;
    forall i | 0 <= i < |ss| ensures Inverse(StringDumper(m), StringLoader(m), ss[i]) {
      forall rest ensures LoadedString(m, DumpedString(m, ss[i]) + rest) == Success(Got(ss[i], rest)) {
        StringIs(m, ss[i], rest);
      }
    }
    ListIs(m, StringDumper(m), StringLoader(m), ss, rest);
  }

  lemma HeadIs(m: Machine, h: Head, rest: seq<Byte>)
    requires HeadFits(m, h)
    ensures LoadedHead(m, DumpedHead(m, h) + rest) == Success(Got(h, rest))
  {
    hide LoadedString, LoadedInt, DumpedString, DumpedInt, Block;
    var first, last, four := DumpedInt(m, h.linedefined), DumpedInt(m, h.lastlinedefined),
      [h.nups, h.numparams, h.isVararg, h.maxstacksize];
    assert DumpedHead(m, h) + rest == DumpedString(m, h.source) + (first + (last + (four + rest)));
    StringIs(m, h.source, first + (last + (four + rest)));
    IntIs(m, h.linedefined, last + (four + rest));
    IntIs(m, h.lastlinedefined, four + rest);
    BlockIs(four, rest);
  }

  lemma DebugIs(m: Machine, d: Debug, rest: seq<Byte>)
    requires DebugFits(m, d)
    ensures LoadedDebug(m, DumpedDebug(m, d) + rest) == Success(Got(d, rest))
  {
    hide LoadedVector, LoadedList, DumpedVector, DumpedList;
    var vars, ups := DumpedList(m, LocVarDumper(m), d.locvars), DumpedList(m, StringDumper(m), d.upvalues);
    assert DumpedDebug(m, d) + rest == DumpedVector(m, d.lineinfo) + (vars + (ups + rest));
    VectorIs(m, d.lineinfo, vars + (ups + rest));
    LocVarsAre(m, d.locvars, ups + rest);
    StringsAre(m, d.upvalues, rest);
  }

  // ---- functions

  /** The function that is loaded: `parent` is the source of the enclosing function when it is dumped,
      and `q` when it is loaded. */
  function Received(f: Proto, parent: Option<seq<Byte>>, q: seq<Byte>, strip: bool): Proto
    decreases f, 1
  {
    var h := ReceivedHead(f.head, parent, q, strip);
    Proto(h, f.code, f.k, ReceivedAll(f.p, f.head.source, h.source.value, strip), SentDebug(f.debug, strip))
  }

  function ReceivedHead(h: Head, parent: Option<seq<Byte>>, q: seq<Byte>, strip: bool): (r: Head)
    ensures r.source.Some?
  {
    var s := SentHead(h, parent, strip);
    if s.source.None? then s.(source := Some(q)) else s
  }

  function ReceivedAll(fs: seq<Proto>, parent: Option<seq<Byte>>, q: seq<Byte>, strip: bool): seq<Proto>
    decreases fs, 0
  {
    if fs == [] then [] else [Received(fs[0], parent, q, strip)] + ReceivedAll(fs[1..], parent, q, strip)
  }

  function Height(f: Proto): nat
    decreases f, 1
  {
    1 + Heights(f.p)
  }

  function Heights(fs: seq<Proto>): nat
    decreases fs, 0
  {
    if fs == [] then 0 else if Height(fs[0]) > Heights(fs[1..]) then Height(fs[0]) else Heights(fs[1..])
  }

  predicate Accepted(check: Checker, f: Proto)
    decreases f, 1
  {
    check(f) && AllAccepted(check, f.p)
  }

  predicate AllAccepted(check: Checker, fs: seq<Proto>)
    decreases fs, 0
  {
    fs != [] ==> Accepted(check, fs[0]) && AllAccepted(check, fs[1..])
  }

  /** Loading what has been dumped gives the function, if it does not nest too deep. */
  lemma {:induction false} FunctionIs(m: Machine, check: Checker, f: Proto, parent: Option<seq<Byte>>, q: seq<Byte>,
      strip: bool, room: nat, rest: seq<Byte>)
    requires Fits(m, f) && Accepted(check, Received(f, parent, q, strip))
    ensures LoadedFunction(m, check, DumpedFunction(m, f, parent, strip) + rest, q, room) ==
      if Height(f) <= room then Success(Got(Received(f, parent, q, strip), rest)) else Failure("code too deep")
    decreases f, 1
  {
    hide LoadedHead, LoadedVector, LoadedList, LoadedInt, LoadedDebug, LoadedFunctions, DumpedHead, DumpedVector,
      DumpedList, DumpedInt, DumpedFunctions, DumpedDebug, DebugFits, HeadFits, ConstantFits;
    if room > 0 {
      SentFits(m, f, parent, strip);
      var h := SentHead(f.head, parent, strip);
      var q' := ReceivedHead(f.head, parent, q, strip).source.value;
      var code, k, n, p, d := DumpedVector(m, f.code), DumpedList(m, ConstantDumper(m), f.k), DumpedInt(m, |f.p|),
        DumpedFunctions(m, f.p, f.head.source, strip), DumpedDebug(m, SentDebug(f.debug, strip));
      Assoc(DumpedHead(m, h), code, k, n, p, d, rest);
      HeadIs(m, h, code + (k + (n + (p + (d + rest)))));
      VectorIs(m, f.code, k + (n + (p + (d + rest))));
      ConstantsAre(m, f.k, n + (p + (d + rest)));
      IntIs(m, |f.p|, p + (d + rest));
      FunctionsAre(m, check, f.p, f.head.source, q', strip, room - 1, d + rest);
      DebugIs(m, SentDebug(f.debug, strip), rest);
    }
  }

  lemma Assoc(a: seq<Byte>, b: seq<Byte>, c: seq<Byte>, d: seq<Byte>, e: seq<Byte>, f: seq<Byte>, rest: seq<Byte>)
    ensures a + (b + (c + (d + (e + f)))) + rest == a + (b + (c + (d + (e + (f + rest)))))
  {
  }

  lemma SentFits(m: Machine, f: Proto, parent: Option<seq<Byte>>, strip: bool)
    requires Fits(m, f)
    ensures HeadFits(m, SentHead(f.head, parent, strip)) && DebugFits(m, SentDebug(f.debug, strip))
  {
  }

  lemma {:induction false} FunctionsAre(m: Machine, check: Checker, fs: seq<Proto>, parent: Option<seq<Byte>>,
      q: seq<Byte>, strip: bool, room: nat, rest: seq<Byte>)
    requires (forall i :: 0 <= i < |fs| ==> Fits(m, fs[i])) && AllAccepted(check, ReceivedAll(fs, parent, q, strip))
    ensures LoadedFunctions(m, check, DumpedFunctions(m, fs, parent, strip) + rest, |fs|, q, room) ==
      if Heights(fs) <= room then Success(Got(ReceivedAll(fs, parent, q, strip), rest)) else Failure("code too deep")
    decreases fs, 0
  {
    hide LoadedFunction, DumpedFunction, Received, Fits, Accepted;
    if fs != [] {
      var tail := DumpedFunctions(m, fs[1..], parent, strip) + rest;
      assert DumpedFunctions(m, fs, parent, strip) + rest == DumpedFunction(m, fs[0], parent, strip) + tail;
      var received := ReceivedAll(fs, parent, q, strip);
      assert received[0] == Received(fs[0], parent, q, strip) &&
        received[1..] == ReceivedAll(fs[1..], parent, q, strip);
      FunctionIs(m, check, fs[0], parent, q, strip, room, tail);
      FunctionsAre(m, check, fs[1..], parent, q, strip, room, rest);
    } else {
      assert [] + rest == rest;
    }
  }

  /** Every function has a source. */
  predicate HasSources(f: Proto) { f.head.source.Some? && forall i :: 0 <= i < |f.p| ==> HasSources(f.p[i]) }

  /** Nothing is lost without stripping. */
  lemma {:induction false} SameAgain(f: Proto, parent: Option<seq<Byte>>, q: seq<Byte>)
    requires HasSources(f) && (parent == None || parent == Some(q))
    ensures Received(f, parent, q, false) == f
    decreases f, 1
  {
    SameAgainAll(f.p, f.head.source, f.head.source.value);
  }

  lemma {:induction false} SameAgainAll(fs: seq<Proto>, parent: Option<seq<Byte>>, q: seq<Byte>)
    requires (forall i :: 0 <= i < |fs| ==> HasSources(fs[i])) && (parent == None || parent == Some(q))
    ensures ReceivedAll(fs, parent, q, false) == fs
    decreases fs, 0
  {
    if fs != [] {
      SameAgain(fs[0], parent, q);
      SameAgainAll(fs[1..], parent, q);
    }
  }

  /** Stripping loses the sources and the debug information, and nothing else. */
  function Stripped(f: Proto): Proto {
    Proto(f.head.(source := Some(UNKNOWN)), f.code, f.k, seq(|f.p|, i requires 0 <= i < |f.p| => Stripped(f.p[i])),
      Debug([], [], []))
  }

  lemma {:induction false} StrippedIs(f: Proto, parent: Option<seq<Byte>>)
    ensures Received(f, parent, UNKNOWN, true) == Stripped(f)
    decreases f, 1
  {
    StrippedAre(f.p, f.head.source);
  }

  lemma {:induction false} StrippedAre(fs: seq<Proto>, parent: Option<seq<Byte>>)
    ensures var r := ReceivedAll(fs, parent, UNKNOWN, true); |r| == |fs| && forall i :: 0 <= i < |fs| ==>
      r[i] == Stripped(fs[i])
    decreases fs, 0
  {
    if fs != [] {
      StrippedIs(fs[0], parent);
      StrippedAre(fs[1..], parent);
    }
  }

  /** Loading a dumped chunk reads exactly the chunk and gives the function, without its sources and its
      debug information if it was stripped; and it fails exactly if functions nest deeper than the limit. */
  lemma ChunkIs(m: Machine, check: Checker, f: Proto, strip: bool, rest: seq<Byte>, level: nat)
    requires Fits(m, f) && HasSources(f)
    requires Accepted(check, if strip then Stripped(f) else f)
    ensures LoadedChunk(m, check, DumpedChunk(m, f, strip) + rest, level) ==
      if Height(f) <= RoomAt(level) then Success(Got(if strip then Stripped(f) else f, rest))
        else Failure("code too deep")
  {
    hide LoadedFunction, DumpedFunction, Block, Fits, HasSources, Accepted, Received;
    var b := DumpedFunction(m, f, None, strip);
    assert DumpedChunk(m, f, strip) + rest == Header(m) + (b + rest);
    BlockIs(Header(m), b + rest);
    if strip {
      StrippedIs(f, None);
    } else {
      SameAgain(f, None, UNKNOWN);
    }
    FunctionIs(m, check, f, None, UNKNOWN, strip, RoomAt(level), rest);
  }

  /** A function with `h` functions inside, each in the one before. */
  function Nested(h: nat): Proto {
    Proto(Head(Some(UNKNOWN), 0, 0, 0, 0, 0, 2), [], [], if h == 0 then [] else [Nested(h - 1)], Debug([], [], []))
  }

  lemma {:induction false} NestedIsProper(m: Machine, h: nat)
    ensures Fits(m, Nested(h)) && HasSources(Nested(h)) && Height(Nested(h)) == h + 1
    ensures Accepted(_ => true, Nested(h))
  {
    SmallFits(m);
    if h > 0 {
      NestedIsProper(m, h - 1);
      assert Nested(h).p[1..] == [] && Heights(Nested(h).p) == Height(Nested(h - 1));
    }
  }

  lemma SmallFits(m: Machine)
    ensures StringFits(m, Some(UNKNOWN))
  {
    FourBytes();
    assert Pow256(8) == Pow256(4) * Pow256(4) by {
      assert Pow256(5) == 256 * Pow256(4);
      assert Pow256(6) == 256 * Pow256(5);
      assert Pow256(7) == 256 * Pow256(6);
    }
  }

  /** With no other C call active, a function with 200 others inside, each in the one before, is dumped but not
      loaded again, and one with 199 is. */
  lemma TooDeep(m: Machine)
    ensures Fits(m, Nested(LUAI_MAXCCALLS))
    ensures LoadedChunk(m, _ => true, DumpedChunk(m, Nested(LUAI_MAXCCALLS), false), 0) == Failure("code too deep")
    ensures Fits(m, Nested(LUAI_MAXCCALLS - 1))
    ensures LoadedChunk(m, _ => true, DumpedChunk(m, Nested(LUAI_MAXCCALLS - 1), false), 0) ==
      Success(Got(Nested(LUAI_MAXCCALLS - 1), []))
  {
    hide Fits, HasSources, Accepted, Height, LoadedChunk, DumpedChunk, Nested;
    NestedIsProper(m, LUAI_MAXCCALLS);
    NestedIsProper(m, LUAI_MAXCCALLS - 1);
    ChunkIs(m, _ => true, Nested(LUAI_MAXCCALLS), false, [], 0);
    ChunkIs(m, _ => true, Nested(LUAI_MAXCCALLS - 1), false, [], 0);
    assert DumpedChunk(m, Nested(LUAI_MAXCCALLS), false) + [] == DumpedChunk(m, Nested(LUAI_MAXCCALLS), false);
    assert DumpedChunk(m, Nested(LUAI_MAXCCALLS - 1), false) + [] == DumpedChunk(m, Nested(LUAI_MAXCCALLS - 1), false);
  }

  // ---- parts of a dump

  /** With more bytes the result is the same, unless bytes were missing. */
  ghost predicate Extends<T>(r: Result<Got<T>>, r': Result<Got<T>>, extra: seq<Byte>) {
    match r
    case Success(g) => r' == Success(Got(g.v, g.rest + extra))
    case Failure(error) => error == "unexpected end" || r' == Failure(error)
  }

  lemma BlockExtends(b: seq<Byte>, n: nat, extra: seq<Byte>)
    ensures Extends(Block(b, n), Block(b + extra, n), extra)
  {
    if n <= |b| {
      assert (b + extra)[..n] == b[..n] && (b + extra)[n..] == b[n..] + extra;
    }
  }

  lemma IntExtends(m: Machine, b: seq<Byte>, extra: seq<Byte>)
    ensures Extends(LoadedInt(m, b), LoadedInt(m, b + extra), extra)
  {
    BlockExtends(b, 4, extra);
  }

  lemma StringExtends(m: Machine, b: seq<Byte>, extra: seq<Byte>)
    ensures Extends(LoadedString(m, b), LoadedString(m, b + extra), extra)
  {
    BlockExtends(b, m.SizeT(), extra);
    var g := Block(b, m.SizeT());
    if g.Success? {
      BlockExtends(g.value.rest, Decode(m, g.value.v), extra);
    }
  }

  lemma VectorExtends(m: Machine, b: seq<Byte>, extra: seq<Byte>)
    ensures Extends(LoadedVector(m, b), LoadedVector(m, b + extra), extra)
  {
    hide LoadedInt;
    IntExtends(m, b, extra);
    var n := LoadedInt(m, b);
    if n.Success? {
      BlockExtends(n.value.rest, 4 * (n.value.v as int), extra);
    }
  }

  lemma ConstantExtends(m: Machine, b: seq<Byte>, extra: seq<Byte>)
    ensures Extends(LoadedConstant(m, b), LoadedConstant(m, b + extra), extra)
  {
    hide LoadedString;
    BlockExtends(b, 1, extra);
    if b != [] {
      BlockExtends(b[1..], 1, extra);
      BlockExtends(b[1..], 8, extra);
      StringExtends(m, b[1..], extra);
    }
  }

  lemma LocVarExtends(m: Machine, b: seq<Byte>, extra: seq<Byte>)
    ensures Extends(LoadedLocVar(m, b), LoadedLocVar(m, b + extra), extra)
  {
    hide LoadedString, LoadedInt;
    StringExtends(m, b, extra);
    var name := LoadedString(m, b);
    if name.Success? {
      IntExtends(m, name.value.rest, extra);
      var start := LoadedInt(m, name.value.rest);
      if start.Success? {
        IntExtends(m, start.value.rest, extra);
      }
    }
  }

  ghost predicate Monotone<T(!new)>(l: Loader<T>) {
    forall b, extra :: Extends(l(b), l(b + extra), extra)
  }

  lemma {:induction false} AllExtends<T(!new)>(l: Loader<T>, b: seq<Byte>, n: nat, extra: seq<Byte>)
    requires Monotone(l)
    ensures Extends(LoadedAll(l, b, n), LoadedAll(l, b + extra, n), extra)
    decreases n
  {
    if n > 0 {
      assert Extends(l(b), l(b + extra), extra);
      if l(b).Success? {
        AllExtends(l, l(b).value.rest, n - 1, extra);
      }
    }
  }

  lemma ListExtends<T(!new)>(m: Machine, l: Loader<T>, b: seq<Byte>, extra: seq<Byte>)
    requires Monotone(l)
    ensures Extends(LoadedList(m, l, b), LoadedList(m, l, b + extra), extra)
  {
    hide LoadedInt, LoadedAll, Monotone;
    IntExtends(m, b, extra);
    var n := LoadedInt(m, b);
    if n.Success? {
      AllExtends(l, n.value.rest, n.value.v, extra);
    }
  }

  lemma LoadersAreMonotone(m: Machine)
    ensures Monotone(ConstantLoader(m)) && Monotone(LocVarLoader(m)) && Monotone(StringLoader(m))
  {
    hide LoadedConstant, LoadedLocVar, LoadedString, Extends;
    forall b, extra ensures Extends(LoadedConstant(m, b), LoadedConstant(m, b + extra), extra) {
      ConstantExtends(m, b, extra);
    }
    forall b, extra ensures Extends(LoadedLocVar(m, b), LoadedLocVar(m, b + extra), extra) {
      LocVarExtends(m, b, extra);
    }
    forall b, extra ensures Extends(LoadedString(m, b), LoadedString(m, b + extra), extra) {
      StringExtends(m, b, extra);
    }
  }

  lemma HeadExtends(m: Machine, b: seq<Byte>, extra: seq<Byte>)
    ensures Extends(LoadedHead(m, b), LoadedHead(m, b + extra), extra)
  {
    hide LoadedString, LoadedInt;
    StringExtends(m, b, extra);
    var source := LoadedString(m, b);
    if source.Success? {
      IntExtends(m, source.value.rest, extra);
      var first := LoadedInt(m, source.value.rest);
      if first.Success? {
        IntExtends(m, first.value.rest, extra);
        var last := LoadedInt(m, first.value.rest);
        if last.Success? {
          BlockExtends(last.value.rest, 4, extra);
        }
      }
    }
  }

  lemma DebugExtends(m: Machine, b: seq<Byte>, extra: seq<Byte>)
    ensures Extends(LoadedDebug(m, b), LoadedDebug(m, b + extra), extra)
  {
    hide LoadedVector, LoadedList, Monotone;
    LoadersAreMonotone(m);
    VectorExtends(m, b, extra);
    var lines := LoadedVector(m, b);
    if lines.Success? {
      ListExtends(m, LocVarLoader(m), lines.value.rest, extra);
      var vars := LoadedList(m, LocVarLoader(m), lines.value.rest);
      if vars.Success? {
        ListExtends(m, StringLoader(m), vars.value.rest, extra);
      }
    }
  }

  lemma {:induction false} FunctionExtends(m: Machine, check: Checker, b: seq<Byte>, parent: seq<Byte>, room: nat,
      extra: seq<Byte>)
    ensures Extends(LoadedFunction(m, check, b, parent, room), LoadedFunction(m, check, b + extra, parent, room), extra)
    decreases room, 0
  {
    hide LoadedHead, LoadedVector, LoadedList, LoadedInt, LoadedDebug, LoadedFunctions, Monotone;
    if room > 0 {
      LoadersAreMonotone(m);
      HeadExtends(m, b, extra);
      var h := LoadedHead(m, b);
      if h.Success? {
        var source := if h.value.v.source.None? then parent else h.value.v.source.value;
        VectorExtends(m, h.value.rest, extra);
        var code := LoadedVector(m, h.value.rest);
        if code.Success? {
          ListExtends(m, ConstantLoader(m), code.value.rest, extra);
          var k := LoadedList(m, ConstantLoader(m), code.value.rest);
          if k.Success? {
            IntExtends(m, k.value.rest, extra);
            var n := LoadedInt(m, k.value.rest);
            if n.Success? {
              FunctionsExtend(m, check, n.value.rest, n.value.v, source, room - 1, extra);
              var p := LoadedFunctions(m, check, n.value.rest, n.value.v, source, room - 1);
              if p.Success? {
                DebugExtends(m, p.value.rest, extra);
              }
            }
          }
        }
      }
    }
  }

  lemma {:induction false} FunctionsExtend(m: Machine, check: Checker, b: seq<Byte>, n: nat, parent: seq<Byte>,
      room: nat, extra: seq<Byte>)
    ensures Extends(LoadedFunctions(m, check, b, n, parent, room),
      LoadedFunctions(m, check, b + extra, n, parent, room), extra)
    decreases room, n + 1
  {
    hide LoadedFunction;
    if n > 0 {
      FunctionExtends(m, check, b, parent, room, extra);
      var f := LoadedFunction(m, check, b, parent, room);
      if f.Success? {
        FunctionsExtend(m, check, f.value.rest, n - 1, parent, room, extra);
      }
    }
  }

  /** A dump that is cut off is never taken for a function. */
  lemma TruncatedFails(m: Machine, check: Checker, f: Proto, strip: bool, n: nat, level: nat)
    requires Fits(m, f) && HasSources(f) && n < |DumpedChunk(m, f, strip)|
    requires Accepted(check, if strip then Stripped(f) else f)
    ensures var r := LoadedChunk(m, check, DumpedChunk(m, f, strip)[..n], level);
            r == Failure("unexpected end") || (r == Failure("code too deep") && Height(f) > RoomAt(level))
  {
    hide LoadedFunction, DumpedChunk, Fits, HasSources, Accepted, Stripped, Height;
    var all := DumpedChunk(m, f, strip);
    var b, extra := all[..n], all[n..];
    assert all == b + extra && all + [] == all;
    ChunkIs(m, check, f, strip, [], level);
    BlockExtends(b, 12, extra);
    if |b| >= 12 {
      FunctionExtends(m, check, b[12..], UNKNOWN, RoomAt(level), extra);
    }
  }
}
