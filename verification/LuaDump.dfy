/** Dumping through a writer that may fail (ldump.c), and loading from a stream (lundump.c). */
module LuaDump {
  import opened LuaResults
  import opened LuaPatterns
  import opened LuaChunk

  // ---- dumping

  /** The bytes handed to the writer, and its status. */
  datatype Output = Output(out: seq<Byte>, status: int)

  /** The answer of the writer to a block, after what it has written. */
  type Writer = (seq<Byte>, seq<Byte>) -> int

  /** `blocks` are offered to the writer in turn, until it answers with something else than zero. */
  function Offer(writer: Writer, o: Output, blocks: seq<seq<Byte>>): Output
    decreases |blocks|
  {
    if o.status != 0 || blocks == [] then o
    else Offer(writer, Output(o.out + blocks[0], writer(o.out, blocks[0])), blocks[1..])
  }

  function Flat(blocks: seq<seq<Byte>>): seq<Byte> {
    if blocks == [] then [] else blocks[0] + Flat(blocks[1..])
  }

  ghost predicate Offered(writer: Writer, before: Output, after: Output, bytes: seq<Byte>, blocks: seq<seq<Byte>>) {
    Flat(blocks) == bytes && after == Offer(writer, before, blocks)
  }

  /** `bytes` have been offered to the writer, in blocks. */
  ghost predicate Wrote(writer: Writer, before: Output, after: Output, bytes: seq<Byte>) {
    exists blocks :: Offered(writer, before, after, bytes, blocks)
  }

  lemma {:induction false} OfferMore(writer: Writer, o: Output, a: seq<seq<Byte>>, b: seq<seq<Byte>>)
    ensures Offer(writer, o, a + b) == Offer(writer, Offer(writer, o, a), b)
    ensures Flat(a + b) == Flat(a) + Flat(b)
    decreases |a|
  {
    if a == [] {
      assert [] + b == b;
    } else {
      assert (a + b)[1..] == a[1..] + b;
      OfferMore(writer, Output(o.out + a[0], writer(o.out, a[0])), a[1..], b);
    }
  }

  lemma WroteBlock(writer: Writer, o: Output, b: seq<Byte>)
    ensures Wrote(writer, o, if o.status != 0 then o else Output(o.out + b, writer(o.out, b)), b)
  {
    var o' := if o.status != 0 then o else Output(o.out + b, writer(o.out, b));
    assert [b][1..] == [] && Flat([b]) == b + Flat([]) && b + [] == b;
    assert Offer(writer, o, [b]) == if o.status != 0 then o else Offer(writer, o', []);
    assert Offered(writer, o, o', b, [b]);
  }

  lemma WroteNothing(writer: Writer, o: Output)
    ensures Wrote(writer, o, o, [])
  {
    assert Offered(writer, o, o, [], []);
  }

  lemma WroteMore(writer: Writer, o0: Output, o1: Output, o2: Output, a: seq<Byte>, b: seq<Byte>)
    requires Wrote(writer, o0, o1, a) && Wrote(writer, o1, o2, b)
    ensures Wrote(writer, o0, o2, a + b)
  {
    hide Offer, Flat;
    var xs :| Offered(writer, o0, o1, a, xs);
    var ys :| Offered(writer, o1, o2, b, ys);
    OfferMore(writer, o0, xs, ys);
    assert Offered(writer, o0, o2, a + b, xs + ys);
  }

  /** A writer that answers zero to every block it is offered gets everything, and another one a part. */
  lemma {:induction false} OfferedInTurn(writer: Writer, o: Output, blocks: seq<seq<Byte>>)
    requires o.status == 0
    ensures var o' := Offer(writer, o, blocks);
      && o.out <= o'.out <= o.out + Flat(blocks)
      && (o'.status == 0 ==> o'.out == o.out + Flat(blocks))
      && (o'.status != 0 ==> exists w, b :: o'.out == w + b && o'.status == writer(w, b))
    decreases |blocks|
  {
    if blocks != [] {
      var o1 := Output(o.out + blocks[0], writer(o.out, blocks[0]));
      assert o.out + Flat(blocks) == o1.out + Flat(blocks[1..]);
      if o1.status == 0 {
        OfferedInTurn(writer, o1, blocks[1..]);
      }
    }
  }

  class DumpState {
    const m: Machine
    const strip: bool
    const writer: Writer
    var out: seq<Byte>
    var status: int

    constructor (m: Machine, writer: Writer, strip: bool)
      ensures this.m == m && this.writer == writer && this.strip == strip && State() == Output([], 0)
    {
      this.m, this.writer, this.strip, out, status := m, writer, strip, [], 0;
    }

    ghost function State(): Output
      reads this
    {
      Output(out, status)
    }

    method DumpBlock(b: seq<Byte>)
      modifies this
      ensures Wrote(writer, old(State()), State(), b)
    {
      WroteBlock(writer, State(), b);
      if status == 0 {
        status := writer(out, b);
        out := out + b;
      }
    }

    method DumpInt(x: CInt)
      modifies this
      ensures Wrote(writer, old(State()), State(), DumpedInt(m, x))
    {
      DumpBlock(Encode(m, 4, ToWord(x)));
    }

    method DumpString(s: Option<seq<Byte>>)
      modifies this
      ensures Wrote(writer, old(State()), State(), DumpedString(m, s))
    {
      ghost var o0 := State();
      match s {
        case None => DumpBlock(Encode(m, m.SizeT(), 0));
        case Some(s) =>
          DumpBlock(Encode(m, m.SizeT(), |s| + 1));
          ghost var o1 := State();
          DumpBlock(s + [0]);
          WroteMore(writer, o0, o1, State(), Encode(m, m.SizeT(), |s| + 1), s + [0]);
          assert Encode(m, m.SizeT(), |s| + 1) + (s + [0]) == Encode(m, m.SizeT(), |s| + 1) + s + [0];
      }
    }

    method DumpVector(ws: seq<Word>)
      requires |ws| < 0x8000_0000
      modifies this
      ensures Wrote(writer, old(State()), State(), DumpedVector(m, ws))
    {
      ghost var o0 := State();
      DumpInt(|ws|);
      ghost var o1 := State();
      DumpBlock(DumpedWords(m, ws));
      WroteMore(writer, o0, o1, State(), DumpedInt(m, |ws|), DumpedWords(m, ws));
    }

    method DumpConstant(k: Constant)
      modifies this
      ensures Wrote(writer, old(State()), State(), DumpedConstant(m, k))
    {
      ghost var o0 := State();
      match k {
        case KNil => DumpBlock([0]);
        case KBool(b) =>
          DumpBlock([1]);
          ghost var o1 := State();
          DumpBlock([if b then 1 else 0]);
          WroteMore(writer, o0, o1, State(), [1], [if b then 1 else 0]);
        case KNumber(n) =>
          DumpBlock([3]);
          ghost var o1 := State();
          DumpBlock(n);
          WroteMore(writer, o0, o1, State(), [3], n);
        case KString(s) =>
          DumpBlock([4]);
          ghost var o1 := State();
          DumpString(s);
          WroteMore(writer, o0, o1, State(), [4], DumpedString(m, s));
      }
    }

    method DumpConstants(ks: seq<Constant>)
      requires |ks| < 0x8000_0000
      modifies this
      ensures Wrote(writer, old(State()), State(), DumpedList(m, ConstantDumper(m), ks))
    {
      hide DumpedConstant, DumpedInt, Wrote, All;
      DumpInt(|ks|);
      ghost var before := DumpedInt(m, |ks|);
      var i := 0;
      NothingLeft(ConstantDumper(m), ks, before);
      while i < |ks|
        invariant i <= |ks| && Wrote(writer, old(State()), State(), before)
        invariant before + All(ConstantDumper(m), ks[i..]) == DumpedList(m, ConstantDumper(m), ks)
      {
        ghost var o := State();
        DumpConstant(ks[i]);
        WroteMore(writer, old(State()), o, State(), before, DumpedConstant(m, ks[i]));
        FirstOfAll(ConstantDumper(m), ks, i, before);
        before := before + DumpedConstant(m, ks[i]);
        i := i + 1;
      }
      NothingLeft(ConstantDumper(m), ks, before);
    }

    method DumpLocVars(vs: seq<LocVar>)
      requires |vs| < 0x8000_0000
      modifies this
      ensures Wrote(writer, old(State()), State(), DumpedList(m, LocVarDumper(m), vs))
    {
      hide DumpedString, DumpedInt, Wrote, All;
      DumpInt(|vs|);
      ghost var before := DumpedInt(m, |vs|);
      var i := 0;
      NothingLeft(LocVarDumper(m), vs, before);
      while i < |vs|
        invariant i <= |vs| && Wrote(writer, old(State()), State(), before)
        invariant before + All(LocVarDumper(m), vs[i..]) == DumpedList(m, LocVarDumper(m), vs)
      {
        ghost var o := State();
        DumpString(vs[i].varname);
        ghost var o1 := State();
        DumpInt(vs[i].startpc);
        ghost var o2 := State();
        DumpInt(vs[i].endpc);
        WroteMore(writer, o1, o2, State(), DumpedInt(m, vs[i].startpc), DumpedInt(m, vs[i].endpc));
        WroteMore(writer, o, o1, State(), DumpedString(m, vs[i].varname),
          DumpedInt(m, vs[i].startpc) + DumpedInt(m, vs[i].endpc));
        WroteMore(writer, old(State()), o, State(), before, DumpedLocVar(m, vs[i]));
        FirstOfAll(LocVarDumper(m), vs, i, before);
        before := before + DumpedLocVar(m, vs[i]);
        i := i + 1;
      }
      NothingLeft(LocVarDumper(m), vs, before);
    }

    method DumpUpvalues(ss: seq<Option<seq<Byte>>>)
      requires |ss| < 0x8000_0000
      modifies this
      ensures Wrote(writer, old(State()), State(), DumpedList(m, StringDumper(m), ss))
    {
      hide DumpedString, DumpedInt, Wrote, All;
      DumpInt(|ss|);
      ghost var before := DumpedInt(m, |ss|);
      var i := 0;
      NothingLeft(StringDumper(m), ss, before);
      while i < |ss|
        invariant i <= |ss| && Wrote(writer, old(State()), State(), before)
        invariant before + All(StringDumper(m), ss[i..]) == DumpedList(m, StringDumper(m), ss)
      {
        ghost var o := State();
        DumpString(ss[i]);
        WroteMore(writer, old(State()), o, State(), before, DumpedString(m, ss[i]));
        FirstOfAll(StringDumper(m), ss, i, before);
        before := before + DumpedString(m, ss[i]);
        i := i + 1;
      }
      NothingLeft(StringDumper(m), ss, before);
    }

    method DumpDebug(d: Debug)
      requires DebugFits(m, d)
      modifies this
      ensures Wrote(writer, old(State()), State(), DumpedDebug(m, SentDebug(d, strip)))
    {
      hide DumpedVector, DumpedList, Wrote;
      var sent := SentDebug(d, strip);
      ghost var o0 := State();
      DumpVector(sent.lineinfo);
      ghost var o1 := State();
      DumpLocVars(sent.locvars);
      ghost var o2 := State();
      DumpUpvalues(sent.upvalues);
      ghost var vars, ups := DumpedList(m, LocVarDumper(m), sent.locvars),
        DumpedList(m, StringDumper(m), sent.upvalues);
      WroteMore(writer, o1, o2, State(), vars, ups);
      WroteMore(writer, o0, o1, State(), DumpedVector(m, sent.lineinfo), vars + ups);
    }

    /** The fields of one byte. */
    method DumpBytes(h: Head)
      modifies this
      ensures Wrote(writer, old(State()), State(), [h.nups, h.numparams, h.isVararg, h.maxstacksize])
    {
      hide Wrote;
      ghost var o0 := State();
      DumpBlock([h.nups]);
      ghost var o1 := State();
      DumpBlock([h.numparams]);
      ghost var o2 := State();
      DumpBlock([h.isVararg]);
      ghost var o3 := State();
      DumpBlock([h.maxstacksize]);
      WroteMore(writer, o2, o3, State(), [h.isVararg], [h.maxstacksize]);
      WroteMore(writer, o1, o2, State(), [h.numparams], [h.isVararg] + [h.maxstacksize]);
      WroteMore(writer, o0, o1, State(), [h.nups], [h.numparams] + ([h.isVararg] + [h.maxstacksize]));
      assert [h.nups] + ([h.numparams] + ([h.isVararg] + [h.maxstacksize])) ==
        [h.nups, h.numparams, h.isVararg, h.maxstacksize];
    }

    method DumpHead(h: Head, p: Option<seq<Byte>>)
      modifies this
      ensures Wrote(writer, old(State()), State(), DumpedHead(m, SentHead(h, p, strip)))
    {
      hide DumpedString, DumpedInt, Wrote;
      ghost var o0 := State();
      DumpString(if h.source == p || strip then None else h.source);
      ghost var o1 := State();
      DumpInt(h.linedefined);
      ghost var o2 := State();
      DumpInt(h.lastlinedefined);
      ghost var o3 := State();
      DumpBytes(h);
      ghost var four := [h.nups, h.numparams, h.isVararg, h.maxstacksize];
      WroteMore(writer, o2, o3, State(), DumpedInt(m, h.lastlinedefined), four);
      WroteMore(writer, o1, o2, State(), DumpedInt(m, h.linedefined), DumpedInt(m, h.lastlinedefined) + four);
      WroteMore(writer, o0, o1, State(), DumpedString(m, SentHead(h, p, strip).source),
        DumpedInt(m, h.linedefined) + (DumpedInt(m, h.lastlinedefined) + four));
    }

    /** `DumpFunction`. */
    method DumpFunction(f: Proto, p: Option<seq<Byte>>)
      requires Fits(m, f)
      modifies this
      ensures Wrote(writer, old(State()), State(), DumpedFunction(m, f, p, strip))
      decreases f, 1
    {
      hide DumpedVector, DumpedList, DumpedHead, DumpedDebug, DumpedInt, Wrote, SentHead, DebugFits;
      ghost var o0 := State();
      DumpHead(f.head, p);
      ghost var o1 := State();
      DumpVector(f.code);
      ghost var o2 := State();
      DumpConstants(f.k);
      ghost var o3 := State();
      DumpInt(|f.p|);
      ghost var o4 := State();
      DumpFunctions(f.p, f.head.source);
      ghost var o5 := State();
      DumpDebug(f.debug);
      SentDebugFits(m, f.debug, strip);
      ghost var ps, d := DumpedFunctions(m, f.p, f.head.source, strip), DumpedDebug(m, SentDebug(f.debug, strip));
      WroteMore(writer, o4, o5, State(), ps, d);
      WroteMore(writer, o3, o4, State(), DumpedInt(m, |f.p|), ps + d);
      WroteMore(writer, o2, o3, State(), DumpedList(m, ConstantDumper(m), f.k), DumpedInt(m, |f.p|) + (ps + d));
      WroteMore(writer, o1, o2, State(), DumpedVector(m, f.code), DumpedList(m, ConstantDumper(m), f.k) +
        (DumpedInt(m, |f.p|) + (ps + d)));
      WroteMore(writer, o0, o1, State(), DumpedHead(m, SentHead(f.head, p, strip)),
                DumpedVector(m, f.code) + (DumpedList(m, ConstantDumper(m), f.k) + (DumpedInt(m, |f.p|) + (ps + d))));
    }

    /** The functions in a function. */
    method DumpFunctions(fs: seq<Proto>, p: Option<seq<Byte>>)
      requires forall i :: 0 <= i < |fs| ==> Fits(m, fs[i])
      modifies this
      ensures Wrote(writer, old(State()), State(), DumpedFunctions(m, fs, p, strip))
      decreases fs, 0
    {
      hide DumpedFunction, Fits, Wrote;
      ghost var before := [];
      WroteNothing(writer, State());
      var i := 0;
      assert fs[0..] == fs;
      while i < |fs|
        invariant i <= |fs| && Wrote(writer, old(State()), State(), before)
        invariant before + DumpedFunctions(m, fs[i..], p, strip) == DumpedFunctions(m, fs, p, strip)
      {
        ghost var o := State();
        DumpFunction(fs[i], p);
        ghost var b := DumpedFunction(m, fs[i], p, strip);
        WroteMore(writer, old(State()), o, State(), before, b);
        assert fs[i..][1..] == fs[i + 1..];
        assert before + (b + DumpedFunctions(m, fs[i + 1..], p, strip)) == (before + b) +
          DumpedFunctions(m, fs[i + 1..], p, strip);
        before := before + b;
        i := i + 1;
      }
      assert fs[i..] == [] && before + [] == before;
    }
  }

  lemma SentDebugFits(m: Machine, d: Debug, strip: bool)
    requires DebugFits(m, d)
    ensures DebugFits(m, SentDebug(d, strip))
  {
  }

  lemma NothingLeft<T(!new)>(dump: T -> seq<Byte>, xs: seq<T>, before: seq<Byte>)
    ensures xs[0..] == xs && before + All(dump, xs[|xs|..]) == before
  {
  }

  lemma FirstOfAll<T(!new)>(dump: T -> seq<Byte>, xs: seq<T>, i: nat, before: seq<Byte>)
    requires i < |xs|
    ensures before + All(dump, xs[i..]) == before + dump(xs[i]) + All(dump, xs[i + 1..])
  {
    assert xs[i..][1..] == xs[i + 1..];
  }

  /** `luaU_dump`: the chunk is offered to the writer in blocks, and the status is the first answer that is not
      zero; it is zero if the whole chunk has been written. */
  method UDump(m: Machine, f: Proto, writer: Writer, strip: bool) returns (status: int, out: seq<Byte>)
    requires Fits(m, f)
    ensures Wrote(writer, Output([], 0), Output(out, status), DumpedChunk(m, f, strip))
    ensures status == 0 ==> out == DumpedChunk(m, f, strip)
    ensures status != 0 ==> exists w, b :: out == w + b && status == writer(w, b)
    ensures (forall w, b :: writer(w, b) == 0) ==> status == 0
    ensures out <= DumpedChunk(m, f, strip)
  {
    hide DumpedFunction, Fits, Wrote;
    var d := new DumpState(m, writer, strip);
    ghost var o0 := d.State();
    d.DumpBlock(Header(m));
    ghost var o1 := d.State();
    d.DumpFunction(f, None);
    WroteMore(writer, o0, o1, d.State(), Header(m), DumpedFunction(m, f, None, strip));
    WrittenOut(writer, d.State(), DumpedChunk(m, f, strip));
    return d.status, d.out;
  }

  lemma WrittenOut(writer: Writer, o: Output, bytes: seq<Byte>)
    requires Wrote(writer, Output([], 0), o, bytes)
    ensures o.out <= bytes && (o.status == 0 ==> o.out == bytes)
    ensures o.status != 0 ==> exists w, b :: o.out == w + b && o.status == writer(w, b)
  {
    var blocks :| Offered(writer, Output([], 0), o, bytes, blocks);
    OfferedInTurn(writer, Output([], 0), blocks);
    assert [] + bytes == bytes;
  }
}
