/** Loading a precompiled chunk from a stream (lundump.c). */
module LuaUndump {
  import opened LuaResults
  import opened LuaPatterns
  import opened LuaZio
  import opened LuaChunk

  class LoadState {
    const m: Machine
    const check: Checker
    const z: Zio
    var nCcalls: nat

    constructor (m: Machine, check: Checker, z: Zio, level: nat)
      ensures this.m == m && this.check == check && this.z == z && nCcalls == level
    {
      this.m, this.check, this.z, nCcalls := m, check, z, level;
    }

    /** What has been loaded, and what is left in the stream, are what the bytes `b` give. */
    ghost predicate Agrees<T>(r: Result<T>, expected: Result<Got<T>>)
      reads z
    {
      && z.Valid()
      && match expected
         case Success(g) => r == Success(g.v) && z.Content() == g.rest
         case Failure(error) => r == Failure(error)
    }

    /** The levels that are left. */
    function Room(): nat
      reads this
    {
      RoomAt(nCcalls)
    }

    method LoadBlock(size: nat) returns (r: Result<seq<Byte>>)
      requires z.Valid()
      modifies z
      ensures Agrees(r, Block(old(z.Content()), size))
    {
      var missing, b := z.Read(size);
      assert missing == 0 ==> old(z.Content())[..size] == b && old(z.Content())[size..] == z.Content();
      return if missing != 0 then Failure("unexpected end") else Success(b);
    }

    method LoadByte() returns (r: Result<Byte>)
      requires z.Valid()
      modifies z
      ensures Agrees(r, LoadedByte(old(z.Content())))
    {
      var b :- LoadBlock(1);
      return Success(b[0]);
    }

    method LoadInt() returns (r: Result<CInt>)
      requires z.Valid()
      modifies z
      ensures Agrees(r, LoadedInt(m, old(z.Content())))
    {
      var b :- LoadBlock(4);
      var x := ToInt(DecodeWord(m, b));
      return if x < 0 then Failure("bad integer") else Success(x);
    }

    method LoadString() returns (r: Result<Option<seq<Byte>>>)
      requires z.Valid()
      modifies z
      ensures Agrees(r, LoadedString(m, old(z.Content())))
    {
      var b :- LoadBlock(m.SizeT());
      var size := Decode(m, b);
      if size == 0 {
        return Success(None);
      }
      var s :- LoadBlock(size);
      return Success(Some(s[..size - 1]));
    }

    /** `LoadCode`, and the lines of `LoadDebug`. */
    method LoadVector() returns (r: Result<seq<Word>>)
      requires z.Valid()
      modifies z
      ensures Agrees(r, LoadedVector(m, old(z.Content())))
    {
      hide LoadedInt;
      var n :- LoadInt();
      var b :- LoadBlock(4 * (n as int));
      return Success(Words(m, b));
    }

    method LoadConstant() returns (r: Result<Constant>)
      requires z.Valid()
      modifies z
      ensures Agrees(r, LoadedConstant(m, old(z.Content())))
    {
      hide LoadedString, LoadedByte;
      var t :- LoadByte();
      if t == 0 {
        return Success(KNil);
      } else if t == 1 {
        var b :- LoadByte();
        return Success(KBool(b != 0));
      } else if t == 3 {
        var n :- LoadBlock(8);
        return Success(KNumber(n));
      } else if t == 4 {
        var s :- LoadString();
        return Success(KString(s));
      } else {
        return Failure("bad constant");
      }
    }

    /** What has been collected, with the `n` items that follow, is the whole list. */
    ghost predicate Collected<T(!new)>(whole: Result<Got<seq<T>>>, xs: seq<T>, rest: Result<Got<seq<T>>>) {
      match rest
      case Success(g) => whole == Success(Got(xs + g.v, g.rest))
      case Failure(error) => whole == Failure(error)
    }

    method LoadConstants() returns (r: Result<seq<Constant>>)
      requires z.Valid()
      modifies z
      ensures Agrees(r, LoadedList(m, ConstantLoader(m), old(z.Content())))
    {
      hide LoadedInt, LoadedConstant, LoadedAll;
      var n :- LoadInt();
      ghost var whole := LoadedAll(ConstantLoader(m), z.Content(), n);
      var ks, i := [], 0;
      NothingCollected(whole);
      while i < n
        invariant i <= n && z.Valid() && Collected(whole, ks, LoadedAll(ConstantLoader(m), z.Content(), n - i))
      {
        ghost var b := z.Content();
        OneCollected(whole, ks, ConstantLoader(m), b, n - i);
        var k :- LoadConstant();
        ks := ks + [k];
        i := i + 1;
      }
      AllCollected(whole, ks, ConstantLoader(m), z.Content());
      return Success(ks);
    }

    method LoadLocVars() returns (r: Result<seq<LocVar>>)
      requires z.Valid()
      modifies z
      ensures Agrees(r, LoadedList(m, LocVarLoader(m), old(z.Content())))
    {
      hide LoadedInt, LoadedString, LoadedAll;
      var n :- LoadInt();
      ghost var whole := LoadedAll(LocVarLoader(m), z.Content(), n);
      var vs, i := [], 0;
      NothingCollected(whole);
      while i < n
        invariant i <= n && z.Valid() && Collected(whole, vs, LoadedAll(LocVarLoader(m), z.Content(), n - i))
      {
        ghost var b := z.Content();
        OneCollected(whole, vs, LocVarLoader(m), b, n - i);
        var name :- LoadString();
        var start :- LoadInt();
        var end :- LoadInt();
        vs := vs + [LocVar(name, start, end)];
        i := i + 1;
      }
      AllCollected(whole, vs, LocVarLoader(m), z.Content());
      return Success(vs);
    }

    method LoadUpvalues() returns (r: Result<seq<Option<seq<Byte>>>>)
      requires z.Valid()
      modifies z
      ensures Agrees(r, LoadedList(m, StringLoader(m), old(z.Content())))
    {
      hide LoadedInt, LoadedString, LoadedAll;
      var n :- LoadInt();
      ghost var whole := LoadedAll(StringLoader(m), z.Content(), n);
      var ss, i := [], 0;
      NothingCollected(whole);
      while i < n
        invariant i <= n && z.Valid() && Collected(whole, ss, LoadedAll(StringLoader(m), z.Content(), n - i))
      {
        ghost var b := z.Content();
        OneCollected(whole, ss, StringLoader(m), b, n - i);
        var s :- LoadString();
        ss := ss + [s];
        i := i + 1;
      }
      AllCollected(whole, ss, StringLoader(m), z.Content());
      return Success(ss);
    }

    method LoadDebug() returns (r: Result<Debug>)
      requires z.Valid()
      modifies z
      ensures Agrees(r, LoadedDebug(m, old(z.Content())))
    {
      hide LoadedVector, LoadedList;
      var lines :- LoadVector();
      var vars :- LoadLocVars();
      var ups :- LoadUpvalues();
      return Success(Debug(lines, vars, ups));
    }

    method LoadHead() returns (r: Result<Head>)
      requires z.Valid()
      modifies z
      ensures Agrees(r, LoadedHead(m, old(z.Content())))
    {
      hide LoadedString, LoadedInt;
      var source :- LoadString();
      var first :- LoadInt();
      var last :- LoadInt();
      var four :- LoadBlock(4);
      return Success(Head(source, first, last, four[0], four[1], four[2], four[3]));
    }

    /** `LoadFunction`. */
    method LoadFunction(p: seq<Byte>) returns (r: Result<Proto>)
      requires z.Valid()
      modifies z, this
      ensures Agrees(r, LoadedFunction(m, check, old(z.Content()), p, old(Room())))
      ensures r.Success? ==> nCcalls == old(nCcalls)
      decreases LUAI_MAXCCALLS + 1 - nCcalls, 0
    {
      hide LoadedHead, LoadedVector, LoadedList, LoadedInt, LoadedDebug, LoadedFunctions;
      nCcalls := nCcalls + 1;
      if nCcalls > LUAI_MAXCCALLS {
        return Failure("code too deep");
      }
      var h :- LoadHead();
      var source := if h.source.None? then p else h.source.value;
      var code :- LoadVector();
      var k :- LoadConstants();
      var n :- LoadInt();
      var ps :- LoadFunctions(n, source);
      var d :- LoadDebug();
      var f := Proto(h.(source := Some(source)), code, k, ps, d);
      if !check(f) {
        return Failure("bad code");
      }
      nCcalls := nCcalls - 1;
      return Success(f);
    }

    method LoadFunctions(n: nat, p: seq<Byte>) returns (r: Result<seq<Proto>>)
      requires z.Valid()
      modifies z, this
      ensures Agrees(r, LoadedFunctions(m, check, old(z.Content()), n, p, old(Room())))
      ensures r.Success? ==> nCcalls == old(nCcalls)
      decreases LUAI_MAXCCALLS + 1 - nCcalls, n + 1
    {
      hide LoadedFunction, LoadedFunctions;
      ghost var whole := LoadedFunctions(m, check, z.Content(), n, p, Room());
      var fs, i := [], 0;
      NothingCollected(whole);
      while i < n
        invariant i <= n && z.Valid() && nCcalls == old(nCcalls)
        invariant Collected(whole, fs, LoadedFunctions(m, check, z.Content(), n - i, p, Room()))
      {
        OneFunction(whole, fs, z.Content(), n - i, p, Room());
        var f :- LoadFunction(p);
        fs := fs + [f];
        i := i + 1;
      }
      AllFunctions(whole, fs, z.Content(), p, Room());
      return Success(fs);
    }

    lemma NothingCollected<T(!new)>(whole: Result<Got<seq<T>>>)
      ensures Collected(whole, [], whole)
    {
      if whole.Success? {
        assert [] + whole.value.v == whole.value.v;
      }
    }

    lemma OneFunction(whole: Result<Got<seq<Proto>>>, fs: seq<Proto>, b: seq<Byte>, n: nat, p: seq<Byte>, room: nat)
      requires n > 0 && Collected(whole, fs, LoadedFunctions(m, check, b, n, p, room))
      ensures match LoadedFunction(m, check, b, p, room)
        case Success(f) => Collected(whole, fs + [f.v], LoadedFunctions(m, check, f.rest, n - 1, p, room))
        case Failure(error) => whole == Failure(error)
    {
      hide LoadedFunction;
      if LoadedFunction(m, check, b, p, room).Success? {
        var f := LoadedFunction(m, check, b, p, room).value;
        var more := LoadedFunctions(m, check, f.rest, n - 1, p, room);
        if more.Success? {
          assert fs + ([f.v] + more.value.v) == (fs + [f.v]) + more.value.v;
        }
      }
    }

    lemma AllFunctions(whole: Result<Got<seq<Proto>>>, fs: seq<Proto>, b: seq<Byte>, p: seq<Byte>, room: nat)
      requires Collected(whole, fs, LoadedFunctions(m, check, b, 0, p, room))
      ensures whole == Success(Got(fs, b))
    {
      assert fs + [] == fs;
    }

    lemma OneCollected<T(!new)>(whole: Result<Got<seq<T>>>, xs: seq<T>, l: Loader<T>, b: seq<Byte>, n: nat)
      requires n > 0 && Collected(whole, xs, LoadedAll(l, b, n))
      ensures match l(b)
        case Success(x) => Collected(whole, xs + [x.v], LoadedAll(l, x.rest, n - 1))
        case Failure(error) => whole == Failure(error)
    {
      if l(b).Success? {
        var x := l(b).value;
        var more := LoadedAll(l, x.rest, n - 1);
        if more.Success? {
          assert xs + ([x.v] + more.value.v) == (xs + [x.v]) + more.value.v;
        }
      }
    }

    lemma AllCollected<T(!new)>(whole: Result<Got<seq<T>>>, xs: seq<T>, l: Loader<T>, b: seq<Byte>)
      requires Collected(whole, xs, LoadedAll(l, b, 0))
      ensures whole == Success(Got(xs, b))
    {
      assert xs + [] == xs;
    }
  }

  /** `luaU_undump`, while `level` C calls are active: the result depends on the bytes, not on the chunks in
      which the reader gives them. */
  method UUndump(m: Machine, check: Checker, z: Zio, level: nat) returns (r: Result<Proto>)
    requires z.Valid()
    modifies z
    ensures z.Valid()
    ensures match LoadedChunk(m, check, old(z.Content()), level)
            case Success(g) => r == Success(g.v) && z.Content() == g.rest
            case Failure(error) => r == Failure(error)
  {
    hide LoadedFunction;
    var s := new LoadState(m, check, z, level);
    var h :- s.LoadBlock(12);
    if h != Header(m) {
      return Failure("bad header");
    }
    r := s.LoadFunction(UNKNOWN);
  }
}
