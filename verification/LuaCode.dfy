/** The code generator (lcode.c): one pass, no syntax tree, jumps patched backwards.

    `FuncState` holds the function being compiled; `code[..]` ends at `fs->pc`. The ghost fields
    name the jumps that are still open: `waiting` is the list that starts at `jpc`, and `pend` the
    jumps in all other lists. A compile-time error is a long jump in the C code: a method that
    fails returns Failure and its callers pass it on. */
module LuaCode {
  import opened LuaResults
  import opened LuaValues
  import opened LuaExpressions
  import opened LuaOpcodes
  import opened LuaVM
  import opened LuaCodeEdits
  import opened LuaDenotation
  import opened LuaToRegister
  import opened LuaOperators

  const MAXSTACK: nat := 250

  /** The offset of a jump at `pc` to `dest` fits its instruction. */
  predicate InReach(pc: nat, dest: int) {
    dest - (pc + 1) <= MAXARG_SBX && (pc + 1) - dest <= MAXARG_SBX
  }

  /** The jump that a comparison still is. */
  ghost function OwnJump(v: View): set<nat> {
    if v.Kind? && v.k.VJmp? then {v.k.info} else {}
  }

  /** Variables that have not been read. */
  predicate IsUnread(k: ExpKind) {
    k.VLocal? || k.VUpval? || k.VGlobal?
  }

  function ConstantOf(k: ExpKind): Option<Value> {
    match k
    case VNil => Some(Nil)
    case VTrue => Some(Bool(true))
    case VFalse => Some(Bool(false))
    case VKNum(n) => Some(Num(n))
    case _ => None
  }

  predicate IsNumeral(e: ExpDesc) {
    e.k.VKNum? && e.t == NO_JUMP && e.f == NO_JUMP
  }

  datatype FoldOp = Bin(op: ArithOp) | Neg | Length

  /** Folds an operation on numerals, unless it would divide by zero or give a NaN. */
  function ConstFolding(sem: Semantics, op: FoldOp, e1: ExpDesc, e2: ExpDesc): (n: Option<real>)
    ensures n.Some? ==> !sem.isNaN(n.value) && IsNumeral(e1) && IsNumeral(e2)
  {
    if !IsNumeral(e1) || !IsNumeral(e2) then None
    else
      var v1, v2 := e1.k.nval, e2.k.nval;
      var r := match op
        case Bin(o) => if (o.Div? || o.Mod?) && v2 == 0.0 then None else Some(sem.arith(o, v1, v2))
        case Neg => Some(sem.neg(v1))
        case Length => None;
      if r.None? || sem.isNaN(r.value) then None else r
  }

  /** What is left when the first operand of a binary operator has been prepared. */
  ghost predicate FirstDone(c1: Context, g: Gen, op: BinOp, e: ExpDesc, l1: seq<nat>) {
    match op
    case And =>
      && Compiled(c1, g, Branch(true), [], l1, NO_REG)
      && e.t == NO_JUMP && ListAt(g.code, e.f, l1) && g.pend == c1.start.pend + Elems(l1)
    case Or =>
      && Compiled(c1, g, Branch(false), l1, [], NO_REG)
      && e.f == NO_JUMP && ListAt(g.code, e.t, l1) && g.pend == c1.start.pend + Elems(l1)
    case _ =>
      && Compiled(c1, g, Kind(e.k), [], [], NO_REG)
      && l1 == [] && e.t == NO_JUMP && e.f == NO_JUMP && g.pend == c1.start.pend
      && (FuncState.IsSettled(e) || (op.OpArith? && IsNumeral(e)))
      && (op.Concat? ==> e.k == VNonReloc(c1.base))
  }

  /** The first register free for the second operand. */
  function BaseAfter(c1: Context, op: BinOp, e: ExpDesc): nat {
    c1.base + if IsStrict(op) && e.k.VNonReloc? && e.k.info >= c1.nactvar then 1 else 0
  }

  class FuncState {
    const sem: Semantics
    const nactvar: nat
    var code: seq<Instr>
    var k: seq<Value>
    var h: map<Value, nat>
    var jpc: int
    var lastTarget: int
    var freeReg: nat
    var maxStackSize: nat
    ghost var pend: set<nat>
    ghost var waiting: seq<nat>

    /** A new function whose first registers hold its parameters. */
    constructor (sem: Semantics, nactvar: nat)
      requires nactvar < MAXSTACK
      ensures Valid() && this.sem == sem && this.nactvar == nactvar
      ensures Now() == Gen([], [], {}, {}, -1) && freeReg == nactvar
    {
      this.sem, this.nactvar := sem, nactvar;
      code, k, h := [], [], map[];
      jpc, lastTarget, freeReg := NO_JUMP, -1, nactvar;
      maxStackSize := if nactvar < 2 then 2 else nactvar;
      pend, waiting := {}, [];
    }

    ghost function Now(): Gen
      reads this
    {
      Gen(code, k, pend, Elems(waiting), lastTarget)
    }

    ghost predicate Valid()
      reads this
    {
      && WellFormed(Now())
      && ListAt(code, jpc, waiting)
      && (forall v :: v in h ==> h[v] < |k| && k[h[v]] == v)
      && nactvar <= freeReg <= maxStackSize < MAXSTACK
    }

    /** The instructions and the constants. */
    ghost function Size(): nat
      reads this`code, this`k
    {
      |code| + |k|
    }

    /** A jump may not reach its target, or a constant or a register may not fit its field. */
    predicate AtLimit()
      reads this
    {
      |code| >= MAXARG_SBX || |k| >= MAXARG_BX || freeReg + 1 >= MAXSTACK
    }

    // ---------------------------------------------------------------- jump lists

    method FixJump(pc: nat, dest: int) returns (r: Result<()>)
      requires pc < |code| && code[pc].Jmp?
      modifies this`code
      ensures Size() <= old(Size())
      ensures r.Success? <==> InReach(pc, dest)
      ensures r.Failure? ==> code == old(code) && (-1 <= dest <= |code| ==> AtLimit())
      ensures r.Success? ==> code == old(code)[pc := Jmp(dest - (pc + 1))]
    {
      var offset := dest - (pc + 1);
      if offset > MAXARG_SBX || -offset > MAXARG_SBX {
        return Failure("control structure too long");
      }
      code := code[pc := Jmp(offset)];
      return Success(());
    }

    /** Whether some jump of the list does not bring a value with it. */
    method NeedValue(list: int, ghost s: seq<nat>) returns (b: bool)
      requires ListAt(code, list, s)
      ensures b <==> exists j :: j in s && !CarriesValue(code, j)
    {
      var l := list;
      ghost var n := 0;
      while l != NO_JUMP
        invariant 0 <= n <= |s| && l == (if n < |s| then s[n] else NO_JUMP)
        invariant forall j :: j in s[..n] ==> CarriesValue(code, j)
        decreases |s| - n
      {
        if !code[ControlAt(code, l)].TestSet? {
          assert s[n] in s && !CarriesValue(code, s[n]);
          return true;
        }
        l := GetJump(code, l);
        n := n + 1;
      }
      assert s[..n] == s;
      return false;
    }

    method PatchTestReg(node: nat, reg: nat) returns (b: bool)
      requires node < |code| && code[node].Jmp?
      modifies this`code
      ensures Size() <= old(Size())
      ensures b == CarriesValue(old(code), node)
      ensures code == if b then old(code)[node - 1 := PatchTest(old(code)[node - 1], reg)] else old(code)
    {
      var i := ControlAt(code, node);
      if !code[i].TestSet? {
        return false;
      }
      if reg != NO_REG && reg != code[i].b {
        code := code[i := TestSet(reg, code[i].b, code[i].cond)];
      } else {
        code := code[i := Test(code[i].b, code[i].cond)];
      }
      return true;
    }

    method RemoveValues(list: int, ghost s: seq<nat>)
      requires ListAt(code, list, s)
      modifies this`code
      ensures Size() <= old(Size())
      ensures code == ValuesRemoved(old(code), Elems(s))
      ensures ListAt(code, list, s)
    {
      var l := list;
      ghost var n := 0;
      NothingRemoved(code);
      hide ValuesRemoved;
      while l != NO_JUMP
        invariant 0 <= n <= |s| && l == (if n < |s| then s[n] else NO_JUMP)
        invariant code == ValuesRemoved(old(code), Elems(s[..n]))
        invariant ListAt(code, list, s)
        decreases |s| - n
      {
        assert s[..n + 1] == s[..n] + [s[n]];
        ghost var before := code;
        var _ := PatchTestReg(l, NO_REG);
        assert l !in s[..n] && s[n] in s;
        NextInList(before, list, s, n);
        RemovedOneMore(old(code), s[..n], l, before, code);
        ListAtSameJumps(before, code, list, s);
        l := GetJump(code, l);
        n := n + 1;
      }
      assert s[..n] == s;
    }

    /** Sends the jumps of a list that carry a value to `vtarget`, with the value in `reg`, and the
        others to `dtarget`. */
    method PatchListAux(list: int, vtarget: int, reg: nat, dtarget: int, ghost s: seq<nat>) returns (r: Result<()>)
      requires ListAt(code, list, s)
      modifies this`code
      ensures Size() <= old(Size())
      ensures r.Success? <==> forall j :: j in s ==> InReach(j, if CarriesValue(old(code), j) then vtarget else dtarget)
      ensures r.Success? ==> code == Patched(old(code), Elems(s), vtarget, reg, dtarget)
      ensures r.Failure? && -1 <= vtarget <= |old(code)| && -1 <= dtarget <= |old(code)| ==> AtLimit()
    {
      NothingPatched(code, vtarget, reg, dtarget);
      hide Patched;
      var l := list;
      ghost var n := 0;
      while l != NO_JUMP
        invariant 0 <= n <= |s| && l == (if n < |s| then s[n] else NO_JUMP)
        invariant code == Patched(old(code), Elems(s[..n]), vtarget, reg, dtarget)
        invariant |code| == |old(code)|
        invariant forall j :: j in s[..n] ==> InReach(j, if CarriesValue(old(code), j) then vtarget else dtarget)
        decreases |s| - n
      {
        assert s[..n + 1] == s[..n] + [s[n]];
        assert l !in s[..n] && s[n] in s;
        ghost var before := code;
        NotYetPatched(old(code), s[..n], l, vtarget, reg, dtarget);
        NextInList(old(code), list, s, n);
        var next := GetJump(code, l);
        var valued := PatchTestReg(l, reg);
        assert valued == CarriesValue(old(code), l);
        assert code[l] == old(code)[l];
        if valued {
          var _ :- FixJump(l, vtarget);
        } else {
          var _ :- FixJump(l, dtarget);
        }
        PatchedOneMore(old(code), s[..n], l, vtarget, reg, dtarget, before, code);
        l := next;
        n := n + 1;
      }
      assert s[..n] == s;
      return Success(());
    }

    /** Appends the list `l2` to `l1`; only the link at the end of `l1` changes. */
    method Concat(l1: int, l2: int, ghost s1: seq<nat>, ghost s2: seq<nat>) returns (r: Result<int>)
      requires ListAt(code, l1, s1) && ListAt(code, l2, s2)
      requires forall j :: j in s1 ==> j !in s2
      modifies this`code
      ensures Size() <= old(Size())
      ensures r.Failure? ==> AtLimit()
      ensures r.Success? ==> ListAt(code, r.value, s1 + s2)
      ensures r.Success? ==> |code| == |old(code)| && forall i :: 0 <= i < |code| ==>
                code[i] == old(code)[i] || (i in s1 && old(code)[i].Jmp? && code[i].Jmp?)
      ensures s1 == [] || s2 == [] ==> r.Success? && code == old(code)
    {
      if l2 == NO_JUMP {
        assert s1 + s2 == s1;
        return Success(l1);
      } else if l1 == NO_JUMP {
        assert s1 + s2 == s2;
        return Success(l2);
      } else {
        var list := l1;
        ghost var n := 0;
        var next := GetJump(code, list);
        while next != NO_JUMP
          invariant 0 <= n < |s1| && list == s1[n]
          invariant next == (if n + 1 < |s1| then s1[n + 1] else NO_JUMP)
          decreases |s1| - n
        {
          list := next;
          n := n + 1;
          next := GetJump(code, list);
        }
        var _ :- FixJump(list, l2);
        ConcatIsAppend(old(code), l1, l2, s1, s2, code);
        return Success(l1);
      }
    }

    // ---------------------------------------------------------------- emission

    method DischargeJpc() returns (r: Result<()>)
      requires ListAt(code, jpc, waiting)
      modifies this`code, this`jpc, this`waiting
      ensures Size() <= old(Size())
      ensures r.Failure? ==> AtLimit()
      ensures r.Success? ==> Now() == Discharge(old(Now())) && jpc == NO_JUMP && waiting == []
    {
      var _ :- PatchListAux(jpc, |code|, NO_REG, |code|, waiting);
      jpc := NO_JUMP;
      waiting := [];
      assert Elems(waiting) == {};
      return Success(());
    }

    /** `luaK_code`. */
    method Code(i: Instr) returns (r: Result<nat>)
      requires ListAt(code, jpc, waiting)
      modifies this`code, this`jpc, this`waiting
      ensures Size() <= old(Size()) + 1
      ensures r.Failure? ==> AtLimit()
      ensures r.Success? ==> Now() == Emit(old(Now()), i) && r.value == |old(code)|
      ensures r.Success? ==> jpc == NO_JUMP && waiting == []
    {
      var _ :- DischargeJpc();
      if |code| >= MAX_INT {
        return Failure("code size overflow");
      }
      code := code + [i];
      return Success(|code| - 1);
    }

    /** An unconditional jump, which keeps the jumps waiting for this position on hold with it. */
    method Jump() returns (r: Result<nat>)
      requires ListAt(code, jpc, waiting)
      modifies this`code, this`jpc, this`waiting
      ensures Size() <= old(Size()) + 1
      ensures r.Failure? ==> AtLimit()
      ensures r.Success? ==>
        && r.value == |old(code)| && |code| == |old(code)| + 1
        && code[..|old(code)|] == old(code) && code[r.value].Jmp?
        && ListAt(code, r.value, [r.value] + old(waiting))
        && jpc == NO_JUMP && waiting == []
      ensures r.Success? && old(waiting) == [] ==> code[r.value] == Jmp(NO_JUMP)
    {
      var saved := jpc;
      ghost var held := waiting;
      jpc := NO_JUMP;
      waiting := [];
      var j :- Code(Jmp(NO_JUMP));
      DischargeNothing(Gen(old(code), k, pend, {}, lastTarget));
      assert Gen(old(code), k, pend, {}, lastTarget) == Gen(old(code), k, pend, Elems([]), lastTarget);
      assert code == old(code) + [Jmp(NO_JUMP)];
      ListAtSameJumps(old(code), code, saved, held);
      SingletonList(code, j);
      var l :- Concat(j, saved, [j], held);
      assert l == j;
      assert code[..|old(code)|] == old(code);
      return Success(j);
    }

    method GetLabel() returns (pc: nat)
      modifies this`lastTarget
      ensures pc == |code| && lastTarget == |code|
    {
      lastTarget := |code|;
      return |code|;
    }

    /** Adds the list to the jumps waiting for the next position. */
    method PatchToHere(list: int, ghost s: seq<nat>) returns (r: Result<()>)
      requires ListAt(code, jpc, waiting) && ListAt(code, list, s)
      requires forall j :: j in s ==> j !in waiting
      modifies this`code, this`jpc, this`waiting, this`lastTarget, this`pend
      ensures Size() <= old(Size())
      ensures r.Failure? ==> AtLimit()
      ensures r.Success? ==>
        && waiting == old(waiting) + s && ListAt(code, jpc, waiting)
        && lastTarget == |code| && pend == old(pend) - Elems(s)
        && |code| == |old(code)|
        && (forall i :: 0 <= i < |code| ==>
              code[i] == old(code)[i] || (i in old(waiting) && old(code)[i].Jmp? && code[i].Jmp?))
      ensures r.Success? && (old(waiting) == [] || s == []) ==> code == old(code)
    {
      var _ := GetLabel();
      jpc :- Concat(jpc, list, waiting, s);
      waiting := waiting + s;
      pend := pend - Elems(s);
      return Success(());
    }

    /** `condjump`. */
    method CondJump(i: Instr) returns (r: Result<nat>)
      requires ListAt(code, jpc, waiting) && i.IsTest()
      modifies this`code, this`jpc, this`waiting, this`pend
      ensures Size() <= old(Size()) + 2
      ensures r.Failure? ==> AtLimit()
      ensures r.Success? ==> Now() == EmitTest(old(Now()), i) && r.value == |old(code)| + 1
      ensures r.Success? ==> pend == old(pend) + {r.value} && |code| == |old(code)| + 2
      ensures r.Success? ==> jpc == NO_JUMP && waiting == [] && ListAt(code, r.value, [r.value])
    {
      var _ :- Code(i);
      var j :- Jump();
      assert [j] + [] == [j];
      pend := pend + {j};
      assert code == Discharge(old(Now())).code + [i, Jmp(NO_JUMP)];
      return Success(j);
    }

    // ---------------------------------------------------------------- registers and constants

    method CheckStack(n: nat) returns (r: Result<()>)
      modifies this`maxStackSize
      ensures r.Success? <==> freeReg + n <= old(maxStackSize) || freeReg + n < MAXSTACK
      ensures r.Success? ==> maxStackSize == if freeReg + n > old(maxStackSize) then freeReg + n else old(maxStackSize)
    {
      var newStack := freeReg + n;
      if newStack > maxStackSize {
        if newStack >= MAXSTACK {
          return Failure("function or expression too complex");
        }
        maxStackSize := newStack;
      }
      return Success(());
    }

    method ReserveRegs(n: nat) returns (r: Result<()>)
      requires Valid()
      modifies this`maxStackSize, this`freeReg
      ensures r.Success? ==> Valid() && freeReg == old(freeReg) + n
      ensures r.Success? <==> old(freeReg) + n < MAXSTACK
      ensures r.Failure? ==> freeReg == old(freeReg) && (n == 1 ==> AtLimit())
    {
      var _ :- CheckStack(n);
      freeReg := freeReg + n;
      return Success(());
    }

    /** Registers are freed in the opposite order they were reserved. */
    method FreeRegister(reg: nat)
      requires reg >= nactvar && !IsK(reg) ==> reg + 1 == freeReg
      modifies this`freeReg
      ensures freeReg == if reg >= nactvar && !IsK(reg) then old(freeReg) - 1 else old(freeReg)
    {
      if !IsK(reg) && reg >= nactvar {
        freeReg := freeReg - 1;
        assert reg == freeReg;
      }
    }

    method FreeExp(e: ExpDesc)
      requires e.k.VNonReloc? && e.k.info >= nactvar && !IsK(e.k.info) ==> e.k.info + 1 == freeReg
      modifies this`freeReg
      ensures freeReg == if e.k.VNonReloc? && e.k.info >= nactvar && !IsK(e.k.info) then old(freeReg) - 1
        else old(freeReg)
    {
      if e.k.VNonReloc? {
        FreeRegister(e.k.info);
      }
    }

    /** Finds the constant, or adds it: no constant is entered twice. */
    method AddK(v: Value) returns (r: Result<nat>)
      requires Valid()
      modifies this`k, this`h
      ensures Size() <= old(Size()) + 1
      ensures r.Failure? ==> AtLimit()
      ensures r.Success? ==> old(k) <= k && r.value < |k| && k[r.value] == v
      ensures r.Success? ==> forall v :: v in h ==> h[v] < |k| && k[h[v]] == v
      ensures r.Success? ==> k == (if v in old(h) then old(k) else old(k) + [v])
      ensures r.Failure? ==> v !in old(h) && |old(k)| >= MAXARG_BX && k == old(k)
    {
      if v in h {
        return Success(h[v]);
      }
      if |k| >= MAXARG_BX {
        return Failure("constant table overflow");
      }
      h := h[v := |k|];
      k := k + [v];
      return Success(|k| - 1);
    }

    // ---------------------------------------------------------------- values

    /** The code computes the expression of `c`, as `v` says; `t` and `f` are the lists of its open
        jumps, and with those of older code they are all there are. */
    ghost predicate Holds(c: Context, v: View, lt: int, lf: int, t: seq<nat>, f: seq<nat>, w: nat)
      reads this
    {
      && Valid() && c.sem == sem && c.nactvar == nactvar
      && Compiled(c, Now(), v, t, f, w)
      && ListAt(code, lt, t) && ListAt(code, lf, f)
      && pend == c.start.pend + Elems(t) + Elems(f) + OwnJump(v)
    }

    /** The descriptor `e` stands for the expression of `c`. */
    ghost predicate Has(c: Context, e: ExpDesc, t: seq<nat>, f: seq<nat>, w: nat)
      reads this
    {
      && Holds(c, Kind(e.k), e.t, e.f, t, f, w)
      && (IsUnread(e.k) ==> t == [] && f == [])
    }

    /** A temporary is the only register in use above the base. */
    ghost predicate OneTemporary(c: Context, k: ExpKind)
      reads this
    {
      freeReg == c.base + if k.VNonReloc? && k.info >= nactvar then 1 else 0
    }

    method DischargeVars(ghost c: Context, e: ExpDesc, ghost t: seq<nat>, ghost f: seq<nat>)
        returns (r: Result<ExpDesc>)
      requires Has(c, e, t, f, NO_REG)
      modifies this`code, this`jpc, this`waiting
      ensures Size() <= old(Size()) + 1
      ensures r.Failure? ==> AtLimit()
      ensures r.Success? ==> Has(c, r.value, t, f, NO_REG) && r.value.t == e.t && r.value.f == e.f
      ensures r.Success? ==> r.value.k == match e.k
                case VLocal(i) => VNonReloc(i)
                case VUpval(_) => VRelocable(|old(code)|)
                case VGlobal(_) => VRelocable(|old(code)|)
                case _ => e.k
      ensures r.Success? && OneTemporary(c, e.k) ==> OneTemporary(c, r.value.k)
      ensures !e.k.VUpval? && !e.k.VGlobal? ==>
        r.Success? && Now() == old(Now()) && jpc == old(jpc) && waiting == old(waiting)
    {
      hide Compiled, WellFormed;
      RegisterInFrame(c, Now(), e.k, t, f, NO_REG);
      match e.k
      case VLocal(i) =>
        LocalIsRegister(c, Now(), i);
        return Success(e.(k := VNonReloc(i)));
      case VUpval(u) =>
        ComputedLater(c, Now(), Kind(e.k), GetUpval(0, u));
        var pc :- Code(GetUpval(0, u));
        FormOf(c, Now(), Kind(VRelocable(pc)), t, f, NO_REG);
        return Success(e.(k := VRelocable(pc)));
      case VGlobal(n) =>
        ComputedLater(c, Now(), Kind(e.k), GetGlobal(0, n));
        var pc :- Code(GetGlobal(0, n));
        FormOf(c, Now(), Kind(VRelocable(pc)), t, f, NO_REG);
        return Success(e.(k := VRelocable(pc)));
      case _ =>
        return Success(e);
    }

    /** `luaK_nil` for one register: at the start of a function the register is clean, and a LOADNIL
        just emitted is extended, unless this position is the target of a jump. */
    method NilTo(ghost c: Context, from: nat, ghost e: ExpDesc, ghost t: seq<nat>, ghost f: seq<nat>, ghost w: nat)
        returns (r: Result<()>)
      requires Has(c, e, t, f, NO_REG) && e.k.VNil? && Destination(c, from, w)
      modifies this`code, this`jpc, this`waiting
      ensures Size() <= old(Size()) + 1
      ensures r.Failure? ==> AtLimit()
      ensures r.Success? ==> Has(c, e.(k := VNonReloc(from)), t, f, w)
    {
      hide Compiled, WellFormed, ListAt, Emit;
      if |code| > lastTarget {
        if |code| == 0 {
          if from >= nactvar {
            CleanRegisterCompiled(c, Now(), t, f, from, w);
            return Success(());
          }
        } else {
          var previous := code[|code| - 1];
          if previous.LoadNil? && previous.a <= from <= previous.b + 1 {
            ghost var g := Now();
            var pto := if from > previous.b then from else previous.b;
            code := code[|code| - 1 := LoadNil(previous.a, pto)];
            MergeNil(c, g, Now(), t, f, from, w);
            OtherJumpsSame(g.code, code, e.t, t, waiting, jpc);
            OtherJumpsSame(g.code, code, e.f, f, waiting, jpc);
            return Success(());
          }
        }
      }
      LoadToRegister(c, Now(), VNil, t, f, from, w);
      EmissionKeepsLists(c, Now(), LoadNil(from, from), Kind(e.k), t, f, NO_REG);
      var _ :- Code(LoadNil(from, from));
      EmptyIsList(code);
      return Success(());
    }

    method Discharge2Reg(ghost c: Context, e: ExpDesc, reg: nat, ghost t: seq<nat>, ghost f: seq<nat>, ghost w: nat)
        returns (r: Result<ExpDesc>)
      requires Has(c, e, t, f, NO_REG) && Destination(c, reg, w)
      modifies this`code, this`jpc, this`waiting, this`k, this`h
      ensures Size() <= old(Size()) + 3
      ensures r.Failure? ==> AtLimit()
      ensures e.k.VJmp? ==> r.Success? && r.value == e && Now() == old(Now()) && Has(c, e, t, f, NO_REG)
      ensures !e.k.VJmp? && r.Success? ==> r.value == e.(k := VNonReloc(reg)) && Has(c, r.value, t, f, w)
    {
      hide Compiled, WellFormed;
      var d :- DischargeVars(c, e, t, f);
      match d.k {
        case VNil =>
          var _ :- NilTo(c, reg, d, t, f, w);
        case VFalse =>
          var _ :- Load(c, d, reg, t, f, w, LoadBool(reg, false, false));
        case VTrue =>
          var _ :- Load(c, d, reg, t, f, w, LoadBool(reg, true, false));
        case VK(i) =>
          var _ :- Load(c, d, reg, t, f, w, LoadK(reg, i));
        case VKNum(n) =>
          var i :- NumberK(c, d, t, f);
          var _ :- Load(c, d.(k := VK(i)), reg, t, f, w, LoadK(reg, i));
        case VRelocable(i) =>
          SetDestination(c, d, reg, t, f, w);
        case VNonReloc(i) =>
          if reg != i {
            var _ :- Load(c, d, reg, t, f, w, Move(reg, i));
          } else {
            SameRegister(c, Now(), reg, t, f, w);
          }
        case VJmp(_) =>
          return Success(d);
      }
      return Success(d.(k := VNonReloc(reg)));
    }

    /** `SETARG_A` on the instruction whose destination is still open. */
    method SetDestination(ghost c: Context, e: ExpDesc, reg: nat, ghost t: seq<nat>, ghost f: seq<nat>, ghost w: nat)
      requires Has(c, e, t, f, NO_REG) && Destination(c, reg, w) && e.k.VRelocable?
      modifies this`code
      ensures Size() <= old(Size())
      ensures Has(c, e.(k := VNonReloc(reg)), t, f, w)
    {
      hide Compiled, WellFormed;
      ghost var g := Now();
      var i := e.k.info;
      RelocateToRegister(c, g, i, t, f, reg, w);
      LastInstruction(c, g, i, t, f, NO_REG);
      code := code[i := code[i].WithA(reg)];
      FormOf(c, Now(), Kind(VNonReloc(reg)), t, f, w);
      OtherJumpsSame(g.code, code, e.t, t, waiting, jpc);
      OtherJumpsSame(g.code, code, e.f, f, waiting, jpc);
    }

    /** One instruction that loads the value. */
    method Load(ghost c: Context, e: ExpDesc, reg: nat, ghost t: seq<nat>, ghost f: seq<nat>, ghost w: nat, i: Instr)
        returns (r: Result<()>)
      requires Has(c, e, t, f, NO_REG) && Destination(c, reg, w)
      requires IsLoadable(e.k) && i == LoadInstr(e.k, reg)
      modifies this`code, this`jpc, this`waiting
      ensures Size() <= old(Size()) + 1
      ensures r.Failure? ==> AtLimit()
      ensures r.Success? ==> Has(c, e.(k := VNonReloc(reg)), t, f, w)
    {
      hide Compiled, WellFormed, Exec, Eval, ListAt, Emit;
      LoadToRegister(c, Now(), e.k, t, f, reg, w);
      EmissionKeepsLists(c, Now(), i, Kind(e.k), t, f, NO_REG);
      var _ :- Code(i);
      EmptyIsList(code);
      return Success(());
    }

    /** Enters the number of a VKNUM descriptor in the constant table. */
    method NumberK(ghost c: Context, e: ExpDesc, ghost t: seq<nat>, ghost f: seq<nat>) returns (r: Result<nat>)
      requires Has(c, e, t, f, NO_REG) && e.k.VKNum?
      modifies this`k, this`h
      ensures Size() <= old(Size()) + 1
      ensures r.Failure? ==> AtLimit()
      ensures r.Success? ==> Has(c, e.(k := VK(r.value)), t, f, NO_REG) && r.value <= |old(k)|
    {
      r := ConstantK(c, e, t, f, Num(e.k.nval));
    }

    method ConstantK(ghost c: Context, e: ExpDesc, ghost t: seq<nat>, ghost f: seq<nat>, v: Value)
        returns (r: Result<nat>)
      requires Has(c, e, t, f, NO_REG) && ConstantOf(e.k) == Some(v)
      modifies this`k, this`h
      ensures Size() <= old(Size()) + 1
      ensures r.Failure? ==> AtLimit()
      ensures r.Success? ==> Has(c, e.(k := VK(r.value)), t, f, NO_REG) && r.value <= |old(k)|
    {
      hide Compiled, WellFormed;
      ghost var g := Now();
      var i :- AddK(v);
      SameValueCompiled(c, g, k, e.k, VK(i), t, f, NO_REG);
      FormOf(c, Now(), Kind(VK(i)), t, f, NO_REG);
      return Success(i);
    }

    method CodeLabel(a: nat, v: bool, skip: bool) returns (r: Result<nat>)
      requires ListAt(code, jpc, waiting)
      modifies this`code, this`jpc, this`waiting, this`lastTarget
      ensures Size() <= old(Size()) + 1
      ensures r.Failure? ==> AtLimit()
      ensures r.Success? ==> r.value == |old(code)| && lastTarget == |old(code)| && waiting == [] && jpc == NO_JUMP
      ensures r.Success? && old(waiting) == [] ==> code == old(code) + [LoadBool(a, v, skip)]
    {
      var _ := GetLabel();
      r := Code(LoadBool(a, v, skip));
      DischargeNothing(Gen(old(code), k, pend, {}, lastTarget));
      assert old(waiting) == [] ==> Elems(old(waiting)) == {};
    }

    /** The two LOADBOOLs for jumps that bring no value, and a jump over them. */
    method BoolsAfterValue(reg: nat) returns (r: Result<(nat, nat)>, ghost link: int)
      requires Valid()
      modifies this`code, this`jpc, this`waiting, this`lastTarget, this`pend
      ensures Size() <= old(Size()) + 3
      ensures r.Failure? ==> AtLimit()
      ensures r.Success? ==> Now() == BoolsSkipped(old(Now()), reg, link) && ListAt(code, jpc, waiting)
      ensures r.Success? ==> r.value == (|old(code)| + 1, |old(code)| + 2)
    {
      hide WellFormed, ListAt;
      link := 0;
      ghost var m, held, g := |code|, waiting, Now();
      OpenJumpsInside(g);
      var fj :- Jump();
      link := code[fj].sbx;
      ghost var list := [fj] + held;
      ghost var code1 := code;
      EmptyIsList(code);
      var pf :- CodeLabel(reg, false, true);
      EmptyIsList(code);
      var pt :- CodeLabel(reg, true, false);
      EmptyIsList(code);
      ListAtPrefix(code1, code, fj, list);
      var _ :- PatchToHere(fj, list);
      assert waiting == list;
      BoolsSkippedIs(g, Now(), reg, link, held, list);
      return Success((pf, pt)), link;
    }

    /** The same after a comparison, which falls through when it is false. */
    method BoolsAfterJump(reg: nat) returns (r: Result<(nat, nat)>)
      requires Valid() && waiting == []
      modifies this`code, this`jpc, this`waiting, this`lastTarget
      ensures Size() <= old(Size()) + 2
      ensures r.Failure? ==> AtLimit()
      ensures r.Success? ==> Now() == BoolsReached(old(Now()), reg) && waiting == [] && jpc == NO_JUMP
      ensures r.Success? ==> r.value == (|old(code)|, |old(code)| + 1)
    {
      var pf :- CodeLabel(reg, false, true);
      var pt :- CodeLabel(reg, true, false);
      var _ := GetLabel();
      assert code == old(code) + [LoadBool(reg, false, true), LoadBool(reg, true, false)];
      return Success((pf, pt));
    }

    /** Patches one list of an expression whose value is in `reg` at the end of the code. */
    method PatchValues(ghost c: Context, lt: int, lf: int, reg: nat, d: int, v: bool, ghost t: seq<nat>,
        ghost f: seq<nat>, ghost w: nat)
      returns (r: Result<()>)
      requires Holds(c, Kind(VNonReloc(reg)), lt, lf, t, f, w) && Destination(c, reg, w)
      requires lastTarget == |code| && -1 <= d <= |code|
      requires forall j :: j in Picked(v, t, f) && !CarriesValue(code, j) ==> j < d && LoadsAtEnd(code, d, reg, v)
      modifies this`code, this`pend
      ensures Size() <= old(Size())
      ensures r.Failure? ==> AtLimit()
      ensures r.Success? ==> if v then Holds(c, Kind(VNonReloc(reg)), NO_JUMP, lf, [], f, w)
                                  else Holds(c, Kind(VNonReloc(reg)), lt, NO_JUMP, t, [], w)
      ensures r.Success? ==> lastTarget == |code|
      ensures r.Success? ==> OtherListAsBefore(old(code), code, Picked(!v, t, f))
    {
      hide Compiled, WellFormed, Destination, Patched, ListAt;
      ghost var g, s := Now(), Picked(v, t, f);
      var _ :- PatchListAux(if v then lt else lf, |code|, reg, d, s);
      pend := pend - Elems(s);
      ValuesPatched(c, g, Now(), lt, lf, jpc, waiting, reg, d, v, t, f, w);
      return Success(());
    }

    /** The jump of a comparison goes into the list of jumps taken when it is true. */
    method JumpToTrueList(ghost c: Context, e: ExpDesc, ghost t: seq<nat>, ghost f: seq<nat>) returns (r: Result<int>)
      requires Has(c, e, t, f, NO_REG) && e.k.VJmp?
      modifies this`code
      ensures Size() <= old(Size())
      ensures r.Failure? ==> AtLimit()
      ensures r.Success? ==> Holds(c, Kind(VFalse), r.value, e.f, t + [e.k.info], f, NO_REG)
      ensures r.Success? ==> waiting == [] && !CarriesValue(code, e.k.info) && r.value != e.f
    {
      hide Compiled, WellFormed, ListAt;
      ghost var g := Now();
      var i := e.k.info;
      ComparisonAtEnd(c, g, i, t, f);
      NoElems(waiting);
      JumpJoinsTrueList(c, g, i, t, f);
      var l :- Concat(e.t, i, t, [i]);
      OwnListsAre(c, g, Kind(VFalse), t + [i], f, NO_REG);
      assert i in t + [i];
      RelinkedLists(c, g, Now(), Kind(VFalse), t + [i], f, t, e.f, f);
      SameHeads(code, l, e.f, t + [i], f);
      return Success(l);
    }

    /** Puts the value into `reg`, resolving all jumps of the expression. */
    method Exp2Reg(ghost c: Context, e: ExpDesc, reg: nat, ghost t: seq<nat>, ghost f: seq<nat>, ghost w: nat)
        returns (r: Result<ExpDesc>)
      requires Has(c, e, t, f, NO_REG) && Destination(c, reg, w)
      modifies this`code, this`jpc, this`waiting, this`k, this`h, this`lastTarget, this`pend
      ensures Size() <= old(Size()) + 6
      ensures r.Failure? ==> AtLimit()
      ensures r.Success? ==> r.value == ExpDesc(VNonReloc(reg), NO_JUMP, NO_JUMP) && Has(c, r.value, [], [], w)
    {
      hide Compiled, WellFormed, Destination, ListAt;
      var d :- Discharge2Reg(c, e, reg, t, f, w);
      if d.k.VJmp? {
        var et :- JumpToTrueList(c, d, t, f);
        assert d.k.info in t + [d.k.info];
        var _ :- ResolveJumps(c, VFalse, reg, et, d.f, t + [d.k.info], f, w);
      } else if d.t != d.f {
        var _ :- ResolveJumps(c, VNonReloc(reg), reg, d.t, d.f, t, f, w);
      } else {
        EmptyLists(c, Now(), Kind(d.k), d.t, t, f, w);
      }
      return Success(ExpDesc(VNonReloc(reg), NO_JUMP, NO_JUMP));
    }

    /** The second half of `exp2reg`, when there are jumps. */
    method ResolveJumps(ghost c: Context, k: ExpKind, reg: nat, lt: int, lf: int, ghost t: seq<nat>, ghost f: seq<nat>,
        ghost w: nat)
      returns (r: Result<()>)
      requires k == VNonReloc(reg) || (k == VFalse && waiting == [] && exists j :: j in t && !CarriesValue(code, j))
      requires Destination(c, reg, w)
      requires Holds(c, Kind(k), lt, lf, t, f, if k.VFalse? then NO_REG else w)
      modifies this`code, this`jpc, this`waiting, this`lastTarget, this`pend
      ensures Size() <= old(Size()) + 3
      ensures r.Failure? ==> AtLimit()
      ensures r.Success? ==> Holds(c, Kind(VNonReloc(reg)), NO_JUMP, NO_JUMP, [], [], w)
    {
      hide Compiled, WellFormed, Destination, ListAt;
      var pf, pt := NO_JUMP, NO_JUMP;
      var needT := NeedValue(lt, t);
      var needF := NeedValue(lf, f);
      if needT || needF {
        var p :- LoadBools(c, k, reg, lt, lf, t, f, w);
        pf, pt := p.0, p.1;
      }
      LabelCompiled(c, Now(), Kind(VNonReloc(reg)), t, f, w);
      var final := GetLabel();
      FormOf(c, Now(), Kind(VNonReloc(reg)), t, f, w);
      ghost var before := code;
      var _ :- PatchValues(c, lt, lf, reg, pf, false, t, f, w);
      BoolsStay(before, code, pt, reg, t);
      var _ :- PatchValues(c, lt, NO_JUMP, reg, pt, true, t, [], w);
      return Success(());
    }

    /** The two LOADBOOLs, reached by the jumps that bring no value. */
    method LoadBools(ghost c: Context, k: ExpKind, reg: nat, lt: int, lf: int, ghost t: seq<nat>, ghost f: seq<nat>,
        ghost w: nat)
      returns (r: Result<(nat, nat)>)
      requires k == VNonReloc(reg) || (k == VFalse && waiting == [])
      requires Destination(c, reg, w)
      requires Holds(c, Kind(k), lt, lf, t, f, if k.VFalse? then NO_REG else w)
      modifies this`code, this`jpc, this`waiting, this`lastTarget, this`pend
      ensures Size() <= old(Size()) + 3
      ensures r.Failure? ==> AtLimit()
      ensures r.Success? ==> Holds(c, Kind(VNonReloc(reg)), lt, lf, t, f, w) && lastTarget == |code|
      ensures r.Success? ==> LoadsAtEnd(code, r.value.0, reg, false) && LoadsAtEnd(code, r.value.1, reg, true)
      ensures r.Success? ==> forall j :: j in t || j in f ==> j < r.value.0 < r.value.1
    {
      hide Compiled, WellFormed, Destination, ListAt;
      ghost var g := Now();
      OwnListsAre(c, g, Kind(k), t, f, if k.VFalse? then NO_REG else w);
      if k.VFalse? {
        BoolsReachedCompiled(c, g, t, f, reg, w);
        r := BoolsAfterJump(reg);
        EmptyIsList(code);
      } else {
        ghost var link;
        r, link := BoolsAfterValue(reg);
        if r.Success? {
          BoolsSkippedCompiled(c, g, t, f, reg, link, w);
        }
      }
      if r.Success? {
        FormOf(c, Now(), Kind(VNonReloc(reg)), t, f, w);
        ListAtPrefix(g.code, code, lt, t);
        ListAtPrefix(g.code, code, lf, f);
      }
    }

    method Discharge2AnyReg(ghost c: Context, e: ExpDesc, ghost t: seq<nat>, ghost f: seq<nat>)
        returns (r: Result<ExpDesc>)
      requires Has(c, e, t, f, NO_REG) && OneTemporary(c, e.k) && !e.k.VJmp? && !IsUnread(e.k)
      modifies this`code, this`jpc, this`waiting, this`k, this`h, this`freeReg, this`maxStackSize
      ensures Size() <= old(Size()) + 3 && freeReg <= c.base + 1
      ensures r.Failure? ==> AtLimit()
      ensures r.Success? ==> Has(c, r.value, t, f, NO_REG) && OneTemporary(c, r.value.k)
      ensures r.Success? ==> r.value.k.VNonReloc? && r.value.k.info < MAXSTACK && r.value.t == e.t && r.value.f == e.f
      ensures e.k.VNonReloc? ==> r == Success(e) && Now() == old(Now())
    {
      hide Compiled, WellFormed;
      RegisterInFrame(c, Now(), e.k, t, f, NO_REG);
      if !e.k.VNonReloc? {
        var _ :- ReserveRegs(1);
        r := Discharge2Reg(c, e, freeReg - 1, t, f, NO_REG);
      } else {
        return Success(e);
      }
    }

    method Exp2NextReg(ghost c: Context, e: ExpDesc, ghost t: seq<nat>, ghost f: seq<nat>) returns (r: Result<ExpDesc>)
      requires Has(c, e, t, f, NO_REG) && OneTemporary(c, e.k)
      modifies this
      ensures Size() <= old(Size()) + 7 && freeReg <= c.base + 1
      ensures r.Failure? ==> AtLimit()
      ensures r.Success? ==> r.value == ExpDesc(VNonReloc(c.base), NO_JUMP, NO_JUMP)
      ensures r.Success? ==> Has(c, r.value, [], [], NO_REG) && freeReg == c.base + 1
    {
      hide Compiled, WellFormed;
      var d :- DischargeVars(c, e, t, f);
      RegisterInFrame(c, Now(), d.k, t, f, NO_REG);
      FreeExp(d);
      assert freeReg == c.base;
      var _ :- ReserveRegs(1);
      r := Exp2Reg(c, d, freeReg - 1, t, f, NO_REG);
    }

    method Exp2AnyReg(ghost c: Context, e: ExpDesc, ghost t: seq<nat>, ghost f: seq<nat>) returns (r: Result<ExpDesc>)
      requires Has(c, e, t, f, NO_REG) && OneTemporary(c, e.k)
      modifies this
      ensures Size() <= old(Size()) + 8 && freeReg <= c.base + 1
      ensures r.Failure? ==> AtLimit()
      ensures r.Success? ==>
        r.value.k.VNonReloc? && r.value.k.info < MAXSTACK && r.value.t == NO_JUMP && r.value.f == NO_JUMP
      ensures r.Success? ==> Has(c, r.value, [], [], NO_REG) && OneTemporary(c, r.value.k)
    {
      hide Compiled, WellFormed;
      var d :- DischargeVars(c, e, t, f);
      RegisterInFrame(c, Now(), d.k, t, f, NO_REG);
      if d.k.VNonReloc? {
        SameHeads(code, d.t, d.f, t, f);
        if d.t == d.f {
          return Success(d);
        }
        if d.k.info >= nactvar {
          r := Exp2Reg(c, d, d.k.info, t, f, NO_REG);
          return;
        }
      }
      r := Exp2NextReg(c, d, t, f);
    }

    method Exp2Val(ghost c: Context, e: ExpDesc, ghost t: seq<nat>, ghost f: seq<nat>) returns (r: Result<ExpDesc>)
      requires Has(c, e, t, f, NO_REG) && OneTemporary(c, e.k)
      modifies this
      ensures Size() <= old(Size()) + 8 && freeReg <= c.base + 1
      ensures r.Failure? ==> AtLimit()
      ensures r.Success? ==> Has(c, r.value, [], [], NO_REG) && OneTemporary(c, r.value.k) && !IsUnread(r.value.k)
      ensures r.Success? ==> r.value.t == NO_JUMP && r.value.f == NO_JUMP
      ensures r.Success? && e.k.VKNum? && t == [] && f == [] ==> r.value == e
    {
      hide Compiled, WellFormed;
      RegisterInFrame(c, Now(), e.k, t, f, NO_REG);
      SameHeads(code, e.t, e.f, t, f);
      if e.t != e.f {
        r := Exp2AnyReg(c, e, t, f);
      } else {
        r := DischargeVars(c, e, t, f);
      }
    }

    /** An operand that is already a register or a constant with a small index. */
    static predicate IsSettled(e: ExpDesc) {
      FitsRK(e.k) && e.t == NO_JUMP && e.f == NO_JUMP
    }

    /** The operand as a register or, if its index fits, a constant. `exp2val` and the switch leave
        a settled operand alone. */
    method Exp2RK(ghost c: Context, e: ExpDesc, ghost t: seq<nat>, ghost f: seq<nat>)
        returns (r: Result<(ExpDesc, nat)>)
      requires IsSettled(e) || (Has(c, e, t, f, NO_REG) && OneTemporary(c, e.k))
      modifies this
      ensures Size() <= old(Size()) + 16 && freeReg <= if IsSettled(e) then old(freeReg) else c.base + 1
      ensures r.Failure? ==> AtLimit()
      ensures r.Success? ==> IsSettled(r.value.0) && r.value.1 == RKOf(r.value.0.k)
      ensures IsSettled(e) && r.Success? ==> r.value.0 == e && Now() == old(Now()) && freeReg == old(freeReg)
      ensures IsSettled(e) && old(Valid()) && r.Success? ==> Valid()
      ensures !IsSettled(e) && r.Success? ==> Has(c, r.value.0, [], [], NO_REG) && OneTemporary(c, r.value.0.k)
    {
      hide Compiled, WellFormed, ListAt, Exec, Eval;
      if IsSettled(e) {
        return Success((e, RKOf(e.k)));
      }
      var d :- Exp2Val(c, e, t, f);
      match d.k {
        case VKNum(_) =>
          if |k| <= MAXINDEXRK {
            var i :- NumberK(c, d, [], []);
            return Success((d.(k := VK(i)), RKAsK(i)));
          }
        case VTrue =>
          if |k| <= MAXINDEXRK {
            var i :- ConstantK(c, d, [], [], Bool(true));
            return Success((d.(k := VK(i)), RKAsK(i)));
          }
        case VFalse =>
          if |k| <= MAXINDEXRK {
            var i :- ConstantK(c, d, [], [], Bool(false));
            return Success((d.(k := VK(i)), RKAsK(i)));
          }
        case VNil =>
          if |k| <= MAXINDEXRK {
            var i :- ConstantK(c, d, [], [], Nil);
            return Success((d.(k := VK(i)), RKAsK(i)));
          }
        case VK(i) =>
          if i <= MAXINDEXRK {
            return Success((d, RKAsK(i)));
          }
        case _ =>
      }
      var a :- Exp2AnyReg(c, d, [], []);
      return Success((a, a.k.info));
    }

    // ---------------------------------------------------------------- tests

    /** Emits a jump taken when the value is false (`cond` false) or true (`cond` true); a negation
        just emitted is taken back. */
    method JumpOnCond(ghost c: Context, e: ExpDesc, cond: bool, ghost t: seq<nat>, ghost f: seq<nat>)
        returns (r: Result<nat>)
      requires Has(c, e, t, f, NO_REG) && OneTemporary(c, e.k) && !e.k.VJmp? && !IsUnread(e.k)
      modifies this
      ensures Size() <= old(Size()) + 5 && freeReg <= c.base + 1
      ensures r.Failure? ==> AtLimit()
      ensures r.Success? ==> Valid() && freeReg == c.base && TestedAt(c, Now(), cond, r.value, e.t, e.f, t, f)
    {
      hide Compiled, WellFormed, ListAt, TestedAt;
      RegisterInFrame(c, Now(), e.k, t, f, NO_REG);
      if e.k.VRelocable? {
        LastInstruction(c, Now(), e.k.info, t, f, NO_REG);
        var ie := code[e.k.info];
        if ie.Not? {
          r := ReplaceNot(c, e, cond, ie.b, t, f);
          return;
        }
      }
      var d :- Discharge2AnyReg(c, e, t, f);
      r := TestRegister(c, d, cond, t, f);
    }

    /** Tests a register, keeping its value for those who leave with it. */
    method TestRegister(ghost c: Context, d: ExpDesc, cond: bool, ghost t: seq<nat>, ghost f: seq<nat>)
        returns (r: Result<nat>)
      requires Has(c, d, t, f, NO_REG) && OneTemporary(c, d.k) && d.k.VNonReloc? && d.k.info < MAXSTACK
      modifies this`code, this`jpc, this`waiting, this`pend, this`freeReg
      ensures Size() <= old(Size()) + 2 && freeReg <= c.base + 1
      ensures r.Failure? ==> AtLimit()
      ensures r.Success? ==> Valid() && freeReg == c.base && TestedAt(c, Now(), cond, r.value, d.t, d.f, t, f)
    {
      hide Compiled, WellFormed, ListAt, EmitTest, TestedAt;
      RegisterInFrame(c, Now(), d.k, t, f, NO_REG);
      FreeExp(d);
      ghost var g := Now();
      RegisterTested(c, g, d.k.info, cond, d.t, d.f, t, f);
      r := CondJump(TestSet(NO_REG, d.k.info, cond));
    }

    /** The jump of a test joins the list of the jumps taken when the value is `cond`. */
    method TestAndJoin(ghost c: Context, e: ExpDesc, cond: bool, ghost t: seq<nat>, ghost f: seq<nat>)
      returns (r: Result<int>, ghost t': seq<nat>, ghost f': seq<nat>)
      requires Has(c, e, t, f, NO_REG) && OneTemporary(c, e.k) && !e.k.VJmp? && !IsUnread(e.k)
      modifies this
      ensures Size() <= old(Size()) + 5 && freeReg <= c.base + 1
      ensures r.Failure? ==> AtLimit()
      ensures r.Success? ==> freeReg == c.base
      ensures r.Success? && cond ==> Holds(c, Branch(false), r.value, e.f, t', f, NO_REG)
      ensures r.Success? && !cond ==> Holds(c, Branch(true), e.t, r.value, t, f', NO_REG)
    {
      hide Compiled, WellFormed, ListAt, TestedAt;
      t', f' := t, f;
      var pc :- JumpOnCond(c, e, cond, t, f);
      ghost var g := Now();
      ghost var s := if cond then t else f;
      TestedLists(c, g, cond, pc, e.t, e.f, t, f);
      var l :- Concat(if cond then e.t else e.f, pc, s, [pc]);
      JoinedList(c, g, Now(), cond, pc, e.t, e.f, t, f, jpc, waiting);
      return Success(l), TrueList(t, pc, cond), FalseList(f, pc, cond);
    }

    /** `fs->pc--`, and a test in place of the OP_NOT. */
    method ReplaceNot(ghost c: Context, e: ExpDesc, cond: bool, b: nat, ghost t: seq<nat>, ghost f: seq<nat>)
        returns (r: Result<nat>)
      requires Has(c, e, t, f, NO_REG) && OneTemporary(c, e.k)
      requires e.k.VRelocable? && e.k.info < |code| && code[e.k.info].Not? && b == code[e.k.info].b
      modifies this`code, this`jpc, this`waiting, this`pend
      ensures Size() <= old(Size()) + 1
      ensures r.Failure? ==> AtLimit()
      ensures r.Success? ==> Valid() && TestedAt(c, Now(), cond, r.value, e.t, e.f, t, f)
    {
      hide Compiled, WellFormed, ListAt, EmitTest, TestedAt;
      ghost var g, i := Now(), e.k.info;
      NotTested(c, g, i, cond, e.t, e.f, t, f, jpc, waiting);
      code := code[..|code| - 1];
      assert Now() == Before(g, Kind(VRelocable(i)));
      r := CondJump(Test(b, !cond));
    }

    method InvertJump(ghost c: Context, e: ExpDesc, ghost t: seq<nat>, ghost f: seq<nat>)
      requires Has(c, e, t, f, NO_REG) && e.k.VJmp? && 1 <= e.k.info < |code| && code[e.k.info - 1].Compare?
      modifies this`code
      ensures Size() <= old(Size())
      ensures code == Inverted(old(Now()), e.k.info).code
    {
      var pc := ControlAt(code, e.k.info);
      code := code[pc := Negated(code[pc])];
    }

    /** The jump of a comparison, inverted, goes into the list of jumps taken when it is false. */
    method JumpToFalseList(ghost c: Context, e: ExpDesc, ghost t: seq<nat>, ghost f: seq<nat>) returns (r: Result<int>)
      requires Has(c, e, t, f, NO_REG) && e.k.VJmp?
      modifies this`code
      ensures Size() <= old(Size())
      ensures r.Failure? ==> AtLimit()
      ensures r.Success? ==> Holds(c, Branch(true), e.t, r.value, t, f + [e.k.info], NO_REG)
    {
      hide Compiled, WellFormed, ListAt;
      ghost var g := Now();
      var i := e.k.info;
      ComparisonAtEnd(c, g, i, t, f);
      NoElems(waiting);
      JumpJoinsFalseList(c, g, i, t, f);
      InvertJump(c, e, t, f);
      ConstantGivesBranch(c, Now(), VTrue, t, f + [i], true);
      InvertedList(g, i, e.t, t);
      InvertedList(g, i, e.f, f);
      InvertedList(g, i, jpc, waiting);
      InvertedList(g, i, i, [i]);
      ghost var g1 := Now();
      var l :- Concat(e.f, i, f, [i]);
      OwnListsAre(c, g1, Branch(true), t, f + [i], NO_REG);
      assert i in f + [i];
      RelinkedLists(c, g1, Now(), Branch(true), t, f + [i], f, e.t, t);
      return Success(l);
    }

    /** `luaK_patchtohere` on the list that a test has decided. */
    method CloseList(ghost c: Context, b: bool, lt: int, lf: int, ghost t: seq<nat>, ghost f: seq<nat>)
        returns (r: Result<ExpDesc>)
      requires Holds(c, Branch(b), lt, lf, t, f, NO_REG)
      modifies this`code, this`jpc, this`waiting, this`lastTarget, this`pend
      ensures Size() <= old(Size())
      ensures r.Failure? ==> AtLimit()
      ensures r.Success? && b ==>
        r.value.t == NO_JUMP && r.value.f == lf && Holds(c, Branch(true), NO_JUMP, lf, [], f, NO_REG)
      ensures r.Success? && !b ==>
        r.value.f == NO_JUMP && r.value.t == lt && Holds(c, Branch(false), lt, NO_JUMP, t, [], NO_REG)
    {
      hide Compiled, WellFormed, ListAt, Exec, Eval, Controlled;
      ghost var g, s := Now(), if b then t else f;
      OwnListsAre(c, g, Branch(b), t, f, NO_REG);
      var _ :- PatchToHere(if b then lt else lf, s);
      ListClosed(c, g, Now(), b, t, f, waiting, s, if b then lf else lt);
      return Success(ExpDesc(VTrue, if b then NO_JUMP else lt, if b then lf else NO_JUMP));
    }

    /** Code that goes on only if the expression is true; `f` of the result leaves it if not. */
    method GoIfTrue(ghost c: Context, e: ExpDesc, ghost t: seq<nat>, ghost f: seq<nat>)
        returns (r: Result<ExpDesc>, ghost f': seq<nat>)
      requires Has(c, e, t, f, NO_REG) && OneTemporary(c, e.k)
      requires e.k.VK? ==> e.k.info < |k| && !IsFalse(k[e.k.info])
      modifies this
      ensures Size() <= old(Size()) + 6 && freeReg <= c.base + 1
      ensures r.Failure? ==> AtLimit()
      ensures r.Success? ==>
        r.value.t == NO_JUMP && Holds(c, Branch(true), NO_JUMP, r.value.f, [], f', NO_REG) && freeReg == c.base
    {
      hide Compiled, WellFormed, Exec, Eval;
      f' := f;
      var d :- DischargeVars(c, e, t, f);
      var lf := d.f;
      if d.k.VK? || d.k.VKNum? || d.k.VTrue? {
        ConstantGivesBranch(c, Now(), d.k, t, f, true);  // always true: no jump
      } else if d.k.VJmp? {
        lf :- JumpToFalseList(c, d, t, f);
        f' := f + [d.k.info];
      } else {
        ghost var t';
        lf, t', f' :- TestAndJoin(c, d, false, t, f);
      }
      r := CloseList(c, true, d.t, lf, t, f');
    }

    method GoIfFalse(ghost c: Context, e: ExpDesc, ghost t: seq<nat>, ghost f: seq<nat>)
        returns (r: Result<ExpDesc>, ghost t': seq<nat>)
      requires Has(c, e, t, f, NO_REG) && OneTemporary(c, e.k)
      modifies this
      ensures Size() <= old(Size()) + 6 && freeReg <= c.base + 1
      ensures r.Failure? ==> AtLimit()
      ensures r.Success? ==>
        r.value.f == NO_JUMP && Holds(c, Branch(false), r.value.t, NO_JUMP, t', [], NO_REG) && freeReg == c.base
    {
      hide Compiled, WellFormed, ListAt, Exec, Eval, InReach;
      t' := t;
      var d :- DischargeVars(c, e, t, f);
      var lt := d.t;
      if d.k.VNil? || d.k.VFalse? {
        ConstantGivesBranch(c, Now(), d.k, t, f, false);  // always false: no jump
      } else if d.k.VJmp? {
        lt :- JumpToTrueList(c, d, t, f);
        t' := t + [d.k.info];
        ConstantGivesBranch(c, Now(), VFalse, t', f, false);
      } else {
        ghost var f';
        lt, t', f' :- TestAndJoin(c, d, true, t, f);
      }
      r := CloseList(c, false, lt, d.f, t', f);
    }

    // ---------------------------------------------------------------- operators

    /** A constant descriptor of an expression: strings are true, and numbers are not NaN. */
    ghost predicate IsProper(k: ExpKind)
      reads this
    {
      && (k.VK? ==> k.info < |this.k| && !IsFalse(this.k[k.info]))
      && (k.VKNum? ==> !sem.isNaN(k.nval))
    }

    /** The code of a negation, but for the values that its jumps still carry. */
    ghost predicate NegatedButForValues(c: Context, e: ExpDesc, t: seq<nat>, f: seq<nat>)
      reads this
    {
      && Valid() && c.sem == sem && c.nactvar == nactvar
      && Compiled(Negation(c), WithoutValues(Now(), t, f), Kind(e.k), f, t, NO_REG)
      && ListAt(code, e.t, t) && ListAt(code, e.f, f)
      && pend == c.start.pend + Elems(t) + Elems(f) + OwnJump(Kind(e.k))
      && OneTemporary(c, e.k) && !IsUnread(e.k) && !e.k.VK? && !e.k.VKNum?
    }

    method CodeNot(ghost c: Context, e: ExpDesc, ghost t: seq<nat>, ghost f: seq<nat>) returns (r: Result<ExpDesc>)
      requires Has(c, e, t, f, NO_REG) && OneTemporary(c, e.k) && IsProper(e.k)
      modifies this
      ensures Size() <= old(Size()) + 5 && freeReg <= c.base + 1
      ensures r.Failure? ==> AtLimit()
      ensures r.Success? ==> Has(Negation(c), r.value, f, t, NO_REG) && OneTemporary(Negation(c), r.value.k)
      ensures r.Success? ==> IsProper(r.value.k)
    {
      hide Compiled, WellFormed, ListAt, WithoutValues, Exec, Eval;
      var d :- NegateValue(c, e, t, f);
      RemoveAllValues(d.t, d.f, t, f);
      FormOf(Negation(c), Now(), Kind(d.k), f, t, NO_REG);
      return Success(ExpDesc(d.k, d.f, d.t));
    }

    /** The value is negated, but not those that its jumps carry. */
    method NegateValue(ghost c: Context, e: ExpDesc, ghost t: seq<nat>, ghost f: seq<nat>) returns (r: Result<ExpDesc>)
      requires Has(c, e, t, f, NO_REG) && OneTemporary(c, e.k) && IsProper(e.k)
      modifies this
      ensures Size() <= old(Size()) + 5 && freeReg <= c.base + 1
      ensures r.Failure? ==> AtLimit()
      ensures r.Success? ==> NegatedButForValues(c, r.value, t, f)
    {
      hide Compiled, WellFormed, ListAt, WithoutValues, Exec, Eval, NegatedButForValues;
      var d :- DischargeVars(c, e, t, f);
      if d.k.VNil? || d.k.VFalse? {
        d := NotConstant(c, d, VTrue, t, f);
      } else if d.k.VK? || d.k.VKNum? || d.k.VTrue? {
        d := NotConstant(c, d, VFalse, t, f);
      } else if d.k.VJmp? {
        NotToJump(c, d, t, f);
      } else {
        d :- NotToRegister(c, d, t, f);
      }
      return Success(d);
    }

    method NotConstant(ghost c: Context, d: ExpDesc, k': ExpKind, ghost t: seq<nat>, ghost f: seq<nat>)
        returns (d': ExpDesc)
      requires Has(c, d, t, f, NO_REG) && OneTemporary(c, d.k) && !d.k.VJmp? && !d.k.VNonReloc?
      requires (k' == VTrue && TruthKnown(d.k, Now(), false)) || (k' == VFalse && TruthKnown(d.k, Now(), true))
      ensures d' == d.(k := k') && NegatedButForValues(c, d', t, f)
    {
      hide Compiled, WellFormed, ListAt;
      NotOfConstant(c, Now(), d.k, k', t, f);
      return d.(k := k');
    }

    method NotToJump(ghost c: Context, d: ExpDesc, ghost t: seq<nat>, ghost f: seq<nat>)
      requires Has(c, d, t, f, NO_REG) && OneTemporary(c, d.k) && d.k.VJmp?
      modifies this`code
      ensures Size() <= old(Size())
      ensures NegatedButForValues(c, d, t, f)
    {
      hide Compiled, WellFormed, ListAt;
      ghost var g := Now();
      ComparisonAtEnd(c, g, d.k.info, t, f);
      NotOfComparison(c, g, d.k.info, t, f);
      InvertedIsWellFormed(c, g, d.k.info, t, f);
      InvertJump(c, d, t, f);
      InvertedList(g, d.k.info, d.t, t);
      InvertedList(g, d.k.info, d.f, f);
      InvertedList(g, d.k.info, jpc, waiting);
    }

    method RemoveAllValues(lt: int, lf: int, ghost t: seq<nat>, ghost f: seq<nat>)
      requires ListAt(code, lt, t) && ListAt(code, lf, f) && ListAt(code, jpc, waiting)
      modifies this`code
      ensures Size() <= old(Size())
      ensures Now() == WithoutValues(old(Now()), t, f)
      ensures ListAt(code, lt, t) && ListAt(code, lf, f) && ListAt(code, jpc, waiting)
    {
      hide ListAt;
      ValuesRemovedLists(code, Elems(t));
      RemoveValues(lt, t);
      ValuesRemovedLists(code, Elems(f));
      RemoveValues(lf, f);
      ValuesRemovedTwice(old(code), t, f);
    }

    /** OP_NOT on a register; its lists still carry the values before negation. */
    method NotToRegister(ghost c: Context, e: ExpDesc, ghost t: seq<nat>, ghost f: seq<nat>)
        returns (r: Result<ExpDesc>)
      requires Has(c, e, t, f, NO_REG) && OneTemporary(c, e.k) && !e.k.VJmp? && !IsUnread(e.k)
      modifies this
      ensures Size() <= old(Size()) + 4 && freeReg <= c.base + 1
      ensures r.Failure? ==> AtLimit()
      ensures r.Success? ==> NegatedButForValues(c, r.value, t, f)
    {
      hide Compiled, WellFormed, ListAt, Exec, Eval;
      var d :- Discharge2AnyReg(c, e, t, f);
      RegisterInFrame(c, Now(), d.k, t, f, NO_REG);
      FreeExp(d);
      r := EmitNot(c, d, t, f);
    }

    method EmitNot(ghost c: Context, d: ExpDesc, ghost t: seq<nat>, ghost f: seq<nat>) returns (r: Result<ExpDesc>)
      requires Has(c, d, t, f, NO_REG) && d.k.VNonReloc? && d.k.info < MAXSTACK && freeReg == c.base
      modifies this`code, this`jpc, this`waiting
      ensures Size() <= old(Size()) + 1
      ensures r.Failure? ==> AtLimit()
      ensures r.Success? ==> NegatedButForValues(c, r.value, t, f)
    {
      hide Compiled, WellFormed, ListAt, Exec, Eval;
      NotOfRegister(c, Now(), d.k.info, t, f);
      EmissionKeepsLists(c, Now(), Instr.Not(0, d.k.info), Kind(d.k), t, f, NO_REG);
      var pc :- Code(Instr.Not(0, d.k.info));
      EmptyIsList(code);
      return Success(ExpDesc(VRelocable(pc), d.t, d.f));
    }

    /** The state of an operand before the operator and its second operand have been compiled. */
    ghost predicate SecondBegins(c1: Context, c2: Context, c: Context, op: BinOp, e1: ExpDesc, l1: seq<nat>,
        e2: ExpDesc, t: seq<nat>, f: seq<nat>)
      reads this
    {
      && Follows(c1, c2, c) && c.x == Binary(op, c1.x, c2.x) && c.sem.Valid()
      && FirstDone(c1, c2.start, op, e1, l1) && c2.base == BaseAfter(c1, op, e1)
      && Has(c2, e2, t, f, NO_REG) && OneTemporary(c2, e2.k) && IsProper(e2.k)
      && (IsStrict(op) && e1.k.VKNum? ==> !sem.isNaN(e1.k.nval))
      && InScope(c.sem, c.x, c.nactvar)
    }

    method CodeArith(ghost c1: Context, ghost c2: Context, ghost c: Context, op: ArithOp, e1: ExpDesc, e2: ExpDesc,
        ghost t: seq<nat>, ghost f: seq<nat>) returns (r: Result<ExpDesc>)
      requires SecondBegins(c1, c2, c, OpArith(op), e1, [], e2, t, f)
      modifies this
      ensures Size() <= old(Size()) + 33 && freeReg <= c2.base + 2
      ensures r.Failure? ==> AtLimit()
      ensures r.Success? ==> Has(c, r.value, [], [], NO_REG) && OneTemporary(c, r.value.k) && IsProper(r.value.k)
    {
      hide Compiled, WellFormed, ListAt, FirstDone, Follows, BaseAfter, Exec, Eval;
      FirstOperandForm(c1, c2, c, OpArith(op), e1, []);
      var folded := ConstFolding(sem, Bin(op), e1, e2);
      if folded.Some? {
        NumeralHasNoLists(code, e2, t, f);
        PairCompiled(c1, c2, c, e1.k, Now(), e2.k);
        FoldedCompiled(c, Now(), Operands(e1.k, e2.k), folded.value);
        return Success(ExpDesc(VKNum(folded.value), NO_JUMP, NO_JUMP));
      }
      r := EmitArith(c1, c2, c, op, e1, e2, t, f);
    }

    /** The operation on operands that are not folded. */
    method EmitArith(ghost c1: Context, ghost c2: Context, ghost c: Context, op: ArithOp, e1: ExpDesc, e2: ExpDesc,
        ghost t: seq<nat>, ghost f: seq<nat>) returns (r: Result<ExpDesc>)
      requires SecondBegins(c1, c2, c, OpArith(op), e1, [], e2, t, f)
      modifies this
      ensures Size() <= old(Size()) + 33 && freeReg <= c2.base + 2
      ensures r.Failure? ==> AtLimit()
      ensures r.Success? ==> Has(c, r.value, [], [], NO_REG) && OneTemporary(c, r.value.k) && IsProper(r.value.k)
    {
      hide Compiled, WellFormed, ListAt, FirstDone, Follows, BaseAfter, Exec, Eval;
      FirstOperandForm(c1, c2, c, OpArith(op), e1, []);
      var p2 :- SecondOperandRK(c2, e2, t, f);
      PairCompiled(c1, c2, c, e1.k, Now(), p2.0.k);
      RegisterInFrame(c2, Now(), p2.0.k, [], [], NO_REG);
      var p1 :- FirstOperandRK(c, e1, p2.0);
      r := EmitOnOperands(c, op, p1.0, p2.0, p1.1, p2.1);
    }

    method EmitOnOperands(ghost c: Context, op: ArithOp, e1: ExpDesc, e2: ExpDesc, o1: nat, o2: nat)
        returns (r: Result<ExpDesc>)
      requires IsSettled(e1) && IsSettled(e2) && o1 == RKOf(e1.k) && o2 == RKOf(e2.k) && nactvar <= c.base
      requires StackedRegisters(c.base, e1.k, e2.k) && Valid() && c.sem == sem && c.nactvar == nactvar
      requires Compiled(c, Now(), Operands(e1.k, e2.k), [], [], NO_REG) && pend == c.start.pend
      requires c.x.Binary? && c.x.bop == OpArith(op)
      modifies this`code, this`jpc, this`waiting, this`freeReg
      ensures Size() <= old(Size()) + 1 && freeReg <= c.base + 1
      ensures r.Failure? ==> AtLimit()
      ensures r.Success? ==> Has(c, r.value, [], [], NO_REG) && OneTemporary(c, r.value.k) && IsProper(r.value.k)
    {
      hide Compiled, WellFormed, ListAt, Exec, Eval;
      FreeBoth(c, e1, e2, o1, o2);
      r := EmitOperation(c, Operands(e1.k, e2.k), Instr.ArithOp(op, 0, o1, o2));
    }

    /** The first operand is in the register before those of the second: if that is a concatenation, its
        instruction takes in one more register, and otherwise the second operand goes to the next register. */
    method CodeConcat(ghost c1: Context, ghost c2: Context, ghost c: Context, e1: ExpDesc, e2: ExpDesc,
        ghost t: seq<nat>, ghost f: seq<nat>) returns (r: Result<ExpDesc>)
      requires SecondBegins(c1, c2, c, BinOp.Concat, e1, [], e2, t, f)
      modifies this
      ensures Size() <= old(Size()) + 16 && freeReg <= c2.base + 2
      ensures r.Failure? ==> AtLimit()
      ensures r.Success? ==> Has(c, r.value, [], [], NO_REG) && OneTemporary(c, r.value.k) && IsProper(r.value.k)
    {
      hide Compiled, WellFormed, ListAt, FirstDone, Follows, BaseAfter, Exec, Eval;
      FirstOperandForm(c1, c2, c, BinOp.Concat, e1, []);
      var d :- Exp2Val(c2, e2, t, f);
      if d.k.VRelocable? {
        LastInstruction(c2, Now(), d.k.info, [], [], NO_REG);
        if code[d.k.info].Concat? {
          r := MergeConcat(c1, c2, c, e1, d);
          return;
        }
      }
      r := EmitConcat(c1, c2, c, e1, d);
    }

    method EmitConcat(ghost c1: Context, ghost c2: Context, ghost c: Context, e1: ExpDesc, e2: ExpDesc)
        returns (r: Result<ExpDesc>)
      requires Follows(c1, c2, c) && c2.base == c.base + 1 && c.x == Binary(BinOp.Concat, c1.x, c2.x)
      requires InScope(c.sem, c.x, c.nactvar) && e1.k == VNonReloc(c.base) && IsSettled(e1) && c.nactvar <= c.base
      requires Compiled(c1, c2.start, Kind(e1.k), [], [], NO_REG) && c2.start.pend == c.start.pend
      requires Has(c2, e2, [], [], NO_REG) && OneTemporary(c2, e2.k)
      modifies this
      ensures Size() <= old(Size()) + 8 && freeReg <= c2.base + 2
      ensures r.Failure? ==> AtLimit()
      ensures r.Success? ==> Has(c, r.value, [], [], NO_REG) && OneTemporary(c, r.value.k) && IsProper(r.value.k)
    {
      hide Compiled, WellFormed, ListAt, FirstDone, Exec, Eval;
      var d :- Exp2NextReg(c2, e2, [], []);
      PairCompiled(c1, c2, c, e1.k, Now(), d.k);
      FreeBoth(c, e1, d, e1.k.info, d.k.info);
      r := EmitOperation(c, Operands(e1.k, d.k), Instr.Concat(0, e1.k.info, d.k.info));
    }

    method MergeConcat(ghost c1: Context, ghost c2: Context, ghost c: Context, e1: ExpDesc, d: ExpDesc)
        returns (r: Result<ExpDesc>)
      requires Follows(c1, c2, c) && c2.base == c.base + 1 && c.x == Binary(BinOp.Concat, c1.x, c2.x)
      requires InScope(c.sem, c.x, c.nactvar) && e1.k == VNonReloc(c.base) && c.nactvar <= c.base < NO_REG
      requires Compiled(c1, c2.start, Kind(e1.k), [], [], NO_REG) && c2.start.pend == c.start.pend
      requires Has(c2, d, [], [], NO_REG) && OneTemporary(c2, d.k) && d.t == NO_JUMP && d.f == NO_JUMP
      requires d.k.VRelocable? && d.k.info < |code| && code[d.k.info].Concat?
      modifies this`code, this`freeReg
      ensures Size() <= old(Size())
      ensures r.Success? && Has(c, r.value, [], [], NO_REG) && OneTemporary(c, r.value.k) && IsProper(r.value.k)
    {
      hide Compiled, WellFormed, Exec, Eval;
      var i := d.k.info;
      MergedCompiled(c1, c2, c, Now(), i);
      LastInstruction(c2, Now(), i, [], [], NO_REG);
      NoElems(waiting);
      FreeExp(e1);
      code := code[i := Instr.Concat(code[i].a, e1.k.info, code[i].c)];
      FormOf(c, Now(), Kind(d.k), [], [], NO_REG);
      EmptyIsList(code);
      return Success(d);
    }

    /** An instruction whose destination is left open. */
    method EmitOperation(ghost c: Context, ghost v: View, i: Instr) returns (r: Result<ExpDesc>)
      requires Valid() && c.sem == sem && c.nactvar == nactvar && pend == c.start.pend && freeReg == c.base
      requires Compiled(c, Now(), v, [], [], NO_REG) && Feeds(c, Now(), v, i) && Before(Now(), v) == Now()
      modifies this`code, this`jpc, this`waiting
      ensures Size() <= old(Size()) + 1
      ensures r.Failure? ==> AtLimit()
      ensures r.Success? ==> Has(c, r.value, [], [], NO_REG) && OneTemporary(c, r.value.k) && r.value.k.VRelocable?
    {
      hide Compiled, WellFormed, ListAt, Feeds, Exec, Eval;
      ComputedLater(c, Now(), v, i);
      var pc :- Code(i);
      FormOf(c, Now(), Kind(VRelocable(pc)), [], [], NO_REG);
      EmptyIsList(code);
      return Success(ExpDesc(VRelocable(pc), NO_JUMP, NO_JUMP));
    }

    method SecondOperandRK(ghost c2: Context, e2: ExpDesc, ghost t: seq<nat>, ghost f: seq<nat>)
        returns (r: Result<(ExpDesc, nat)>)
      requires Has(c2, e2, t, f, NO_REG) && OneTemporary(c2, e2.k)
      modifies this
      ensures Size() <= old(Size()) + 16 && freeReg <= c2.base + 1
      ensures r.Failure? ==> AtLimit()
      ensures r.Success? ==> IsSettled(r.value.0) && r.value.1 == RKOf(r.value.0.k)
      ensures r.Success? ==> Has(c2, r.value.0, [], [], NO_REG) && OneTemporary(c2, r.value.0.k)
    {
      hide Compiled, WellFormed, Exec, Eval;
      RegisterInFrame(c2, Now(), e2.k, t, f, NO_REG);
      SameHeads(code, e2.t, e2.f, t, f);
      r := Exp2RK(c2, e2, t, f);
    }

    /** A first operand that is still a number becomes a constant or, if the table is large, takes a
        register above the one of the second operand. */
    method FirstOperandRK(ghost c: Context, e1: ExpDesc, ghost e2: ExpDesc) returns (r: Result<(ExpDesc, nat)>)
      requires Valid() && c.sem == sem && c.nactvar == nactvar &&
        Compiled(c, Now(), Operands(e1.k, e2.k), [], [], NO_REG)
      requires IsSettled(e2) && (IsSettled(e1) || (IsNumeral(e1) && !sem.isNaN(e1.k.nval)))
      requires pend == c.start.pend && (e2.k.VNonReloc? ==> e2.k.info < freeReg) && c.base <= freeReg
      modifies this
      ensures Size() <= old(Size()) + 16 && freeReg <= old(freeReg) + 1
      ensures r.Failure? ==> AtLimit()
      ensures r.Success? ==> IsSettled(r.value.0) && r.value.1 == RKOf(r.value.0.k) && Valid() && pend == c.start.pend
      ensures r.Success? ==> Compiled(c, Now(), Operands(r.value.0.k, e2.k), [], [], NO_REG)
      ensures r.Success? && IsSettled(e1) ==> r.value.0 == e1 && freeReg == old(freeReg)
      ensures r.Success? && !IsSettled(e1) ==>
        (r.value.0.k.VNonReloc? ==> r.value.0.k.info < nactvar || r.value.0.k.info == old(freeReg))
      ensures r.Success? && !IsSettled(e1) ==>
        freeReg == old(freeReg) + if r.value.0.k.VNonReloc? && r.value.0.k.info >= nactvar then 1 else 0
    {
      hide Compiled, WellFormed, Exec, Eval;
      if IsSettled(e1) {
        r := Exp2RK(c, e1, [], []);
      } else {
        ghost var c3 := Context(sem, nactvar, Now(), NumLit(e1.k.nval), freeReg);
        NumeralAgain(c, Now(), Operands(e1.k, e2.k), c3, e1.k);
        r := Exp2RK(c3, e1, [], []);
        if r.Success? {
          LaterOperandCompiled(c, c3, e1.k, e2.k, r.value.0.k, Now());
          RegisterInFrame(c3, Now(), r.value.0.k, [], [], NO_REG);
        }
      }
    }

    /** Temporaries are released in the opposite order they were reserved: the test on the operands
        finds out which one came last. */
    method FreeBoth(ghost c: Context, e1: ExpDesc, e2: ExpDesc, o1: nat, o2: nat)
      requires IsSettled(e1) && IsSettled(e2) && o1 == RKOf(e1.k) && o2 == RKOf(e2.k) && nactvar <= c.base
      requires StackedRegisters(c.base, e1.k, e2.k)
      requires Valid()
      modifies this`freeReg
      ensures freeReg == c.base && Valid()
    {
      if o1 > o2 {
        FreeExp(e1);
        FreeExp(e2);
      } else {
        FreeExp(e2);
        FreeExp(e1);
      }
    }

    /** The temporaries among two operands are the registers in use from `base` on, in either order. */
    ghost predicate StackedRegisters(base: nat, k1: ExpKind, k2: ExpKind)
      reads this
    {
      var t1, t2 := k1.VNonReloc? && k1.info >= nactvar, k2.VNonReloc? && k2.info >= nactvar;
      && freeReg == base + (if t1 then 1 else 0) + (if t2 then 1 else 0)
      && (t1 && !t2 ==> k1.info == base)
      && (t2 && !t1 ==> k2.info == base)
      && (t1 && t2 ==> (k1.info == base && k2.info == base + 1) || (k2.info == base && k1.info == base + 1))
    }

    /** `codearith` with one operand. */
    method CodeUnary(ghost c1: Context, ghost c: Context, op: UnOp, e: ExpDesc) returns (r: Result<ExpDesc>)
      requires c == c1.(x := Unary(op, c1.x)) && !op.Not? && c.sem.Valid()
      requires Has(c1, e, [], [], NO_REG) && OneTemporary(c1, e.k) && IsProper(e.k)
      requires e.t == NO_JUMP && e.f == NO_JUMP
      requires (e.k.VNonReloc? && e.k.info < MAXSTACK) || (op.Minus? && e.k.VKNum?)
      modifies this
      ensures Size() <= old(Size()) + 17 && freeReg <= c1.base + 1
      ensures r.Failure? ==> AtLimit()
      ensures r.Success? ==> Has(c, r.value, [], [], NO_REG) && OneTemporary(c, r.value.k) && IsProper(r.value.k)
    {
      hide Compiled, WellFormed, ListAt;
      OperandCompiled(c1, c, Now(), e.k);
      RegisterInFrame(c1, Now(), e.k, [], [], NO_REG);
      var zero := ExpDesc(VKNum(0.0), NO_JUMP, NO_JUMP);
      var folded := ConstFolding(sem, if op.Minus? then Neg else Length, e, zero);
      if folded.Some? {
        FoldedCompiled(c, Now(), Operand(e.k), folded.value);
        return Success(ExpDesc(VKNum(folded.value), NO_JUMP, NO_JUMP));
      }
      var p :- Exp2RK(c1, e, [], []);
      FreeExp(p.0);
      var i := if op.Minus? then Unm(0, p.1) else Instr.Len(0, p.1);
      r := EmitOperation(c, Operand(e.k), i);
    }

    method CodeComp(ghost c1: Context, ghost c2: Context, ghost c: Context, bop: BinOp, op: CmpOp, cond: bool,
        e1: ExpDesc, e2: ExpDesc, ghost t: seq<nat>, ghost f: seq<nat>) returns (r: Result<ExpDesc>)
      requires SecondBegins(c1, c2, c, bop, e1, [], e2, t, f)
      requires (op, cond) == match bop
        case Eq => (CmpEq, true)
        case Ne => (CmpEq, false)
        case Lt => (CmpLt, true)
        case Le => (CmpLe, true)
        case Gt => (CmpLt, false)
        case Ge => (CmpLe, false)
        case _ => (op, !cond)
      modifies this
      ensures Size() <= old(Size()) + 34 && freeReg <= c2.base + 2
      ensures r.Failure? ==> AtLimit()
      ensures r.Success? ==> Has(c, r.value, [], [], NO_REG) && OneTemporary(c, r.value.k) && IsProper(r.value.k)
    {
      hide Compiled, WellFormed, ListAt, FirstDone, Follows, BaseAfter, Decides, Exec, Eval;
      FirstOperandForm(c1, c2, c, bop, e1, []);
      var p1 :- Exp2RK(c1, e1, [], []);
      var p2 :- SecondOperandRK(c2, e2, t, f);
      PairCompiled(c1, c2, c, e1.k, Now(), p2.0.k);
      RegisterInFrame(c2, Now(), p2.0.k, [], [], NO_REG);
      FreeExp(p2.0);
      FreeExp(p1.0);
      r := CompareOperands(c, bop, op, cond, e1, p2.0, p1.1, p2.1);
    }

    /** `>` and `>=` exchange their operands. */
    method CompareOperands(ghost c: Context, ghost bop: BinOp, op: CmpOp, cond: bool, ghost e1: ExpDesc,
        ghost e2: ExpDesc, o1: nat, o2: nat) returns (r: Result<ExpDesc>)
      requires Valid() && c.sem == sem && c.nactvar == nactvar && pend == c.start.pend && freeReg == c.base
      requires FitsRK(e1.k) && FitsRK(e2.k) && o1 == RKOf(e1.k) && o2 == RKOf(e2.k)
      requires Compiled(c, Now(), Operands(e1.k, e2.k), [], [], NO_REG) && c.x.Binary? && c.x.bop == bop
      requires (op, cond) == match bop
        case Eq => (CmpEq, true)
        case Ne => (CmpEq, false)
        case Lt => (CmpLt, true)
        case Le => (CmpLe, true)
        case Gt => (CmpLt, false)
        case Ge => (CmpLe, false)
        case _ => (op, !cond)
      modifies this`code, this`jpc, this`waiting, this`pend
      ensures Size() <= old(Size()) + 2
      ensures r.Failure? ==> AtLimit()
      ensures r.Success? ==> Has(c, r.value, [], [], NO_REG) && OneTemporary(c, r.value.k) && r.value.k.VJmp?
    {
      hide Compiled, WellFormed, ListAt, Decides, Exec, Eval;
      ComparisonDecides(c, e1.k, e2.k, bop, op, cond);
      if !cond && !op.CmpEq? {
        r := EmitComparison(c, Operands(e1.k, e2.k), Compare(op, true, o2, o1));
      } else {
        r := EmitComparison(c, Operands(e1.k, e2.k), Compare(op, cond, o1, o2));
      }
    }

    method EmitComparison(ghost c: Context, ghost v: View, i: Instr) returns (r: Result<ExpDesc>)
      requires Valid() && c.sem == sem && c.nactvar == nactvar && pend == c.start.pend && freeReg == c.base
      requires Compiled(c, Now(), v, [], [], NO_REG) && Decides(c, v, i)
      modifies this`code, this`jpc, this`waiting, this`pend
      ensures Size() <= old(Size()) + 2
      ensures r.Failure? ==> AtLimit()
      ensures r.Success? ==> Has(c, r.value, [], [], NO_REG) && OneTemporary(c, r.value.k) && r.value.k.VJmp?
    {
      hide Compiled, WellFormed, ListAt;
      ComparedLater(c, Now(), v, i);
      var pc :- CondJump(i);
      FormOf(c, Now(), Kind(VJmp(pc)), [], [], NO_REG);
      EmptyIsList(code);
      return Success(ExpDesc(VJmp(pc), NO_JUMP, NO_JUMP));
    }

    /** The operand of a unary operator has just been compiled. */
    method Prefix(ghost c: Context, op: UnOp, e: ExpDesc, ghost t: seq<nat>, ghost f: seq<nat>)
      returns (r: Result<ExpDesc>, ghost t': seq<nat>, ghost f': seq<nat>)
      requires Has(c, e, t, f, NO_REG) && OneTemporary(c, e.k) && IsProper(e.k) && sem.Valid()
      modifies this
      ensures Size() <= old(Size()) + 25 && freeReg <= c.base + 1
      ensures r.Failure? ==> AtLimit()
      ensures var c' := c.(x := Unary(op, c.x));
        r.Success? ==> Has(c', r.value, t', f', NO_REG) && OneTemporary(c', r.value.k) && IsProper(r.value.k)
    {
      hide Compiled, WellFormed, ListAt;
      ghost var c' := c.(x := Unary(op, c.x));
      t', f' := [], [];
      match op {
        case Minus =>
          var a := e;
          if !IsNumeral(e) {
            a :- Exp2AnyReg(c, e, t, f);
          } else {
            NumeralHasNoLists(code, e, t, f);
          }
          r := CodeUnary(c, c', op, a);
        case Not =>
          t', f' := f, t;
          r := CodeNot(c, e, t, f);
        case Len =>
          var a :- Exp2AnyReg(c, e, t, f);
          r := CodeUnary(c, c', op, a);
      }
    }

    /** The first operand of a binary operator has just been compiled. */
    method Infix(ghost c: Context, op: BinOp, e: ExpDesc, ghost t: seq<nat>, ghost f: seq<nat>)
      returns (r: Result<ExpDesc>, ghost l1: seq<nat>)
      requires Has(c, e, t, f, NO_REG) && OneTemporary(c, e.k) && IsProper(e.k)
      modifies this
      ensures Size() <= old(Size()) + 16 && freeReg <= c.base + 1
      ensures r.Failure? ==> AtLimit()
      ensures r.Success? ==> Valid() && FirstDone(c, Now(), op, r.value, l1) && freeReg == BaseAfter(c, op, r.value)
      ensures r.Success? && IsStrict(op) && r.value.k.VKNum? ==> !sem.isNaN(r.value.k.nval)
    {
      hide Compiled, WellFormed, Exec, Eval;
      l1 := [];
      if op.And? {
        r, l1 := GoIfTrue(c, e, t, f);
      } else if op.Or? {
        r, l1 := GoIfFalse(c, e, t, f);
      } else {
        r := InfixStrict(c, op, e, t, f);
      }
    }

    /** An operator that always needs both operands. */
    method InfixStrict(ghost c: Context, op: BinOp, e: ExpDesc, ghost t: seq<nat>, ghost f: seq<nat>)
        returns (r: Result<ExpDesc>)
      requires Has(c, e, t, f, NO_REG) && OneTemporary(c, e.k) && IsProper(e.k) && IsStrict(op)
      modifies this
      ensures Size() <= old(Size()) + 16 && freeReg <= c.base + 1
      ensures r.Failure? ==> AtLimit()
      ensures r.Success? ==> Valid() && FirstDone(c, Now(), op, r.value, []) && freeReg == BaseAfter(c, op, r.value)
      ensures r.Success? && r.value.k.VKNum? ==> !sem.isNaN(r.value.k.nval)
    {
      hide Compiled, WellFormed, Exec, Eval;
      if op.Concat? {
        RegisterInFrame(c, Now(), e.k, t, f, NO_REG);
        r := Exp2NextReg(c, e, t, f);
      } else if op.OpArith? && IsNumeral(e) {
        NumeralHasNoLists(code, e, t, f);
        r := Success(e);
      } else {
        var p :- SecondOperandRK(c, e, t, f);
        r := Success(p.0);
      }
    }

    /** Both operands of a binary operator have been compiled. */
    method Posfix(ghost c1: Context, ghost c2: Context, ghost c: Context, op: BinOp, e1: ExpDesc, e2: ExpDesc,
        ghost l1: seq<nat>, ghost t: seq<nat>, ghost f: seq<nat>)
      returns (r: Result<ExpDesc>, ghost t': seq<nat>, ghost f': seq<nat>)
      requires SecondBegins(c1, c2, c, op, e1, l1, e2, t, f)
      modifies this
      ensures Size() <= old(Size()) + 34 && freeReg <= c2.base + 2
      ensures r.Failure? ==> AtLimit()
      ensures r.Success? ==> Has(c, r.value, t', f', NO_REG) && OneTemporary(c, r.value.k) && IsProper(r.value.k)
    {
      hide Compiled, WellFormed, ListAt, Exec, Eval;
      t', f' := [], [];
      match op {
        case And => r, t', f' := JoinShortCircuit(c1, c2, c, true, e1, e2, l1, t, f);
        case Or => r, t', f' := JoinShortCircuit(c1, c2, c, false, e1, e2, l1, t, f);
        case OpArith(a) => r := CodeArith(c1, c2, c, a, e1, e2, t, f);
        case Concat => r := CodeConcat(c1, c2, c, e1, e2, t, f);
        case Eq => r := CodeComp(c1, c2, c, op, CmpEq, true, e1, e2, t, f);
        case Ne => r := CodeComp(c1, c2, c, op, CmpEq, false, e1, e2, t, f);
        case Lt => r := CodeComp(c1, c2, c, op, CmpLt, true, e1, e2, t, f);
        case Le => r := CodeComp(c1, c2, c, op, CmpLe, true, e1, e2, t, f);
        case Gt => r := CodeComp(c1, c2, c, op, CmpLt, false, e1, e2, t, f);
        case Ge => r := CodeComp(c1, c2, c, op, CmpLe, false, e1, e2, t, f);
      }
    }

    /** `and` (`b`) and `or`: the jumps of the first operand that decide the result join those of the
        second. */
    method JoinShortCircuit(ghost c1: Context, ghost c2: Context, ghost c: Context, b: bool, e1: ExpDesc, e2: ExpDesc,
        ghost l1: seq<nat>, ghost t: seq<nat>, ghost f: seq<nat>)
      returns (r: Result<ExpDesc>, ghost t': seq<nat>, ghost f': seq<nat>)
      requires SecondBegins(c1, c2, c, if b then And else Or, e1, l1, e2, t, f)
      modifies this
      ensures Size() <= old(Size()) + 1 && freeReg <= c2.base + 2
      ensures r.Failure? ==> AtLimit()
      ensures r.Success? ==> Has(c, r.value, t', f', NO_REG) && OneTemporary(c, r.value.k) && IsProper(r.value.k)
    {
      hide Compiled, WellFormed, ListAt, FirstDone, Follows, BaseAfter;
      t', f' := [], [];
      ShortCircuitParts(c1, c2, c, if b then And else Or, b, e1, l1);
      var d :- DischargeVars(c2, e2, t, f);
      r, t', f' := JoinLists(c1, c2, c, b, e1, d, l1, t, f);
    }

    /** Appends a list of the first operand to one of the second. */
    method AppendFirst(ghost c2: Context, ghost v: View, l: int, first: int, ghost list: seq<nat>, ghost l1: seq<nat>,
        ghost t: seq<nat>, ghost f: seq<nat>)
      returns (r: Result<int>)
      requires Compiled(c2, Now(), v, t, f, NO_REG) && ListAt(c2.start.code, first, l1) &&
        (forall j :: j in l1 ==> j in c2.start.pend)
      requires ListAt(code, l, list) && (list == t || list == f)
      modifies this`code
      ensures Size() <= old(Size())
      ensures r.Failure? ==> AtLimit()
      ensures r.Success? ==> ListAt(code, r.value, list + l1) && |code| == |old(code)|
      ensures r.Success? ==> forall i :: 0 <= i < |code| ==>
        code[i] == old(code)[i] || (i in list && old(code)[i].Jmp? && code[i].Jmp?)
    {
      hide Compiled, ListAt;
      FirstListKept(c2, Now(), v, first, l1, t, f);
      r := Concat(l, first, list, l1);
    }

    method JoinLists(ghost c1: Context, ghost c2: Context, ghost c: Context, b: bool, e1: ExpDesc, d: ExpDesc,
        ghost l1: seq<nat>, ghost t: seq<nat>, ghost f: seq<nat>)
      returns (r: Result<ExpDesc>, ghost t': seq<nat>, ghost f': seq<nat>)
      requires Follows(c1, c2, c) && c2.base == c.base && c.x == Binary(if b then And else Or, c1.x, c2.x)
      requires Compiled(c1, c2.start, Branch(b), if b then [] else l1, if b then l1 else [], NO_REG)
      requires ListAt(c2.start.code, if b then e1.f else e1.t, l1) && c2.start.pend == c.start.pend + Elems(l1)
      requires Has(c2, d, t, f, NO_REG) && !IsUnread(d.k)
      modifies this`code
      ensures Size() <= old(Size())
      ensures r.Failure? ==> AtLimit()
      ensures r.Success? ==> Has(c, r.value, t', f', NO_REG) && r.value.k == d.k
    {
      hide Compiled, WellFormed, ListAt;
      t', f' := if b then t else t + l1, if b then f + l1 else f;
      ghost var g := Now();
      ghost var list, other := if b then f else t, if b then d.t else d.f;
      var l :- AppendFirst(c2, Kind(d.k), if b then d.f else d.t, if b then e1.f else e1.t, list, l1, t, f);
      ShortCircuitJoined(c1, c2, c, if b then And else Or, b, l1, g, Now(), Kind(d.k), t, f, other, jpc, waiting);
      return Success(if b then d.(f := l) else d.(t := l)), t', f';
    }
  }

  /** One more jump of the list is patched. */
  lemma PatchedOneMore(code: seq<Instr>, s: seq<nat>, j: nat, vtarget: int, reg: nat, dtarget: int, c: seq<Instr>,
      c': seq<Instr>)
    requires j < |code| && code[j].Jmp? && j !in s
    requires c == Patched(code, Elems(s), vtarget, reg, dtarget)
    requires var valued := CarriesValue(code, j);
      var c1 := if valued then c[j - 1 := PatchTest(code[j - 1], reg)] else c;
      c' == c1[j := Jmp((if valued then vtarget else dtarget) - (j + 1))]
    ensures c' == Patched(code, Elems(s + [j]), vtarget, reg, dtarget)
  {
  }

  lemma ListAtSameJumps(code: seq<Instr>, code': seq<Instr>, l: int, s: seq<nat>)
    requires ListAt(code, l, s)
    requires forall j :: j in s && j < |code| ==> j < |code'| && code'[j] == code[j]
    ensures ListAt(code', l, s)
  {
  }

  lemma ConcatIsAppend(code: seq<Instr>, l1: int, l2: int, s1: seq<nat>, s2: seq<nat>, code': seq<Instr>)
    requires ListAt(code, l1, s1) && ListAt(code, l2, s2) && s1 != [] && s2 != []
    requires forall j :: j in s1 ==> j !in s2
    requires var e := s1[|s1| - 1]; code' == code[e := Jmp(l2 - (e + 1))]
    ensures ListAt(code', l1, s1 + s2)
  {
    var s := s1 + s2;
    forall i, j | 0 <= i < j < |s| ensures s[i] != s[j] {
      assert i < |s1| ==> s[i] in s1;
      assert j >= |s1| ==> s[j] in s2;
    }
    var e := s1[|s1| - 1];
    assert e in s1 && s2[0] in s2;
    forall i | 0 <= i < |s|
      ensures s[i] < |code'| && code'[s[i]].Jmp?
      ensures GetJump(code', s[i]) == if i + 1 < |s| then s[i + 1] else NO_JUMP
    {
      if i < |s1| {
        assert s[i] == s1[i] && (i + 1 < |s1| ==> s1[i + 1] == s[i + 1]);
        assert i + 1 < |s1| ==> s1[i] != s1[|s1| - 1];
      } else {
        assert s[i] == s2[i - |s1|] && s[i] in s2;
      }
    }
    assert ListAt(code', l1, s);
  }

  lemma SingletonList(code: seq<Instr>, j: nat)
    requires j < |code| && code[j] == Jmp(NO_JUMP)
    ensures ListAt(code, j, [j])
  {
    assert GetJump(code, j) == NO_JUMP;
  }

  lemma OtherJumpsSame(code: seq<Instr>, code': seq<Instr>, l: int, s: seq<nat>, w: seq<nat>, jpc: int)
    requires ListAt(code, l, s) && ListAt(code, jpc, w) && |code'| == |code|
    requires forall i :: 0 <= i < |code| && code[i].Jmp? ==> code'[i] == code[i]
    ensures ListAt(code', l, s) && ListAt(code', jpc, w)
  {
  }

  lemma MergeNil(c: Context, g: Gen, g': Gen, t: seq<nat>, f: seq<nat>, reg: nat, w: nat)
    requires Compiled(c, g, Kind(VNil), t, f, NO_REG) && Destination(c, reg, w)
    requires |g.code| > 0 && g.lastTarget < |g.code|
    requires g.code[|g.code| - 1].LoadNil?
    requires var i := g.code[|g.code| - 1];
      i.a <= reg <= i.b + 1 && g' == g.(code := g.code[|g.code| - 1 := LoadNil(i.a, if reg > i.b then reg else i.b)])
    ensures Compiled(c, g', Kind(VNonReloc(reg)), t, f, w) && WellFormed(g')
  {
    NilMergedCompiled(c, g, g', t, f, reg, w);
  }

  lemma EmissionKeepsLists(c: Context, g: Gen, i: Instr, v: View, t: seq<nat>, f: seq<nat>, w: nat)
    requires Compiled(c, g, v, t, f, w) && Before(g, v) == g && IsPlain(i)
    ensures forall l :: ListAt(g.code, l, t) ==> ListAt(Emit(g, i).code, l, t)
    ensures forall l :: ListAt(g.code, l, f) ==> ListAt(Emit(g, i).code, l, f)
    ensures WellFormed(Emit(g, i))
  {
    var g' := Emit(g, i);
    EmitForm(g, i);
    KeptByEmission(c, g, g', v, t, f, |g'.code|);
    hide Formed;
    forall l | ListAt(g.code, l, t) ensures ListAt(g'.code, l, t) {
      ListAtSameJumps(g.code, g'.code, l, t);
    }
    forall l | ListAt(g.code, l, f) ensures ListAt(g'.code, l, f) {
      ListAtSameJumps(g.code, g'.code, l, f);
    }
  }

  lemma FormOf(c: Context, g: Gen, v: View, t: seq<nat>, f: seq<nat>, w: nat)
    requires Compiled(c, g, v, t, f, w)
    ensures WellFormed(g)
  {
  }

  lemma LastInstruction(c: Context, g: Gen, i: nat, t: seq<nat>, f: seq<nat>, w: nat)
    requires Compiled(c, g, Kind(VRelocable(i)), t, f, w)
    ensures |g.code| == i + 1 && g.code[i].IsRelocatable() && g.here == {}
  {
  }

  lemma SameRegister(c: Context, g: Gen, reg: nat, t: seq<nat>, f: seq<nat>, w: nat)
    requires Compiled(c, g, Kind(VNonReloc(reg)), t, f, NO_REG) && Destination(c, reg, w)
    ensures Compiled(c, g, Kind(VNonReloc(reg)), t, f, w)
  {
    forall s: nat, r: Regs | Start(c, s, r) ensures Simulates(c, g, Kind(VNonReloc(reg)), t, f, w, s, r) {
      assert Simulates(c, g, Kind(VNonReloc(reg)), t, f, NO_REG, s, r);
      hide Exec;
      hide Eval;
    }
  }

  lemma ListAtPrefix(code: seq<Instr>, code': seq<Instr>, l: int, s: seq<nat>)
    requires ListAt(code, l, s) && code <= code'
    ensures ListAt(code', l, s)
  {
    ListAtSameJumps(code, code', l, s);
  }

  lemma OpenJumpsInside(g: Gen)
    requires WellFormed(g)
    ensures g.pend !! g.here
    ensures forall j :: j in g.pend || j in g.here ==> j < |g.code|
  {
  }

  lemma BoolsSkippedIs(g: Gen, g': Gen, reg: nat, link: int, held: seq<nat>, list: seq<nat>)
    requires g.here == Elems(held) && list == [|g.code|] + held && g.pend !! g.here
    requires forall j :: j in g.pend || j in g.here ==> j < |g.code|
    requires g'.code == g.code + [Jmp(link)] + [LoadBool(reg, false, true)] + [LoadBool(reg, true, false)]
    requires g'.k == g.k && g'.pend == g.pend - Elems(list) && g'.here == Elems(list) && g'.lastTarget == |g.code| + 3
    ensures g' == BoolsSkipped(g, reg, link)
  {
    assert Elems(list) == g.here + {|g.code|};
    assert g'.pend == g.pend;
    assert g'.code == BoolsSkipped(g, reg, link).code;
  }

  lemma LocalIsRegister(c: Context, g: Gen, i: nat)
    requires Compiled(c, g, Kind(VLocal(i)), [], [], NO_REG)
    ensures Compiled(c, g, Kind(VNonReloc(i)), [], [], NO_REG)
  {
    assert g.(k := g.k) == g;
    SameValueCompiled(c, g, g.k, VLocal(i), VNonReloc(i), [], [], NO_REG);
  }

  lemma OwnListsAre(c: Context, g: Gen, v: View, t: seq<nat>, f: seq<nat>, w: nat)
    requires Compiled(c, g, v, t, f, w)
    ensures forall j :: j in t ==> j in g.pend && Controlled(g.code, j) && j > |c.start.code|
    ensures forall j :: j in f ==> j in g.pend && Controlled(g.code, j) && j > |c.start.code|
    ensures forall j :: j in c.start.pend ==> j < |c.start.code| && j in g.pend
    ensures forall j :: j in t ==> j !in f
    ensures g.here !! g.pend && |c.start.code| <= |g.code|
    ensures v.Kind? && v.k.VJmp? ==> v.k.info !in t && v.k.info !in f && v.k.info in g.pend
  {
    forall j | j in c.start.pend ensures j < |c.start.code| && j in g.pend {
      assert Kept(c.start, g, j);
    }
  }

  /** Patching one list leaves the LOADBOOLs and the tests of the other list alone. */
  ghost predicate OtherListAsBefore(code: seq<Instr>, code': seq<Instr>, other: seq<nat>) {
    && |code'| == |code|
    && (forall i :: 0 <= i < |code| && code[i].LoadBool? ==> code'[i] == code[i])
    && (forall j :: j in other ==> CarriesValue(code', j) == CarriesValue(code, j))
  }

  lemma ValuesPatched(c: Context, g: Gen, g': Gen, lt: int, lf: int, jpc: int, waiting: seq<nat>, reg: nat, d: int,
      v: bool, t: seq<nat>, f: seq<nat>, w: nat)
    requires Compiled(c, g, Kind(VNonReloc(reg)), t, f, w) && Destination(c, reg, w) && g.lastTarget == |g.code|
    requires ListAt(g.code, lt, t) && ListAt(g.code, lf, f) && ListAt(g.code, jpc, waiting) && g.here == Elems(waiting)
    requires forall j :: j in Picked(v, t, f) && !CarriesValue(g.code, j) ==> j < d && LoadsAtEnd(g.code, d, reg, v)
    requires g.pend == c.start.pend + Elems(t) + Elems(f)
    requires g' == g.(code := Patched(g.code, Elems(Picked(v, t, f)), |g.code|, reg, d),
      pend := g.pend - Elems(Picked(v, t, f)))
    ensures var t', f' := if v then [] else t, if v then f else [];
      && Compiled(c, g', Kind(VNonReloc(reg)), t', f', w) && WellFormed(g')
      && g'.pend == c.start.pend + Elems(t') + Elems(f')
    ensures ListAt(g'.code, jpc, waiting) && ListAt(g'.code, if v then lf else lt, Picked(!v, t, f)) &&
      ListAt(g'.code, NO_JUMP, [])
    ensures OtherListAsBefore(g.code, g'.code, Picked(!v, t, f))
  {
    hide Compiled, Patched, ListAt;
    var s, other := Picked(v, t, f), Picked(!v, t, f);
    OwnListsAre(c, g, Kind(VNonReloc(reg)), t, f, w);
    assert Resolved(g, g', Elems(s), reg, d, v);
    ResolvedCompiled(c, g, g', t, f, reg, d, v, w);
    FormOf(c, g, Kind(VNonReloc(reg)), t, f, w);
    ResolvedForm(g, g', Elems(s), reg, d, v);
    EmptyIsList(g'.code);
    assert forall j :: j in waiting ==> j in g.here;
    assert forall j :: j in other || j in waiting ==> j !in s && g.code[j].Jmp?;
    PatchedElsewhere(g.code, Elems(s), |g.code|, reg, d, other, waiting);
    ListAtSameJumps(g.code, g'.code, jpc, waiting);
    ListAtSameJumps(g.code, g'.code, if v then lf else lt, other);
  }

  lemma PatchedElsewhere(code: seq<Instr>, l: set<nat>, vtarget: int, reg: nat, d: int, other: seq<nat>,
      waiting: seq<nat>)
    requires forall j :: j in other || j in waiting ==> j < |code| && code[j].Jmp? && j !in l
    ensures var code' := Patched(code, l, vtarget, reg, d);
      && (forall j :: j in other || j in waiting ==> code'[j] == code[j])
      && OtherListAsBefore(code, code', other)
  {
  }

  lemma ComparisonAtEnd(c: Context, g: Gen, i: nat, t: seq<nat>, f: seq<nat>)
    requires Compiled(c, g, Kind(VJmp(i)), t, f, NO_REG)
    ensures |g.code| == i + 1 && g.code[i] == Jmp(NO_JUMP) && i >= 1 && g.code[i - 1].Compare?
    ensures g.here == {} && i in g.pend && ListAt(g.code, i, [i])
    ensures forall j :: j in t || j in f ==> j < i
  {
    SingletonList(g.code, i);
  }

  /** Only links between the jumps of `changed`, own open jumps of the expression, are new. */
  lemma RelinkedLists(c: Context, g: Gen, g': Gen, v: View, t: seq<nat>, f: seq<nat>, changed: seq<nat>, l: int,
      s: seq<nat>)
    requires Compiled(c, g, v, t, f, NO_REG) && (v.Kind? || v.Branch?)
    requires g' == g.(code := g'.code) && |g'.code| == |g.code|
    requires forall i :: 0 <= i < |g.code| ==>
               g'.code[i] == g.code[i] || (i in changed && g.code[i].Jmp? && g'.code[i].Jmp?)
    requires forall j :: j in changed ==> (j in t || j in f) && j !in s
    requires ListAt(g.code, l, s)
    ensures Compiled(c, g', v, t, f, NO_REG) && WellFormed(g') && ListAt(g'.code, l, s)
    ensures forall j: nat :: j <= |g.code| ==> CarriesValue(g'.code, j) == CarriesValue(g.code, j)
    ensures forall ll, w :: ListAt(g.code, ll, w) && Elems(w) == g.here ==> ListAt(g'.code, ll, w)
  {
    OwnListsAre(c, g, v, t, f, NO_REG);
    assert OwnLinksOnly(c, g, g', v);
    RelinkKeepsCompiled(c, g, g', v, t, f, NO_REG);
    FormOf(c, g', v, t, f, NO_REG);
    hide Compiled, WellFormed;
    ListAtSameJumps(g.code, g'.code, l, s);
    forall ll, w | ListAt(g.code, ll, w) && Elems(w) == g.here ensures ListAt(g'.code, ll, w) {
      assert forall j :: j in w ==> j in g.here;
      ListAtSameJumps(g.code, g'.code, ll, w);
    }
  }

  lemma BoolsStay(code: seq<Instr>, code': seq<Instr>, d: int, reg: nat, t: seq<nat>)
    requires OtherListAsBefore(code, code', t)
    ensures LoadsAtEnd(code, d, reg, true) ==> LoadsAtEnd(code', d, reg, true)
  {
  }

  lemma SameHeads(code: seq<Instr>, l1: int, l2: int, s1: seq<nat>, s2: seq<nat>)
    requires ListAt(code, l1, s1) && ListAt(code, l2, s2)
    requires forall j :: j in s1 ==> j !in s2
    ensures l1 == l2 <==> s1 == [] && s2 == []
  {
    assert s1 != [] ==> s1[0] in s1;
  }

  /** `hasjumps` compares the heads of the two lists. */
  lemma EmptyLists(c: Context, g: Gen, v: View, l: int, t: seq<nat>, f: seq<nat>, w: nat)
    requires Compiled(c, g, v, t, f, w) && ListAt(g.code, l, t) && ListAt(g.code, l, f)
    ensures t == [] && f == [] && l == NO_JUMP
  {
    SameHeads(g.code, l, l, t, f);
  }

  lemma RegisterInFrame(c: Context, g: Gen, k: ExpKind, t: seq<nat>, f: seq<nat>, w: nat)
    requires Compiled(c, g, Kind(k), t, f, w)
    ensures k.VNonReloc? ==> k.info < c.nactvar || k.info == c.base
    ensures k.VLocal? ==> k.info < c.nactvar
    ensures c.nactvar <= c.base < NO_REG
    ensures forall j :: j in t ==> j !in f
  {
  }

  lemma TestKeepsLists(c: Context, g: Gen, i: Instr, v: View, t: seq<nat>, f: seq<nat>, w: nat)
    requires Compiled(c, g, v, t, f, w) && Before(g, v) == g && i.IsTest()
    ensures forall l :: ListAt(g.code, l, t) ==> ListAt(EmitTest(g, i).code, l, t)
    ensures forall l :: ListAt(g.code, l, f) ==> ListAt(EmitTest(g, i).code, l, f)
    ensures WellFormed(EmitTest(g, i))
    ensures |g.code| + 1 !in t && |g.code| + 1 !in f
  {
    var g' := EmitTest(g, i);
    EmitTestForm(g, i);
    KeptByEmission(c, g, g', v, t, f, |g'.code|);
    hide Formed;
    forall l | ListAt(g.code, l, t) ensures ListAt(g'.code, l, t) {
      ListAtSameJumps(g.code, g'.code, l, t);
    }
    forall l | ListAt(g.code, l, f) ensures ListAt(g'.code, l, f) {
      ListAtSameJumps(g.code, g'.code, l, f);
    }
  }

  lemma NotReplacedJumps(c: Context, g: Gen, i: nat, t: seq<nat>, f: seq<nat>, cond: bool)
    requires Formed(c, g, Kind(VRelocable(i)), t, f) && g.code[i].Not?
    ensures forall j :: j in t || j in f ==> j < i && NotReplaced(g, i, cond).code[j] == g.code[j]
    ensures WellFormed(NotReplaced(g, i, cond)) && |NotReplaced(g, i, cond).code| == i + 2
    ensures g.here == {} && |g.code| == i + 1
  {
    hide WellFormed;
    NotReplacedForm(c, g, i, t, f, cond);
    DischargeNothing(Before(g, Kind(VRelocable(i))));
    FormIsWellFormed(c, NotReplaced(g, i, cond), Branch(!cond), TrueList(t, i + 1, cond), FalseList(f, i + 1, cond));
  }

  lemma NotReplacedLists(c: Context, g: Gen, i: nat, t: seq<nat>, f: seq<nat>, cond: bool, jpc: int, w: seq<nat>)
    requires Compiled(c, g, Kind(VRelocable(i)), t, f, NO_REG) && g.code[i].Not?
    requires ListAt(g.code, jpc, w) && Elems(w) == g.here
    ensures ListAt(Before(g, Kind(VRelocable(i))).code, jpc, w) &&
      g.code[..|g.code| - 1] == Before(g, Kind(VRelocable(i))).code
    ensures forall l :: ListAt(g.code, l, t) ==> ListAt(NotReplaced(g, i, cond).code, l, t)
    ensures forall l :: ListAt(g.code, l, f) ==> ListAt(NotReplaced(g, i, cond).code, l, f)
    ensures WellFormed(NotReplaced(g, i, cond)) && i + 1 !in t && i + 1 !in f
  {
    var b, g' := Before(g, Kind(VRelocable(i))), NotReplaced(g, i, cond);
    NotReplacedForm(c, g, i, t, f, cond);
    NotReplacedJumps(c, g, i, t, f, cond);
    NoElems(w);
    hide Formed, NotReplaced, WellFormed, ListAt;
    forall l | ListAt(g.code, l, t) ensures ListAt(g'.code, l, t) {
      ListAtSameJumps(g.code, g'.code, l, t);
    }
    forall l | ListAt(g.code, l, f) ensures ListAt(g'.code, l, f) {
      ListAtSameJumps(g.code, g'.code, l, f);
    }
  }

  lemma InvertedList(g: Gen, i: nat, l: int, s: seq<nat>)
    requires 1 <= i < |g.code| && g.code[i - 1].Compare? && ListAt(g.code, l, s)
    ensures ListAt(Inverted(g, i).code, l, s)
  {
    ListAtSameJumps(g.code, Inverted(g, i).code, l, s);
  }

  lemma NoElems(s: seq<nat>)
    ensures Elems(s) == {} <==> s == []
  {
    if s != [] {
      assert s[0] in Elems(s);
    }
  }

  lemma ListClosed(c: Context, g: Gen, g': Gen, b: bool, t: seq<nat>, f: seq<nat>, waiting: seq<nat>, s: seq<nat>,
      other: int)
    requires Compiled(c, g, Branch(b), t, f, NO_REG) && s == (if b then t else f)
    requires g'.k == g.k && g'.pend == g.pend - Elems(s) && g'.lastTarget == |g.code| && |g'.code| == |g.code|
    requires g'.here == Elems(waiting) && Elems(waiting) == g.here + Elems(s)
    requires forall i :: 0 <= i < |g.code| ==>
               g'.code[i] == g.code[i] || (i in g.here && g.code[i].Jmp? && g'.code[i].Jmp?)
    requires ListAt(g.code, other, if b then f else t)
    ensures Compiled(c, g', Branch(b), if b then [] else t, if b then f else [], NO_REG) && WellFormed(g')
    ensures ListAt(g'.code, other, if b then f else t)
    ensures ListAt(g'.code, NO_JUMP, [])
  {
    var g1 := g.(code := g'.code);
    OwnListsAre(c, g, Branch(b), t, f, NO_REG);
    assert OwnLinksOnly(c, g, g1, Branch(b));
    RelinkKeepsCompiled(c, g, g1, Branch(b), t, f, NO_REG);
    assert SentHere(g1, g', Elems(s));
    ClosedListCompiled(c, g1, g', b, t, f);
    ListAtSameJumps(g.code, g'.code, other, if b then f else t);
  }

  /** A test has just been emitted, and its jump `pc` is not in a list yet. */
  ghost predicate TestedAt(c: Context, g: Gen, cond: bool, pc: nat, lt: int, lf: int, t: seq<nat>, f: seq<nat>) {
    && WellFormed(g) && Compiled(c, g, Branch(!cond), TrueList(t, pc, cond), FalseList(f, pc, cond), NO_REG)
    && ListAt(g.code, lt, t) && ListAt(g.code, lf, f) && ListAt(g.code, pc, [pc])
    && g.pend == c.start.pend + Elems(t) + Elems(f) + {pc}
    && pc !in t && pc !in f
  }

  lemma RegisterTested(c: Context, g: Gen, reg: nat, cond: bool, lt: int, lf: int, t: seq<nat>, f: seq<nat>)
    requires Compiled(c, g, Kind(VNonReloc(reg)), t, f, NO_REG) && reg < 256
    requires ListAt(g.code, lt, t) && ListAt(g.code, lf, f) && g.pend == c.start.pend + Elems(t) + Elems(f)
    ensures var g' := EmitTest(g, TestSet(NO_REG, reg, cond));
      TestedAt(c, g', cond, |g.code| + 1, lt, lf, t, f) && WellFormed(g') && ListAt(g'.code, NO_JUMP, [])
  {
    hide Compiled, WellFormed, TrueList, FalseList;
    var i := TestSet(NO_REG, reg, cond);
    TestGivesBranch(c, g, reg, t, f, cond);
    TestKeepsLists(c, g, i, Kind(VNonReloc(reg)), t, f, NO_REG);
    SingletonList(EmitTest(g, i).code, |g.code| + 1);
    hide ListAt;
    EmptyIsList(EmitTest(g, i).code);
  }

  lemma NotTested(c: Context, g: Gen, i: nat, cond: bool, lt: int, lf: int, t: seq<nat>, f: seq<nat>, jpc: int,
      waiting: seq<nat>)
    requires Compiled(c, g, Kind(VRelocable(i)), t, f, NO_REG) && i < |g.code| && g.code[i].Not?
    requires ListAt(g.code, lt, t) && ListAt(g.code, lf, f) && g.pend == c.start.pend + Elems(t) + Elems(f)
    requires ListAt(g.code, jpc, waiting) && Elems(waiting) == g.here
    ensures var b := Before(g, Kind(VRelocable(i)));
      && |g.code| == i + 1 && b.code == g.code[..|g.code| - 1] && ListAt(b.code, jpc, waiting)
    ensures var g' := NotReplaced(g, i, cond);
      TestedAt(c, g', cond, i + 1, lt, lf, t, f) && WellFormed(g') && ListAt(g'.code, NO_JUMP, [])
  {
    hide Compiled, WellFormed, TrueList, FalseList, ListAt, NotReplaced;
    LastInstruction(c, g, i, t, f, NO_REG);
    RemovedNotGivesBranch(c, g, i, t, f, cond);
    NotReplacedLists(c, g, i, t, f, cond, jpc, waiting);
    NotReplacedShape(g, i, cond);
    SingletonList(NotReplaced(g, i, cond).code, i + 1);
    EmptyIsList(NotReplaced(g, i, cond).code);
  }

  lemma ComparisonDecides(c: Context, k1: ExpKind, k2: ExpKind, bop: BinOp, op: CmpOp, cond: bool)
    requires FitsRK(k1) && FitsRK(k2) && c.x.Binary? && c.x.bop == bop
    requires (op, cond) == match bop
      case Eq => (CmpEq, true)
      case Ne => (CmpEq, false)
      case Lt => (CmpLt, true)
      case Le => (CmpLe, true)
      case Gt => (CmpLt, false)
      case Ge => (CmpLe, false)
      case _ => (op, !cond)
    ensures Decides(c, Operands(k1, k2), if !cond && !op.CmpEq? then Compare(op, true, RKOf(k2), RKOf(k1))
      else Compare(op, cond, RKOf(k1), RKOf(k2)))
  {
  }

  lemma NotReplacedShape(g: Gen, i: nat, cond: bool)
    requires |g.code| == i + 1 && g.code[i].Not? && g.here == {}
    ensures var g' := NotReplaced(g, i, cond);
      g'.pend == g.pend + {i + 1} && |g'.code| == i + 2 && g'.code[i + 1] == Jmp(NO_JUMP)
    ensures Before(g, Kind(VRelocable(i))).code == g.code[..|g.code| - 1]
  {
    DischargeNothing(Before(g, Kind(VRelocable(i))));
  }

  lemma JoinedList(c: Context, g: Gen, g': Gen, cond: bool, pc: nat, lt: int, lf: int, t: seq<nat>, f: seq<nat>,
      jpc: int, waiting: seq<nat>)
    requires TestedAt(c, g, cond, pc, lt, lf, t, f)
    requires g' == g.(code := g'.code) && |g'.code| == |g.code|
    requires forall i :: 0 <= i < |g.code| ==>
               g'.code[i] == g.code[i] || (i in (if cond then t else f) && g.code[i].Jmp? && g'.code[i].Jmp?)
    requires ListAt(g.code, jpc, waiting) && Elems(waiting) == g.here
    ensures Compiled(c, g', Branch(!cond), TrueList(t, pc, cond), FalseList(f, pc, cond), NO_REG) && WellFormed(g')
    ensures ListAt(g'.code, if cond then lf else lt, if cond then f else t) && ListAt(g'.code, jpc, waiting)
    ensures g'.pend == c.start.pend + Elems(TrueList(t, pc, cond)) + Elems(FalseList(f, pc, cond))
  {
    hide Compiled, WellFormed, ListAt;
    var t', f' := TrueList(t, pc, cond), FalseList(f, pc, cond);
    OwnListsAre(c, g, Branch(!cond), t', f', NO_REG);
    assert forall j :: j in t' <==> j in t || (cond && j == pc);
    assert forall j :: j in f' <==> j in f || (!cond && j == pc);
    RelinkedLists(c, g, g', Branch(!cond), t', f', if cond then t else f, if cond then lf else lt, if cond then f
      else t);
  }

  lemma ValuesRemovedLists(code: seq<Instr>, removed: set<nat>)
    ensures forall l, s :: ListAt(code, l, s) ==> ListAt(ValuesRemoved(code, removed), l, s)
  {
    forall l, s | ListAt(code, l, s) ensures ListAt(ValuesRemoved(code, removed), l, s) {
      ListAtSameJumps(code, ValuesRemoved(code, removed), l, s);
    }
  }

  lemma ValuesRemovedTwice(code: seq<Instr>, t: seq<nat>, f: seq<nat>)
    ensures ValuesRemoved(ValuesRemoved(code, Elems(t)), Elems(f)) == ValuesRemoved(code, Elems(t + f))
  {
  }

  lemma EmptyIsList(code: seq<Instr>)
    ensures ListAt(code, NO_JUMP, [])
  {
  }

  lemma InvertedIsWellFormed(c: Context, g: Gen, i: nat, t: seq<nat>, f: seq<nat>)
    requires Compiled(c, g, Kind(VJmp(i)), t, f, NO_REG)
    ensures WellFormed(Inverted(g, i))
  {
    InvertedFormed(c, g, i, t, f);
  }

  lemma FirstOperandForm(c1: Context, c2: Context, c: Context, op: BinOp, e1: ExpDesc, l1: seq<nat>)
    requires Follows(c1, c2, c) && IsStrict(op) && FirstDone(c1, c2.start, op, e1, l1) &&
      c2.base == BaseAfter(c1, op, e1)
    ensures StaysPut(e1.k, c2.base) && Compiled(c1, c2.start, Kind(e1.k), [], [], NO_REG) &&
      c2.start.pend == c.start.pend
    ensures c.nactvar <= c.base <= c2.base && c.sem == c2.sem && c.nactvar == c2.nactvar
    ensures e1.k.VNonReloc? && e1.k.info >= c.nactvar ==> e1.k.info == c.base && c2.base == c.base + 1
    ensures !(e1.k.VNonReloc? && e1.k.info >= c.nactvar) ==> c2.base == c.base
    ensures FuncState.IsSettled(e1) || (op.OpArith? && IsNumeral(e1))
    ensures op.Concat? ==> e1.k == VNonReloc(c.base)
  {
  }

  lemma NumeralHasNoLists(code: seq<Instr>, e: ExpDesc, t: seq<nat>, f: seq<nat>)
    requires e.t == NO_JUMP && e.f == NO_JUMP && ListAt(code, e.t, t) && ListAt(code, e.f, f)
    ensures t == [] && f == []
  {
  }

  /** A numeral can be compiled again from any point. */
  lemma NumeralAgain(c: Context, g: Gen, v: View, c3: Context, k: ExpKind)
    requires Compiled(c, g, v, [], [], NO_REG) && g.pend == c.start.pend && k.VKNum? && !c3.sem.isNaN(k.nval)
    requires c3 == Context(c.sem, c.nactvar, g, NumLit(k.nval), c3.base) && c.base <= c3.base < NO_REG
    ensures Compiled(c3, g, Kind(k), [], [], NO_REG)
  {
    forall j | j in g.pend ensures Controlled(g.code, j) {
      assert Kept(c.start, g, j);
    }
    NothingEmitted(c3, k);
  }

  /** The list of the first operand is still there after the second. */
  lemma FirstListKept(c2: Context, g: Gen, v: View, l: int, l1: seq<nat>, t: seq<nat>, f: seq<nat>)
    requires Compiled(c2, g, v, t, f, NO_REG) && ListAt(c2.start.code, l, l1)
    requires forall j :: j in l1 ==> j in c2.start.pend
    ensures ListAt(g.code, l, l1)
    ensures forall j :: j in l1 ==> j !in t && j !in f
  {
    OwnListsAre(c2, g, v, t, f, NO_REG);
    forall j | j in l1 ensures j < |g.code| && g.code[j] == c2.start.code[j] && j < |c2.start.code| {
      assert Kept(c2.start, g, j);
    }
    ListAtSameJumps(c2.start.code, g.code, l, l1);
  }

  lemma ShortCircuitJoined(c1: Context, c2: Context, c: Context, op: BinOp, b: bool, l1: seq<nat>, g: Gen, g': Gen,
      v: View, t: seq<nat>, f: seq<nat>, other: int, jpc: int, waiting: seq<nat>)
    requires Follows(c1, c2, c) && c2.base == c.base && Continues(op, b) && c.x == Binary(op, c1.x, c2.x)
    requires Compiled(c1, c2.start, Branch(b), if b then [] else l1, if b then l1 else [], NO_REG)
    requires Compiled(c2, g, v, t, f, NO_REG) && v.Kind? && c2.start.pend == c.start.pend + Elems(l1)
    requires g' == g.(code := g'.code) && |g'.code| == |g.code|
    requires forall i :: 0 <= i < |g.code| ==>
               g'.code[i] == g.code[i] || (i in (if b then f else t) && g.code[i].Jmp? && g'.code[i].Jmp?)
    requires ListAt(g.code, other, if b then t else f) && ListAt(g.code, jpc, waiting) && Elems(waiting) == g.here
    requires g.pend == c2.start.pend + Elems(t) + Elems(f) + OwnJump(v)
    ensures var t', f' := if b then t else t + l1, if b then f + l1 else f;
      && Compiled(c, g', v, t', f', NO_REG) && WellFormed(g')
      && g'.pend == c.start.pend + Elems(t') + Elems(f') + OwnJump(v)
    ensures ListAt(g'.code, other, if b then t else f) && ListAt(g'.code, jpc, waiting)
  {
    hide Compiled, WellFormed, ListAt;
    var t', f' := if b then t else t + l1, if b then f + l1 else f;
    ShortCircuitCompiled(c1, c2, c, op, b, l1, g, v, t, f);
    OwnListsAre(c2, g, v, t, f, NO_REG);
    hide Continues, Follows;
    JoinedElems(b, t, f, l1);
    RelinkedLists(c, g, g', v, t', f', if b then f else t, other, if b then t else f);
  }

  lemma JoinedElems(b: bool, t: seq<nat>, f: seq<nat>, l1: seq<nat>)
    ensures var t', f' := if b then t else t + l1, if b then f + l1 else f;
      && Elems(t') + Elems(f') == Elems(t) + Elems(f) + Elems(l1)
      && (forall j :: j in t ==> j in t') && (forall j :: j in f ==> j in f')
  {
  }

  lemma NothingRemoved(code: seq<Instr>)
    ensures ValuesRemoved(code, Elems([])) == code
  {
  }

  /** One more test of the list loses its value. */
  lemma RemovedOneMore(code: seq<Instr>, s: seq<nat>, j: nat, c: seq<Instr>, c': seq<Instr>)
    requires j < |code| && code[j].Jmp? && c == ValuesRemoved(code, Elems(s)) && |c| == |code|
    requires c' == if CarriesValue(c, j) then c[j - 1 := PatchTest(c[j - 1], NO_REG)] else c
    ensures c' == ValuesRemoved(code, Elems(s + [j]))
  {
  }

  lemma TestedLists(c: Context, g: Gen, cond: bool, pc: nat, lt: int, lf: int, t: seq<nat>, f: seq<nat>)
    requires TestedAt(c, g, cond, pc, lt, lf, t, f)
    ensures ListAt(g.code, lt, t) && ListAt(g.code, lf, f) && ListAt(g.code, pc, [pc])
    ensures forall j :: j in t || j in f ==> j !in [pc]
  {
    hide ListAt, Compiled, WellFormed;
  }

  lemma ShortCircuitParts(c1: Context, c2: Context, c: Context, op: BinOp, b: bool, e1: ExpDesc, l1: seq<nat>)
    requires op == (if b then And else Or) && FirstDone(c1, c2.start, op, e1, l1) && Follows(c1, c2, c)
    requires c2.base == BaseAfter(c1, op, e1)
    ensures Compiled(c1, c2.start, Branch(b), if b then [] else l1, if b then l1 else [], NO_REG)
    ensures ListAt(c2.start.code, if b then e1.f else e1.t, l1)
    ensures c2.start.pend == c.start.pend + Elems(l1) && (forall j :: j in l1 ==> j in c2.start.pend)
    ensures c.sem == c2.sem && c.nactvar == c2.nactvar && c2.base == c.base
  {
    hide Compiled, ListAt;
  }

  lemma NothingPatched(code: seq<Instr>, vtarget: int, reg: nat, dtarget: int)
    ensures Patched(code, Elems([]), vtarget, reg, dtarget) == code
  {
  }

  /** A jump that has not been reached, and its test, are as they were. */
  lemma NotYetPatched(code: seq<Instr>, s: seq<nat>, j: nat, vtarget: int, reg: nat, dtarget: int)
    requires j < |code| && j !in s && code[j].Jmp?
    ensures var c := Patched(code, Elems(s), vtarget, reg, dtarget);
      |c| == |code| && c[j] == code[j] && (j >= 1 && code[j - 1].IsTest() ==> c[j - 1] == code[j - 1])
      && CarriesValue(c, j) == CarriesValue(code, j)
  {
  }
}
