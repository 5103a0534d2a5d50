/** The instructions that expressions compile to (lopcodes.h). An operand B or C of kind RK
    names a constant when it has the bit BITRK, a register otherwise. */
module LuaOpcodes {
  import opened LuaValues

  const NO_JUMP: int := -1
  const BITRK: nat := 256
  const MAXINDEXRK: nat := 255
  const MAXARG_BX: nat := 262143
  const MAXARG_SBX: nat := 131071

  datatype Instr =
    | Move(a: nat, b: nat)
    | LoadK(a: nat, bx: nat)
    | LoadBool(a: nat, v: bool, skip: bool)
    | LoadNil(a: nat, b: nat)
    | GetUpval(a: nat, b: nat)
    | GetGlobal(a: nat, bx: nat)
    | ArithOp(op: ArithOp, a: nat, b: nat, c: nat)
    | Unm(a: nat, b: nat)
    | Not(a: nat, b: nat)
    | Len(a: nat, b: nat)
    | Concat(a: nat, b: nat, c: nat)
    | Jmp(sbx: int)
    | Compare(cmp: CmpOp, cond: bool, b: nat, c: nat)
    | Test(a: nat, cond: bool)
    | TestSet(a: nat, b: nat, cond: bool)
  {
    /** `testTMode`: the next instruction is a jump, taken or skipped by this one. */
    predicate IsTest() {
      Compare? || Test? || TestSet?
    }

    /** The instructions whose destination register can still be chosen after they are emitted. */
    predicate IsRelocatable() {
      GetUpval? || GetGlobal? || ArithOp? || Unm? || Not? || Len? || Concat?
    }

    function WithA(r: nat): Instr
      requires IsRelocatable()
    {
      match this
      case GetUpval(_, b) => GetUpval(r, b)
      case GetGlobal(_, bx) => GetGlobal(r, bx)
      case ArithOp(op, _, b, c) => ArithOp(op, r, b, c)
      case Unm(_, b) => Unm(r, b)
      case Not(_, b) => Not(r, b)
      case Len(_, b) => Len(r, b)
      case Concat(_, b, c) => Concat(r, b, c)
    }
  }

  /** The same comparison with the opposite expectation. */
  function Negated(i: Instr): Instr
    requires i.Compare?
  {
    Compare(i.cmp, !i.cond, i.b, i.c)
  }

  predicate IsK(x: nat) { x >= BITRK }
  function IndexK(x: nat): nat requires IsK(x) { x - BITRK }
  function RKAsK(x: nat): nat { x + BITRK }
}

/** The interpreter loop, restricted to those instructions. */
module LuaVM {
  import opened LuaResults
  import opened LuaValues
  import opened LuaOpcodes

  /** What one instruction does to a frame. A taken test, and a plain jump, passes through the
      jump instruction at `j`: `regs` are the registers when it gets there and `moved` the
      registers after TESTSET has copied its operand. */
  datatype Action =
    | Next(skip: bool, regs: Regs)
    | Via(j: nat, regs: Regs, moved: Option<Regs>)
    | Raise
    | Invalid

  function RK(k: seq<Value>, r: Regs, x: nat): Option<Value> {
    if IsK(x) then (if IndexK(x) < |k| then Some(k[IndexK(x)]) else None) else Some(r[x])
  }

  function SetReg(r: Regs, a: nat, v: Value): Regs {
    if a < NO_REG then r[a := v] else r
  }

  /** OP_LOADNIL counts down from B to A, and clears B even if A is above it. */
  function ClearRange(r: Regs, a: nat, b: nat): Regs {
    seq(256, i requires 0 <= i < 256 => if a <= i <= b || i == b then Nil else r[i])
  }

  /** The value computed by a relocatable instruction: the outer option is absent when an operand
      is out of range, the inner one when the operation raises an error. */
  function Computed(sem: Semantics, k: seq<Value>, i: Instr, r: Regs): Option<Option<Value>>
    requires i.IsRelocatable()
  {
    match i
    case GetUpval(_, b) => Some(Some(sem.upvalue(b)))
    case GetGlobal(_, bx) => if bx < |k| && k[bx].Str? then Some(sem.global(k[bx].s)) else None
    case ArithOp(op, _, b, c) =>
      var v, w := RK(k, r, b), RK(k, r, c);
      if v.None? || w.None? then None else Some(sem.Arith(op, v.value, w.value))
    case Unm(_, b) => if b < 256 then Some(sem.Neg(r[b])) else None
    case Not(_, b) => if b < 256 then Some(Some(Bool(IsFalse(r[b])))) else None
    case Len(_, b) => if b < 256 then Some(sem.length(r[b])) else None
    case Concat(_, b, c) => if b < c < 256 then Some(sem.ConcatAll(r[b..c + 1])) else None
  }

  /** The registers after the operands have been used: concatenation works in the registers of its operands. */
  function Used(sem: Semantics, i: Instr, r: Regs): (r': Regs)
    ensures forall j :: 0 <= j < 256 && !(i.Concat? && i.b <= j <= i.c) ==> r'[j] == r[j]
  {
    if i.Concat? && i.b < i.c < 256 then Overwritten(sem, i.b, i.c, r) else r
  }

  function Overwritten(sem: Semantics, b: nat, c: nat, r: Regs): Regs
    requires b < c < 256
  {
    var s: seq<Value> := seq(256, j requires 0 <= j < 256 =>
      if b <= j <= c then sem.leftover(r[b..c + 1], j - b) else r[j]);
    s
  }

  /** The outcome of a comparison; the options as in `Computed`. */
  function Compared(sem: Semantics, k: seq<Value>, i: Instr, r: Regs): Option<Option<bool>>
    requires i.Compare?
  {
    var v, w := RK(k, r, i.b), RK(k, r, i.c);
    if v.None? || w.None? then None else Some(sem.Compare(i.cmp, v.value, w.value))
  }

  function Act(sem: Semantics, k: seq<Value>, i: Instr, pc: nat, r: Regs): Action {
    match i
    case Move(a, b) => if a < NO_REG && b < 256 then Next(false, r[a := r[b]]) else Invalid
    case LoadK(a, bx) => if a < NO_REG && bx < |k| then Next(false, r[a := k[bx]]) else Invalid
    case LoadBool(a, v, skip) => if a < NO_REG then Next(skip, r[a := Bool(v)]) else Invalid
    case LoadNil(a, b) => if a < NO_REG && b < NO_REG then Next(false, ClearRange(r, a, b)) else Invalid
    case Jmp(_) => Via(pc, r, Some(r))
    case Compare(_, cond, _, _) =>
      var res := Compared(sem, k, i, r);
      if res.None? then Invalid
      else if res.value.None? then Raise
      else if res.value.value == cond then Via(pc + 1, r, Some(r))
      else Next(true, r)
    case Test(a, c) =>
      if a >= 256 then Invalid
      else if IsFalse(r[a]) != c then Via(pc + 1, r, Some(r))
      else Next(true, r)
    case TestSet(a, b, c) =>
      if b >= 256 then Invalid
      else if IsFalse(r[b]) != c then Via(pc + 1, r, if a < NO_REG then Some(r[a := r[b]]) else None)
      else Next(true, r)
    case _ =>
      var v := Computed(sem, k, i, r);
      if v.None? || i.a >= NO_REG then Invalid
      else if v.value.None? then Raise
      else Next(false, Used(sem, i, r)[i.a := v.value.value])
  }

  /** Code under construction. The jumps in `pend` and `here` have no destination yet: those in
      `here` are waiting for the next instruction to be emitted. `lastTarget` is the last position
      marked as the target of a jump. */
  datatype Gen = Gen(code: seq<Instr>, k: seq<Value>, pend: set<nat>, here: set<nat>, lastTarget: int)

  /** How a run ends: at the end of the code, at a jump whose destination is still open, in a
      run-time error, or by leaving the fragment (a bad operand or a jump that is not forward). */
  datatype Outcome = Here(regs: Regs) | Exit(j: nat, regs: Regs) | Fault | Stuck

  function Target(code: seq<Instr>, j: nat): int
    requires j < |code| && code[j].Jmp?
  {
    j + 1 + code[j].sbx
  }

  datatype Progress = Continue(pc: nat, regs: Regs) | Done(outcome: Outcome)

  /** One instruction, or a test together with the jump that follows it. */
  function Step(sem: Semantics, g: Gen, pc: nat, r: Regs): Progress
    requires pc < |g.code|
  {
    match Act(sem, g.k, g.code[pc], pc, r)
    case Next(skip, r') => Continue(pc + (if skip then 2 else 1), r')
    case Via(j, r', moved) =>
      if j in g.here then Done(Here(r'))
      else if j in g.pend then Done(Exit(j, r'))
      else if j >= |g.code| || !g.code[j].Jmp? || moved.None? || Target(g.code, j) <= pc then Done(Stuck)
      else Continue(Target(g.code, j), moved.value)
    case Raise => Done(Fault)
    case Invalid => Done(Stuck)
  }

  /** Runs the code from `pc` to its end. With no open jumps this is the interpreter itself. */
  function Exec(sem: Semantics, g: Gen, pc: nat, r: Regs): Outcome
    decreases |g.code| - pc
  {
    if pc == |g.code| then Here(r)
    else if pc > |g.code| then Stuck
    else
      var p := Step(sem, g, pc, r);
      if p.Done? then p.outcome
      else if p.pc <= pc then Stuck
      else Exec(sem, g, p.pc, p.regs)
  }

  /** The main loop of the interpreter on finished code. */
  method Execute(sem: Semantics, code: seq<Instr>, k: seq<Value>, start: nat, frame: Regs) returns (o: Outcome)
    ensures o == Exec(sem, Gen(code, k, {}, {}, 0), start, frame)
  {
    var pc, r := start, frame;
    ghost var g := Gen(code, k, {}, {}, 0);
    while pc < |code|
      invariant Exec(sem, g, pc, r) == Exec(sem, g, start, frame)
      decreases |code| - pc
    {
      match Act(sem, k, code[pc], pc, r)
      case Next(skip, r') =>
        pc, r := pc + (if skip then 2 else 1), r';
      case Via(j, r', moved) =>
        if j >= |code| || !code[j].Jmp? || moved.None? || Target(code, j) <= pc {
          return Stuck;
        }
        pc, r := Target(code, j), moved.value;
      case Raise =>
        return Fault;
      case Invalid =>
        return Stuck;
    }
    return if pc == |code| then Here(r) else Stuck;
  }
}
