/** How the edits the code generator makes to emitted code change what the code does. */
module LuaCodeEdits {
  import opened LuaBasics
  import opened LuaResults
  import opened LuaValues
  import opened LuaOpcodes
  import opened LuaVM

  /** The next element of a list of jumps: a jump whose offset is NO_JUMP ends the list, since
      it would lead to itself. */
  function GetJump(code: seq<Instr>, pc: nat): int
    requires pc < |code| && code[pc].Jmp?
  {
    if code[pc].sbx == NO_JUMP then NO_JUMP else Target(code, pc)
  }

  function Elems(s: seq<nat>): set<nat> {
    set j | j in s
  }

  /** The list that starts at `l` and is threaded through the offsets of its jumps is `s`. */
  ghost predicate ListAt(code: seq<Instr>, l: int, s: seq<nat>) {
    && l == (if s == [] then NO_JUMP else s[0])
    && Distinct(s)
    && forall i :: 0 <= i < |s| ==>
         && s[i] < |code|
         && code[s[i]].Jmp?
         && GetJump(code, s[i]) == if i + 1 < |s| then s[i + 1] else NO_JUMP
  }

  lemma NextInList(code: seq<Instr>, l: int, s: seq<nat>, n: nat)
    requires ListAt(code, l, s) && n < |s|
    ensures s[n] < |code| && code[s[n]].Jmp? && GetJump(code, s[n]) == if n + 1 < |s| then s[n + 1] else NO_JUMP
  {
  }

  /** `getjumpcontrol`: the test that decides whether the jump at `j` is taken. */
  function ControlAt(code: seq<Instr>, j: nat): nat
    requires j < |code|
  {
    if j >= 1 && code[j - 1].IsTest() then j - 1 else j
  }

  /** The jump carries the value of a register with it. */
  predicate CarriesValue(code: seq<Instr>, j: nat) {
    1 <= j <= |code| && code[j - 1].TestSet?
  }

  /** The jump at `j` is decided by a test. */
  predicate Controlled(code: seq<Instr>, j: nat) {
    1 <= j < |code| && code[j].Jmp? && code[j - 1].IsTest()
  }

  /** The value an expression has when it is left through the jump at `j`. */
  function ExitValue(code: seq<Instr>, j: nat, r: Regs, otherwise: bool): Value {
    if CarriesValue(code, j) && code[j - 1].b < 256 then r[code[j - 1].b] else Bool(otherwise)
  }

  /** Structure of code under construction. */
  ghost predicate WellFormed(g: Gen) {
    && (forall i :: 0 <= i < |g.code| ==> InstrInPlace(g.code, i))
    && (forall j :: j in g.pend ==> j < |g.code| && g.code[j].Jmp?)
    && (forall j :: j in g.here ==> j < |g.code| && g.code[j].Jmp?)
    && g.pend !! g.here
    && -1 <= g.lastTarget <= |g.code|
    && (g.here != {} ==> g.lastTarget == |g.code|)
    && (forall j :: 0 <= j < |g.code| && g.code[j].Jmp? && j !in g.pend && j !in g.here ==>
          JumpsWell(g.code, j, g.lastTarget))
  }

  /** A test is followed by its jump, a skipping LOADBOOL by the other one. */
  ghost predicate InstrInPlace(code: seq<Instr>, i: nat)
    requires i < |code|
  {
    && (code[i].IsTest() ==> i + 1 < |code| && code[i + 1].Jmp?)
    && (code[i].LoadBool? && code[i].skip ==> i + 1 < |code| && code[i + 1].LoadBool?)
    && (code[i].LoadNil? ==> code[i].a <= code[i].b < NO_REG)
  }

  /** A finished jump goes forward, to a marked position, and never between a test and its jump. */
  ghost predicate JumpsWell(code: seq<Instr>, j: nat, lastTarget: int)
    requires j < |code| && code[j].Jmp?
  {
    var t := Target(code, j);
    j < t <= lastTarget && (t <= |code| ==> !code[t - 1].IsTest())
  }

  /** Control can arrive at `pc` from outside. */
  ghost predicate EntryPoint(code: seq<Instr>, pc: nat) {
    pc <= |code| && (pc >= 1 ==> !code[pc - 1].IsTest())
  }

  // ------------------------------------------------------------------ patching

  function PatchTest(i: Instr, reg: nat): Instr
    requires i.TestSet?
  {
    if reg != NO_REG && reg != i.b then TestSet(reg, i.b, i.cond) else Test(i.b, i.cond)
  }

  /** `patchlistaux`, instruction by instruction: jumps of the list that carry a value are sent to
      `vtarget` and their tests told to leave the value in `reg`; the others go to `dtarget`. */
  function PatchedAt(code: seq<Instr>, l: set<nat>, vtarget: int, reg: nat, dtarget: int, i: nat): Instr
    requires i < |code|
  {
    if i in l && code[i].Jmp? then Jmp((if CarriesValue(code, i) then vtarget else dtarget) - (i + 1))
    else if i + 1 in l && code[i].TestSet? then PatchTest(code[i], reg)
    else code[i]
  }

  function Patched(code: seq<Instr>, l: set<nat>, vtarget: int, reg: nat, dtarget: int): (c: seq<Instr>)
    ensures |c| == |code|
  {
    seq(|code|, i requires 0 <= i < |code| => PatchedAt(code, l, vtarget, reg, dtarget, i))
  }

  /** `removevalues`: the tests of the list no longer keep a value. */
  function ValuesRemovedAt(code: seq<Instr>, l: set<nat>, i: nat): Instr
    requires i < |code|
  {
    if i + 1 in l && code[i].TestSet? then PatchTest(code[i], NO_REG) else code[i]
  }

  function ValuesRemoved(code: seq<Instr>, l: set<nat>): (c: seq<Instr>)
    ensures |c| == |code|
  {
    seq(|code|, i requires 0 <= i < |code| => ValuesRemovedAt(code, l, i))
  }

  /** What every action looks like, whatever the operands. */
  lemma ActionShape(sem: Semantics, k: seq<Value>, i: Instr, pc: nat, r: Regs)
    ensures var a := Act(sem, k, i, pc, r);
      && (a.Next? && a.skip ==> i.IsTest() || (i.LoadBool? && i.skip))
      && (a.Next? && !a.skip ==> !i.Jmp? && !i.IsTest())
      && (a.Via? ==> i.Jmp? || i.IsTest())
      && (i.Jmp? ==> a == Via(pc, r, Some(r)))
      && (a.Via? && i.IsTest() ==> a.j == pc + 1 && a.regs == r)
      && (a.Via? && i.IsTest() && !i.TestSet? ==> a.moved == Some(r))
  {
  }

  /** A step from a well-formed program goes forward, stays inside it, and does not end between a
      test and its jump. */
  lemma StepForward(sem: Semantics, g: Gen, pc: nat, r: Regs)
    requires WellFormed(g) && pc < |g.code|
    ensures var p := Step(sem, g, pc, r); p.Continue? ==> pc < p.pc && EntryPoint(g.code, p.pc)
  {
    assert InstrInPlace(g.code, pc);
    ActionShape(sem, g.k, g.code[pc], pc, r);
  }

  // ---- the jumps waiting for the next instruction get their destination

  ghost predicate Discharged(g: Gen, g': Gen) {
    g' == g.(code := Patched(g.code, g.here, |g.code|, NO_REG, |g.code|), here := {})
  }

  lemma DischargeStep(sem: Semantics, g: Gen, g': Gen, pc: nat, r: Regs)
    requires WellFormed(g) && pc < |g.code| && Discharged(g, g')
    ensures var p, p' := Step(sem, g, pc, r), Step(sem, g', pc, r);
      p' == if p.Done? && p.outcome.Here? then Continue(|g.code|, p.outcome.regs) else p
  {
    assert InstrInPlace(g.code, pc);
    ActionShape(sem, g.k, g.code[pc], pc, r);
    ActionShape(sem, g.k, g'.code[pc], pc, r);
  }

  /** Discharging changes no run. */
  lemma {:induction false} DischargeKeepsRuns(sem: Semantics, g: Gen, g': Gen, pc: nat, r: Regs)
    requires WellFormed(g) && pc <= |g.code| && Discharged(g, g')
    ensures Exec(sem, g', pc, r) == Exec(sem, g, pc, r)
    decreases |g.code| - pc
  {
    if pc < |g.code| {
      DischargeStep(sem, g, g', pc, r);
      StepForward(sem, g, pc, r);
      hide Step;
      hide WellFormed;
      var p := Step(sem, g, pc, r);
      if p.Continue? {
        DischargeKeepsRuns(sem, g, g', p.pc, p.regs);
      }
    }
  }

  // ---- code is added at the end

  ghost predicate Extends(g: Gen, g': Gen) {
    && g.here == {}
    && |g.code| <= |g'.code|
    && (forall i :: 0 <= i < |g.code| ==> g'.code[i] == g.code[i])
    && g.k <= g'.k
    && (forall j :: 0 <= j < |g.code| ==> (j in g'.pend <==> j in g.pend) && j !in g'.here)
  }

  lemma ActionWithMoreConstants(sem: Semantics, k: seq<Value>, k': seq<Value>, i: Instr, pc: nat, r: Regs)
    requires k <= k' && Act(sem, k, i, pc, r) != Invalid
    ensures Act(sem, k', i, pc, r) == Act(sem, k, i, pc, r)
  {
  }

  lemma ExtendStep(sem: Semantics, g: Gen, g': Gen, pc: nat, r: Regs)
    requires WellFormed(g) && pc < |g.code| && Extends(g, g')
    requires Step(sem, g, pc, r) != Done(Stuck)
    ensures Step(sem, g', pc, r) == Step(sem, g, pc, r)
  {
    assert InstrInPlace(g.code, pc);
    ActionShape(sem, g.k, g.code[pc], pc, r);
    ActionWithMoreConstants(sem, g.k, g'.k, g.code[pc], pc, r);
    hide Act;
  }

  /** A run of longer code is a run of the shorter code, continued from its end. */
  lemma {:induction false} ExtendContinuesRuns(sem: Semantics, g: Gen, g': Gen, pc: nat, r: Regs)
    requires WellFormed(g) && pc <= |g.code| && Extends(g, g')
    requires Exec(sem, g, pc, r) != Stuck
    ensures var o := Exec(sem, g, pc, r);
      Exec(sem, g', pc, r) == if o.Here? then Exec(sem, g', |g.code|, o.regs) else o
    decreases |g.code| - pc
  {
    if pc < |g.code| {
      ExtendStep(sem, g, g', pc, r);
      StepForward(sem, g, pc, r);
      ExtendHasNoHere(sem, g, pc, r);
      hide Step;
      hide WellFormed;
      var p := Step(sem, g, pc, r);
      if p.Continue? {
        ExtendContinuesRuns(sem, g, g', p.pc, p.regs);
      }
    }
  }

  lemma ExtendHasNoHere(sem: Semantics, g: Gen, pc: nat, r: Regs)
    requires pc < |g.code| && g.here == {}
    ensures var p := Step(sem, g, pc, r); p.Done? ==> !p.outcome.Here?
  {
  }

  // ---- only the links between open jumps change

  ghost predicate Relinked(g: Gen, g': Gen) {
    && g' == g.(code := g'.code)
    && |g'.code| == |g.code|
    && forall i :: 0 <= i < |g.code| ==>
         g'.code[i] == g.code[i] || ((i in g.pend || i in g.here) && g.code[i].Jmp? && g'.code[i].Jmp?)
  }

  lemma RelinkStep(sem: Semantics, g: Gen, g': Gen, pc: nat, r: Regs)
    requires WellFormed(g) && pc < |g.code| && Relinked(g, g')
    ensures Step(sem, g', pc, r) == Step(sem, g, pc, r)
  {
    assert InstrInPlace(g.code, pc);
    ActionShape(sem, g.k, g.code[pc], pc, r);
    ActionShape(sem, g.k, g'.code[pc], pc, r);
    hide Act;
  }

  lemma {:induction false} RelinkKeepsRuns(sem: Semantics, g: Gen, g': Gen, pc: nat, r: Regs)
    requires WellFormed(g) && pc <= |g.code| && Relinked(g, g')
    ensures Exec(sem, g', pc, r) == Exec(sem, g, pc, r)
    decreases |g.code| - pc
  {
    if pc < |g.code| {
      RelinkStep(sem, g, g', pc, r);
      StepForward(sem, g, pc, r);
      hide Step;
      hide WellFormed;
      var p := Step(sem, g, pc, r);
      if p.Continue? {
        RelinkKeepsRuns(sem, g, g', p.pc, p.regs);
      }
    }
  }

  // ---- open jumps no longer carry a value

  ghost predicate Unvalued(g: Gen, g': Gen, l: set<nat>) {
    l <= g.pend && g' == g.(code := ValuesRemoved(g.code, l))
  }

  lemma UnvalueStep(sem: Semantics, g: Gen, g': Gen, l: set<nat>, pc: nat, r: Regs)
    requires WellFormed(g) && pc < |g.code| && Unvalued(g, g', l)
    ensures Step(sem, g', pc, r) == Step(sem, g, pc, r)
  {
    assert InstrInPlace(g.code, pc);
    ActionShape(sem, g.k, g.code[pc], pc, r);
    ActionShape(sem, g.k, g'.code[pc], pc, r);
  }

  lemma {:induction false} UnvalueKeepsRuns(sem: Semantics, g: Gen, g': Gen, l: set<nat>, pc: nat, r: Regs)
    requires WellFormed(g) && pc <= |g.code| && Unvalued(g, g', l)
    ensures Exec(sem, g', pc, r) == Exec(sem, g, pc, r)
    decreases |g.code| - pc
  {
    if pc < |g.code| {
      UnvalueStep(sem, g, g', l, pc, r);
      StepForward(sem, g, pc, r);
      hide Step;
      hide WellFormed;
      var p := Step(sem, g, pc, r);
      if p.Continue? {
        UnvalueKeepsRuns(sem, g, g', l, p.pc, p.regs);
      }
    }
  }

  // ---- open jumps are told to go to the next position

  ghost predicate SentHere(g: Gen, g': Gen, l: set<nat>) {
    l <= g.pend && g' == g.(pend := g.pend - l, here := g.here + l, lastTarget := |g.code|)
  }

  function ArriveHere(o: Outcome, l: set<nat>): Outcome {
    if o.Exit? && o.j in l then Here(o.regs) else o
  }

  lemma SendHereStep(sem: Semantics, g: Gen, g': Gen, l: set<nat>, pc: nat, r: Regs)
    requires WellFormed(g) && pc < |g.code| && SentHere(g, g', l)
    ensures var p := Step(sem, g, pc, r);
      Step(sem, g', pc, r) == if p.Done? then Done(ArriveHere(p.outcome, l)) else p
  {
    ActionShape(sem, g.k, g.code[pc], pc, r);
    hide Act;
  }

  /** Runs that left through one of these jumps now arrive at the next position. */
  lemma {:induction false} SendHereRedirectsRuns(sem: Semantics, g: Gen, g': Gen, l: set<nat>, pc: nat, r: Regs)
    requires WellFormed(g) && pc <= |g.code| && SentHere(g, g', l)
    ensures Exec(sem, g', pc, r) == ArriveHere(Exec(sem, g, pc, r), l)
    decreases |g.code| - pc
  {
    if pc < |g.code| {
      SendHereStep(sem, g, g', l, pc, r);
      StepForward(sem, g, pc, r);
      hide Step;
      hide WellFormed;
      var p := Step(sem, g, pc, r);
      if p.Continue? {
        SendHereRedirectsRuns(sem, g, g', l, p.pc, p.regs);
      }
    }
  }

  // ---- open jumps are patched to leave a value in a register and go to the end

  /** The position `d` is a LOADBOOL after which the code ends. */
  ghost predicate LoadsAtEnd(code: seq<Instr>, d: int, reg: nat, v: bool) {
    && 0 <= d < |code|
    && code[d].LoadBool? && code[d].a == reg && code[d].v == v
    && d + (if code[d].skip then 2 else 1) == |code|
  }

  ghost predicate Resolved(g: Gen, g': Gen, l: set<nat>, reg: nat, d: int, v: bool) {
    && l <= g.pend
    && (forall j :: j in l ==> Controlled(g.code, j))
    && reg < NO_REG
    && g.lastTarget == |g.code|
    && (forall j :: j in l && !CarriesValue(g.code, j) ==> j < d && LoadsAtEnd(g.code, d, reg, v))
    && g' == g.(code := Patched(g.code, l, |g.code|, reg, d), pend := g.pend - l)
  }

  function ArriveWithValue(o: Outcome, code: seq<Instr>, l: set<nat>, reg: nat, v: bool): Outcome {
    if o.Exit? && o.j in l then Here(SetReg(o.regs, reg, ExitValue(code, o.j, o.regs, v))) else o
  }

  lemma LoadAtEndRuns(sem: Semantics, g: Gen, d: nat, reg: nat, v: bool, r: Regs)
    requires reg < NO_REG && LoadsAtEnd(g.code, d, reg, v)
    ensures Exec(sem, g, d, r) == Here(r[reg := Bool(v)])
  {
    assert Step(sem, g, d, r) == Continue(|g.code|, r[reg := Bool(v)]);
  }

  lemma ResolveStepElsewhere(sem: Semantics, g: Gen, g': Gen, l: set<nat>, reg: nat, d: int, v: bool, pc: nat, r: Regs)
    requires WellFormed(g) && pc < |g.code| && EntryPoint(g.code, pc) && Resolved(g, g', l, reg, d, v)
    requires !(g.code[pc].IsTest() && pc + 1 in l)
    ensures var p := Step(sem, g, pc, r);
      && Step(sem, g', pc, r) == p
      && (p.Done? && p.outcome.Exit? ==> p.outcome.j !in l)
  {
    assert InstrInPlace(g.code, pc);
    assert pc !in l;
    assert g'.code[pc] == g.code[pc];
    ActionShape(sem, g.k, g.code[pc], pc, r);
    hide Act;
  }

  lemma ResolveStepTest(sem: Semantics, g: Gen, g': Gen, l: set<nat>, reg: nat, d: int, v: bool, pc: nat, r: Regs)
    requires WellFormed(g) && pc < |g.code| && Resolved(g, g', l, reg, d, v)
    requires g.code[pc].IsTest() && pc + 1 in l
    ensures var p, p' := Step(sem, g, pc, r), Step(sem, g', pc, r);
      if p == Done(Exit(pc + 1, r)) then
        (if CarriesValue(g.code, pc + 1)
         then p' == Continue(|g.code|, SetReg(r, reg, ExitValue(g.code, pc + 1, r, v)))
         else p' == Continue(d, r))
      else p' == p && (p.Done? ==> !p.outcome.Exit?)
  {
    assert InstrInPlace(g.code, pc);
    var i, i' := g.code[pc], g'.code[pc];
    assert pc !in l;
    assert i' == if i.TestSet? then PatchTest(i, reg) else i;
    ActionShape(sem, g.k, i, pc, r);
    ActionShape(sem, g.k, i', pc, r);
    if i.TestSet? {
      if i.b < 256 {
        assert r[i.b := r[i.b]] == r;
      }
    } else {
      hide Act;
    }
  }

  /** Runs that left through one of these jumps now end with its value in `reg`. */
  lemma {:induction false} ResolveRedirectsRuns(sem: Semantics, g: Gen, g': Gen, l: set<nat>, reg: nat, d: int, v: bool,
      pc: nat, r: Regs)
    requires WellFormed(g) && EntryPoint(g.code, pc) && Resolved(g, g', l, reg, d, v)
    ensures Exec(sem, g', pc, r) == ArriveWithValue(Exec(sem, g, pc, r), g.code, l, reg, v)
    decreases |g.code| - pc
  {
    if pc < |g.code| {
      StepForward(sem, g, pc, r);
      var p := Step(sem, g, pc, r);
      if g.code[pc].IsTest() && pc + 1 in l {
        ResolveStepTest(sem, g, g', l, reg, d, v, pc, r);
        if p == Done(Exit(pc + 1, r)) && !CarriesValue(g.code, pc + 1) {
          assert pc + 1 < d && LoadsAtEnd(g.code, d, reg, v);
          assert g'.code[d] == g.code[d];
          LoadAtEndRuns(sem, g', d, reg, v, r);
        }
      } else {
        ResolveStepElsewhere(sem, g, g', l, reg, d, v, pc, r);
      }
      hide Step;
      hide WellFormed;
      if p.Continue? {
        ResolveRedirectsRuns(sem, g, g', l, reg, d, v, p.pc, p.regs);
      }
    }
  }

  // ---- constants are added

  lemma MoreConstantsStep(sem: Semantics, g: Gen, k': seq<Value>, pc: nat, r: Regs)
    requires pc < |g.code| && g.k <= k' && Step(sem, g, pc, r) != Done(Stuck)
    ensures Step(sem, g.(k := k'), pc, r) == Step(sem, g, pc, r)
  {
    ActionWithMoreConstants(sem, g.k, k', g.code[pc], pc, r);
    hide Act;
  }

  lemma {:induction false} MoreConstantsKeepRuns(sem: Semantics, g: Gen, k': seq<Value>, pc: nat, r: Regs)
    requires pc <= |g.code| && g.k <= k' && Exec(sem, g, pc, r) != Stuck
    ensures Exec(sem, g.(k := k'), pc, r) == Exec(sem, g, pc, r)
    decreases |g.code| - pc
  {
    if pc < |g.code| {
      MoreConstantsStep(sem, g, k', pc, r);
      hide Step;
      var p := Step(sem, g, pc, r);
      if p.Continue? && pc < p.pc <= |g.code| {
        MoreConstantsKeepRuns(sem, g, k', p.pc, p.regs);
      }
    }
  }

  // ---- the last instruction, a LOADNIL, is extended to one more register

  ghost predicate NilMerged(g: Gen, g': Gen, reg: nat) {
    var m := |g.code|;
    && m > 0 && g.here == {} && g.lastTarget < m
    && g.code[m - 1].LoadNil?
    && g.code[m - 1].a <= reg <= g.code[m - 1].b + 1
    && reg < NO_REG
    && g' == g.(code := g.code[m - 1 := LoadNil(g.code[m - 1].a, if reg > g.code[m - 1].b then reg
       else g.code[m - 1].b)])
  }

  function ClearedToo(o: Outcome, reg: nat): Outcome {
    if o.Here? then Here(SetReg(o.regs, reg, Nil)) else o
  }

  lemma NilMergeStep(sem: Semantics, g: Gen, g': Gen, reg: nat, pc: nat, r: Regs)
    requires WellFormed(g) && pc < |g.code| && NilMerged(g, g', reg)
    ensures var p, p' := Step(sem, g, pc, r), Step(sem, g', pc, r);
      if pc == |g.code| - 1
      then p.Continue? && p.pc == |g.code| && p' == Continue(p.pc, SetReg(p.regs, reg, Nil))
      else p' == p && (p.Continue? ==> p.pc < |g.code|) && (p.Done? ==> !p.outcome.Here?)
  {
    assert InstrInPlace(g.code, pc);
    ActionShape(sem, g.k, g.code[pc], pc, r);
    if pc == |g.code| - 1 {
      assert Step(sem, g, pc, r) == Continue(|g.code|, ClearRange(r, g.code[pc].a, g.code[pc].b));
      assert ClearRange(r, g'.code[pc].a, g'.code[pc].b) == ClearRange(r, g.code[pc].a, g.code[pc].b)[reg := Nil];
    } else {
      hide Act;
    }
  }

  /** Every run that gets to the end passes through the LOADNIL: the label test of `luaK_nil`
      makes the merge sound. */
  lemma {:induction false} NilMergeClearsRegister(sem: Semantics, g: Gen, g': Gen, reg: nat, pc: nat, r: Regs)
    requires WellFormed(g) && pc < |g.code| && NilMerged(g, g', reg)
    ensures Exec(sem, g', pc, r) == ClearedToo(Exec(sem, g, pc, r), reg)
    decreases |g.code| - pc
  {
    NilMergeStep(sem, g, g', reg, pc, r);
    StepForward(sem, g, pc, r);
    hide Step;
    hide WellFormed;
    var p := Step(sem, g, pc, r);
    if p.Continue? && p.pc < |g.code| {
      NilMergeClearsRegister(sem, g, g', reg, p.pc, p.regs);
    }
  }

  // ---- emission: the waiting jumps are discharged, then instructions are added

  function Discharge(g: Gen): Gen {
    g.(code := Patched(g.code, g.here, |g.code|, NO_REG, |g.code|), here := {})
  }

  function Emit(g: Gen, i: Instr): Gen {
    Discharge(g).(code := Discharge(g).code + [i])
  }

  /** `condjump`: a test and its jump, which stays open. */
  function EmitTest(g: Gen, i: Instr): Gen {
    Discharge(g).(code := Discharge(g).code + [i, Jmp(NO_JUMP)], pend := g.pend + {|g.code| + 1})
  }

  predicate IsPlain(i: Instr) {
    !i.IsTest() && !i.Jmp? && (i.LoadBool? ==> !i.skip) && (i.LoadNil? ==> i.a <= i.b < NO_REG)
  }

  lemma DischargeForm(g: Gen)
    requires WellFormed(g)
    ensures WellFormed(Discharge(g))
    ensures forall i :: 0 <= i < |g.code| ==> Discharge(g).code[i].IsTest() == g.code[i].IsTest()
    ensures forall i :: 0 <= i < |g.code| && i !in g.here && i + 1 !in g.here ==> Discharge(g).code[i] == g.code[i]
  {
    var d := Discharge(g);
    forall i | 0 <= i < |d.code| ensures InstrInPlace(d.code, i) {
      assert InstrInPlace(g.code, i);
    }
    forall j | 0 <= j < |d.code| && d.code[j].Jmp? && j !in d.pend && j !in d.here
      ensures JumpsWell(d.code, j, d.lastTarget)
    {
      if j in g.here {
        assert InstrInPlace(g.code, |g.code| - 1);
      } else {
        assert JumpsWell(g.code, j, g.lastTarget);
      }
    }
  }

  lemma AppendForm(d: Gen, g: Gen)
    requires WellFormed(d) && d.here == {} && g.here == {}
    requires |d.code| <= |g.code| && g.code[..|d.code|] == d.code && g.lastTarget == d.lastTarget
    requires forall i :: |d.code| <= i < |g.code| ==> InstrInPlace(g.code, i)
    requires d.pend <= g.pend
    requires forall j :: j in g.pend && j !in d.pend ==> |d.code| <= j < |g.code| && g.code[j].Jmp?
    requires forall j :: |d.code| <= j < |g.code| && g.code[j].Jmp? ==> j in g.pend
    ensures WellFormed(g)
  {
    forall i | 0 <= i < |g.code| ensures InstrInPlace(g.code, i) {
      if i < |d.code| {
        assert InstrInPlace(d.code, i);
      }
    }
    forall j | 0 <= j < |g.code| && g.code[j].Jmp? && j !in g.pend && j !in g.here
      ensures JumpsWell(g.code, j, g.lastTarget)
    {
      assert j < |d.code|;
      assert JumpsWell(d.code, j, d.lastTarget);
    }
  }

  lemma EmitForm(g: Gen, i: Instr)
    requires WellFormed(g) && IsPlain(i)
    ensures WellFormed(Emit(g, i))
  {
    DischargeForm(g);
    AppendForm(Discharge(g), Emit(g, i));
  }

  lemma EmitTestForm(g: Gen, i: Instr)
    requires WellFormed(g) && i.IsTest()
    ensures WellFormed(EmitTest(g, i))
  {
    DischargeForm(g);
    AppendForm(Discharge(g), EmitTest(g, i));
  }

  /** Runs of code to which something has been emitted. */
  lemma EmittedRuns(sem: Semantics, g: Gen, g': Gen, pc: nat, r: Regs)
    requires WellFormed(g) && pc <= |g.code|
    requires Extends(Discharge(g), g')
    requires Exec(sem, g, pc, r) != Stuck
    ensures var o := Exec(sem, g, pc, r);
      Exec(sem, g', pc, r) == if o.Here? then Exec(sem, g', |g.code|, o.regs) else o
  {
    DischargeForm(g);
    DischargeKeepsRuns(sem, g, Discharge(g), pc, r);
    ExtendContinuesRuns(sem, Discharge(g), g', pc, r);
  }
}
