/** Putting the value of an expression with open jumps into a register (`exp2reg`, `luaK_nil`). */
module LuaToRegister {
  import opened LuaValues
  import opened LuaExpressions
  import opened LuaOpcodes
  import opened LuaVM
  import opened LuaCodeEdits
  import opened LuaDenotation

  // ---- the two LOADBOOLs

  /** `exp2reg` after a value that is already in place: a jump over the two LOADBOOLs, which joins
      the jumps waiting for the next position. `link` is the offset that chains it to them. */
  function BoolsSkipped(g: Gen, reg: nat, link: int): Gen {
    var m := |g.code|;
    Gen(g.code + [Jmp(link), LoadBool(reg, false, true), LoadBool(reg, true, false)],
        g.k, g.pend, g.here + {m}, m + 3)
  }

  lemma BoolsSkippedForm(g: Gen, reg: nat, link: int)
    requires WellFormed(g)
    ensures WellFormed(BoolsSkipped(g, reg, link))
  {
    var g' := BoolsSkipped(g, reg, link);
    forall i | 0 <= i < |g'.code| ensures InstrInPlace(g'.code, i) {
      if i < |g.code| {
        assert InstrInPlace(g.code, i);
      }
    }
    forall j | 0 <= j < |g'.code| && g'.code[j].Jmp? && j !in g'.pend && j !in g'.here
      ensures JumpsWell(g'.code, j, g'.lastTarget)
    {
      assert JumpsWell(g.code, j, g.lastTarget);
    }
  }

  lemma BoolsSkippedStep(sem: Semantics, g: Gen, reg: nat, link: int, pc: nat, r: Regs)
    requires WellFormed(g) && pc < |g.code|
    ensures Step(sem, BoolsSkipped(g, reg, link), pc, r) == Step(sem, g, pc, r)
  {
    assert InstrInPlace(g.code, pc);
    ActionShape(sem, g.k, g.code[pc], pc, r);
    assert BoolsSkipped(g, reg, link).code[pc] == g.code[pc];
    hide Act;
  }

  lemma {:induction false} BoolsSkippedRuns(sem: Semantics, g: Gen, reg: nat, link: int, pc: nat, r: Regs)
    requires WellFormed(g) && pc <= |g.code|
    ensures Exec(sem, BoolsSkipped(g, reg, link), pc, r) == Exec(sem, g, pc, r)
    decreases |g.code| - pc
  {
    if pc < |g.code| {
      BoolsSkippedStep(sem, g, reg, link, pc, r);
      StepForward(sem, g, pc, r);
      hide Step;
      hide WellFormed;
      var p := Step(sem, g, pc, r);
      if p.Continue? {
        BoolsSkippedRuns(sem, g, reg, link, p.pc, p.regs);
      }
    }
  }

  /** After a comparison: falling through, it is false. */
  function BoolsReached(g: Gen, reg: nat): Gen {
    g.(code := g.code + [LoadBool(reg, false, true), LoadBool(reg, true, false)], lastTarget := |g.code| + 2)
  }

  lemma BoolsReachedForm(g: Gen, reg: nat)
    requires WellFormed(g) && g.here == {}
    ensures WellFormed(BoolsReached(g, reg))
  {
    var g' := BoolsReached(g, reg);
    forall i | 0 <= i < |g'.code| ensures InstrInPlace(g'.code, i) {
      if i < |g.code| {
        assert InstrInPlace(g.code, i);
      }
    }
    forall j | 0 <= j < |g'.code| && g'.code[j].Jmp? && j !in g'.pend && j !in g'.here
      ensures JumpsWell(g'.code, j, g'.lastTarget)
    {
      assert JumpsWell(g.code, j, g.lastTarget);
    }
  }

  lemma KeptInPlace(c: Context, g: Gen, g': Gen, v: View, v': View, t: seq<nat>, f: seq<nat>)
    requires Formed(c, g, v, t, f) && WellFormed(g') && Shape(c, g', v')
    requires Before(g, v) == g && Before(g', v') == g'
    requires |g.code| <= |g'.code| && g'.code[..|g.code|] == g.code && g'.k == g.k && g.pend <= g'.pend
    requires g.lastTarget <= g'.lastTarget
    ensures Formed(c, g', v', t, f)
  {
    forall j | j in c.start.pend ensures Kept(c.start, g', j) {
      assert Kept(c.start, g, j);
    }
  }

  lemma BoolsSkippedCompiled(c: Context, g: Gen, t: seq<nat>, f: seq<nat>, reg: nat, link: int, w: nat)
    requires Compiled(c, g, Kind(VNonReloc(reg)), t, f, w)
    ensures Compiled(c, BoolsSkipped(g, reg, link), Kind(VNonReloc(reg)), t, f, w)
  {
    var g' := BoolsSkipped(g, reg, link);
    BoolsSkippedForm(g, reg, link);
    KeptInPlace(c, g, g', Kind(VNonReloc(reg)), Kind(VNonReloc(reg)), t, f);
    forall s: nat, r: Regs | Start(c, s, r) ensures Simulates(c, g', Kind(VNonReloc(reg)), t, f, w, s, r) {
      Starting(c, g, Kind(VNonReloc(reg)), t, f, s, r);
      BoolsSkippedRuns(c.sem, g, reg, link, s, r);
      assert Simulates(c, g, Kind(VNonReloc(reg)), t, f, w, s, r);
      assert forall j :: j in t || j in f ==> Controlled(g.code, j);
      hide Formed;
      hide WellFormed;
      hide Exec;
      hide Eval;
    }
  }

  lemma BoolsReachedCompiled(c: Context, g: Gen, t: seq<nat>, f: seq<nat>, reg: nat, w: nat)
    requires Compiled(c, g, Kind(VFalse), t, f, NO_REG) && g.here == {}
    requires Destination(c, reg, w)
    ensures Compiled(c, BoolsReached(g, reg), Kind(VNonReloc(reg)), t, f, w)
  {
    var g' := BoolsReached(g, reg);
    BoolsReachedForm(g, reg);
    KeptInPlace(c, g, g', Kind(VFalse), Kind(VNonReloc(reg)), t, f);
    assert Extends(g, g');
    forall s: nat, r: Regs | Start(c, s, r) ensures Simulates(c, g', Kind(VNonReloc(reg)), t, f, w, s, r) {
      BoolsReachedMeaning(c, g, t, f, reg, w, s, r);
    }
  }

  lemma BoolsReachedMeaning(c: Context, g: Gen, t: seq<nat>, f: seq<nat>, reg: nat, w: nat, s: nat, r: Regs)
    requires Compiled(c, g, Kind(VFalse), t, f, NO_REG) && g.here == {}
    requires Destination(c, reg, w) && Start(c, s, r)
    ensures Simulates(c, BoolsReached(g, reg), Kind(VNonReloc(reg)), t, f, w, s, r)
  {
    hide Formed, Start, Destination, EntryPoint, InstrInPlace;
    var g' := BoolsReached(g, reg);
    BoolsReachedFacts(c, g, t, f, reg, w);
    var o, o' := Exec(c.sem, c.start, s, r), Exec(c.sem, g, s, r);
    if o != Stuck {
      Starting(c, g, Kind(VFalse), t, f, s, r);
      assert Simulates(c, g, Kind(VFalse), t, f, NO_REG, s, r);
      StuckIsNotGood(c, g, Kind(VFalse), t, f, NO_REG);
      ExtendContinuesRuns(c.sem, g, g', s, r);
      hide Denotes;
      if o.Here? && o'.Here? {
        LoadAtEndRuns(c.sem, g', |g.code|, reg, false, o'.regs);
        hide Exec;
        hide Eval;
      } else if o.Here? {
        GoodIsLocalExit(c, g, g', Kind(VFalse), Kind(VNonReloc(reg)), t, f, w, o.regs, o');
        hide Exec;
        hide Eval;
      }
    }
  }

  lemma BoolsReachedFacts(c: Context, g: Gen, t: seq<nat>, f: seq<nat>, reg: nat, w: nat)
    requires Formed(c, g, Kind(VFalse), t, f) && g.here == {} && Destination(c, reg, w)
    ensures var g' := BoolsReached(g, reg);
      Extends(g, g') && LoadsAtEnd(g'.code, |g.code|, reg, false) && forall j :: j in t || j in f ==>
        1 <= j < |g.code| && g'.code[j - 1] == g.code[j - 1]
    ensures c.base < NO_REG && reg < NO_REG && (w == reg || (w == NO_REG && reg == c.base))
  {
    assert forall j :: j in t || j in f ==> Controlled(g.code, j);
  }

  // ---- all values are already in registers: only the label

  lemma {:induction false} LabelKeepsRuns(sem: Semantics, g: Gen, label': int, pc: nat, r: Regs)
    requires pc <= |g.code|
    ensures Exec(sem, g.(lastTarget := label'), pc, r) == Exec(sem, g, pc, r)
    decreases |g.code| - pc
  {
    if pc < |g.code| {
      var p := Step(sem, g, pc, r);
      assert Step(sem, g.(lastTarget := label'), pc, r) == p;
      hide Step;
      if p.Continue? && pc < p.pc <= |g.code| {
        LabelKeepsRuns(sem, g, label', p.pc, p.regs);
      }
    }
  }

  lemma LabelCompiled(c: Context, g: Gen, v: View, t: seq<nat>, f: seq<nat>, w: nat)
    requires Compiled(c, g, v, t, f, w) && Before(g, v) == g && (v.Kind? || v.Branch?)
    requires !(v.Kind? && (v.k.VRelocable? || v.k.VJmp?))
    ensures Compiled(c, g.(lastTarget := |g.code|), v, t, f, w)
  {
    var g' := g.(lastTarget := |g.code|);
    forall j | 0 <= j < |g'.code| && g'.code[j].Jmp? && j !in g'.pend && j !in g'.here
      ensures JumpsWell(g'.code, j, g'.lastTarget)
    {
      assert JumpsWell(g.code, j, g.lastTarget);
    }
    KeptInPlace(c, g, g', v, v, t, f);
    forall s: nat, r: Regs | Start(c, s, r) ensures Simulates(c, g', v, t, f, w, s, r) {
      Starting(c, g, v, t, f, s, r);
      LabelKeepsRuns(c.sem, g, |g.code|, s, r);
      assert Simulates(c, g, v, t, f, w, s, r);
      assert forall j :: j in t || j in f ==> Controlled(g.code, j);
      hide Formed;
      hide WellFormed;
      hide Exec;
      hide Eval;
    }
  }

  // ---- patching the lists

  lemma ResolvedForm(g: Gen, g': Gen, l: set<nat>, reg: nat, d: int, v: bool)
    requires WellFormed(g) && Resolved(g, g', l, reg, d, v)
    ensures WellFormed(g')
    ensures forall i :: 0 <= i < |g.code| ==> g'.code[i].IsTest() == g.code[i].IsTest()
    ensures forall j: nat :: Controlled(g.code, j) && j !in l ==>
      g'.code[j] == g.code[j] && g'.code[j - 1] == g.code[j - 1]
  {
    ResolvedCode(g, g', l, reg, d, v);
    forall i | 0 <= i < |g'.code| ensures InstrInPlace(g'.code, i) {
      assert InstrInPlace(g.code, i);
    }
    forall j | 0 <= j < |g'.code| && g'.code[j].Jmp? && j !in g'.pend && j !in g'.here
      ensures JumpsWell(g'.code, j, g'.lastTarget)
    {
      if j in l {
        ResolvedJump(g, g', l, reg, d, v, j);
      } else {
        assert JumpsWell(g.code, j, g.lastTarget);
      }
    }
  }

  lemma ResolvedCode(g: Gen, g': Gen, l: set<nat>, reg: nat, d: int, v: bool)
    requires Resolved(g, g', l, reg, d, v)
    ensures |g'.code| == |g.code|
    ensures forall i :: 0 <= i < |g.code| ==> g'.code[i].IsTest() == g.code[i].IsTest()
    ensures forall i :: 0 <= i < |g.code| && !g.code[i].Jmp? && !g.code[i].TestSet? ==> g'.code[i] == g.code[i]
    ensures forall i :: 0 <= i < |g.code| && g.code[i].TestSet? ==> g'.code[i].IsTest()
    ensures forall i :: 0 <= i < |g.code| ==>
      g'.code[i].Jmp? == g.code[i].Jmp? && (g.code[i].Jmp? && i !in l ==> g'.code[i] == g.code[i])
    ensures forall j: nat :: Controlled(g.code, j) && j !in l ==>
      g'.code[j] == g.code[j] && g'.code[j - 1] == g.code[j - 1]
  {
  }

  lemma ResolvedTarget(g: Gen, g': Gen, l: set<nat>, reg: nat, d: int, v: bool, j: nat)
    requires Resolved(g, g', l, reg, d, v) && j in l
    ensures 1 <= j < |g.code| && g'.code[j].Jmp? && g.code[j].Jmp?
    ensures Target(g'.code, j) == if CarriesValue(g.code, j) then |g.code| else d
  {
    assert Controlled(g.code, j);
  }

  lemma ResolvedJump(g: Gen, g': Gen, l: set<nat>, reg: nat, d: int, v: bool, j: nat)
    requires WellFormed(g) && Resolved(g, g', l, reg, d, v) && j in l && j < |g'.code| && g'.code[j].Jmp?
    ensures JumpsWell(g'.code, j, g'.lastTarget)
  {
    hide Patched, Controlled;
    ResolvedTarget(g, g', l, reg, d, v, j);
    ResolvedCode(g, g', l, reg, d, v);
    assert InstrInPlace(g.code, |g.code| - 1);
    if !CarriesValue(g.code, j) {
      assert InstrInPlace(g.code, d - 1);
    }
  }

  /** The list of the jumps taken when the expression is true, or false. */
  function Picked(v: bool, t: seq<nat>, f: seq<nat>): seq<nat> { if v then t else f }

  lemma ResolvedOutcome(c: Context, g: Gen, g': Gen, t: seq<nat>, f: seq<nat>, reg: nat, v: bool, w: nat, r: Regs,
      o: Outcome)
    requires Good(c, g, Kind(VNonReloc(reg)), t, f, w, r, o) && Destination(c, reg, w)
    requires forall j :: j in t ==> j !in f
    requires var kept := Picked(!v, t, f); forall j :: j in kept ==>
      1 <= j < |g.code| && j < |g'.code| && g'.code[j - 1] == g.code[j - 1]
    ensures Good(c, g', Kind(VNonReloc(reg)), if v then [] else t, if v then f else [], w, r,
              ArriveWithValue(o, g.code, Elems(Picked(v, t, f)), reg, v))
  {
    hide Eval;
  }

  lemma ResolvedMeaning(c: Context, g: Gen, g': Gen, t: seq<nat>, f: seq<nat>, reg: nat, d: int, v: bool, w: nat,
      s: nat, r: Regs)
    requires Compiled(c, g, Kind(VNonReloc(reg)), t, f, w) && Destination(c, reg, w) && Start(c, s, r)
    requires Resolved(g, g', Elems(Picked(v, t, f)), reg, d, v)
    ensures Simulates(c, g', Kind(VNonReloc(reg)), if v then [] else t, if v then f else [], w, s, r)
  {
    hide WellFormed, Denotes, Start, Good;
    var l := Elems(Picked(v, t, f));
    Starting(c, g, Kind(VNonReloc(reg)), t, f, s, r);
    ResolveRedirectsRuns(c.sem, g, g', l, reg, d, v, s, r);
    RunsAsCompiled(c, g, Kind(VNonReloc(reg)), t, f, w, s, r);
    OuterExits(c, g, l, t, f, s, r);
    ResolvedForm(g, g', l, reg, d, v);
    assert forall j :: j in t || j in f ==> Controlled(g.code, j);
    var o, o' := Exec(c.sem, c.start, s, r), Exec(c.sem, g, s, r);
    hide Resolved;
    hide Exec;
    if o.Here? {
      ResolvedOutcome(c, g, g', t, f, reg, v, w, o.regs, o');
    }
  }

  /** Patching one list makes its runs end with the right value in `reg`. */
  lemma ResolvedCompiled(c: Context, g: Gen, g': Gen, t: seq<nat>, f: seq<nat>, reg: nat, d: int, v: bool, w: nat)
    requires Compiled(c, g, Kind(VNonReloc(reg)), t, f, w) && Destination(c, reg, w)
    requires Resolved(g, g', Elems(Picked(v, t, f)), reg, d, v)
    ensures Compiled(c, g', Kind(VNonReloc(reg)), if v then [] else t, if v then f else [], w)
  {
    ResolvedForm(g, g', Elems(Picked(v, t, f)), reg, d, v);
    forall j | j in c.start.pend ensures Kept(c.start, g', j) {
      assert Kept(c.start, g, j);
    }
    assert Formed(c, g', Kind(VNonReloc(reg)), if v then [] else t, if v then f else []);
    hide Formed;
    hide Resolved;
    forall s: nat, r: Regs | Start(c, s, r)
      ensures Simulates(c, g', Kind(VNonReloc(reg)), if v then [] else t, if v then f else [], w, s, r)
    {
      ResolvedMeaning(c, g, g', t, f, reg, d, v, w, s, r);
    }
  }

  // ---- nil

  /** Extending the previous LOADNIL loads nil. */
  lemma NilMergedCompiled(c: Context, g: Gen, g': Gen, t: seq<nat>, f: seq<nat>, reg: nat, w: nat)
    requires Compiled(c, g, Kind(VNil), t, f, NO_REG) && NilMerged(g, g', reg) && Destination(c, reg, w)
    ensures Compiled(c, g', Kind(VNonReloc(reg)), t, f, w)
  {
    NilMergedForm(g, g', reg);
    forall j | j in c.start.pend ensures Kept(c.start, g', j) {
      assert Kept(c.start, g, j);
    }
    assert Formed(c, g', Kind(VNonReloc(reg)), t, f);
    hide Formed;
    hide NilMerged;
    forall s: nat, r: Regs | Start(c, s, r) ensures Simulates(c, g', Kind(VNonReloc(reg)), t, f, w, s, r) {
      NilMergedMeaning(c, g, g', t, f, reg, w, s, r);
    }
  }

  lemma NilMergedMeaning(c: Context, g: Gen, g': Gen, t: seq<nat>, f: seq<nat>, reg: nat, w: nat, s: nat, r: Regs)
    requires Compiled(c, g, Kind(VNil), t, f, NO_REG) && NilMerged(g, g', reg) && Destination(c, reg, w)
    requires Start(c, s, r)
    ensures Simulates(c, g', Kind(VNonReloc(reg)), t, f, w, s, r)
  {
    hide WellFormed, Denotes;
    Starting(c, g, Kind(VNil), t, f, s, r);
    NilMergeClearsRegister(c.sem, g, g', reg, s, r);
    RunsAsCompiled(c, g, Kind(VNil), t, f, NO_REG, s, r);
    assert forall j :: j in t || j in f ==> Controlled(g.code, j) && g'.code[j - 1] == g.code[j - 1];
    var o, o' := Exec(c.sem, c.start, s, r), Exec(c.sem, g, s, r);
    hide Exec;
    hide Formed;
    if o.Here? && !o'.Here? {
      GoodIsLocalExit(c, g, g', Kind(VNil), Kind(VNonReloc(reg)), t, f, w, o.regs, o');
    }
    hide Eval;
  }

  lemma NilMergedForm(g: Gen, g': Gen, reg: nat)
    requires WellFormed(g) && NilMerged(g, g', reg)
    ensures WellFormed(g')
    ensures forall i :: 0 <= i < |g.code| ==> g'.code[i] == g.code[i] || (g.code[i].LoadNil? && g'.code[i].LoadNil?)
  {
    forall i | 0 <= i < |g'.code| ensures InstrInPlace(g'.code, i) {
      assert InstrInPlace(g.code, i);
    }
    forall j | 0 <= j < |g'.code| && g'.code[j].Jmp? && j !in g'.pend && j !in g'.here
      ensures JumpsWell(g'.code, j, g'.lastTarget)
    {
      assert JumpsWell(g.code, j, g.lastTarget);
    }
  }

  /** At the start of a function the registers above the locals already hold nil. */
  lemma CleanRegisterCompiled(c: Context, g: Gen, t: seq<nat>, f: seq<nat>, reg: nat, w: nat)
    requires Compiled(c, g, Kind(VNil), t, f, NO_REG) && Destination(c, reg, w)
    requires |g.code| == 0 && g.lastTarget < 0 && reg >= c.nactvar
    ensures Compiled(c, g, Kind(VNonReloc(reg)), t, f, w)
  {
    forall s: nat, r: Regs | Start(c, s, r) ensures Simulates(c, g, Kind(VNonReloc(reg)), t, f, w, s, r) {
      assert Simulates(c, g, Kind(VNil), t, f, NO_REG, s, r);
      hide Eval;
    }
  }
}
