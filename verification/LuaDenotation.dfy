/** What it means that the code emitted so far computes a source expression.

    While an expression is being compiled its value may be a constant, a register, the result of
    an instruction whose destination is still open, or the outcome of a comparison; and some runs
    leave it early, through jumps whose destinations are still open. */
module LuaDenotation {
  import opened LuaResults
  import opened LuaValues
  import opened LuaExpressions
  import opened LuaOpcodes
  import opened LuaVM
  import opened LuaCodeEdits

  /** Expression descriptors (lparser.h). */
  datatype ExpKind =
    | VNil | VTrue | VFalse
    | VK(info: nat)
    | VKNum(nval: real)
    | VLocal(info: nat)
    | VUpval(info: nat)
    | VGlobal(info: nat)
    | VJmp(info: nat)
    | VRelocable(info: nat)
    | VNonReloc(info: nat)

  datatype ExpDesc = ExpDesc(k: ExpKind, t: int, f: int)

  /** What is known when a run gets to the end of the code: the value of the expression, only
      whether it is true, or the values of its operands. */
  datatype View = Kind(k: ExpKind) | Branch(b: bool) | Operand(k: ExpKind) | Operands(k1: ExpKind, k2: ExpKind)

  /** Compilation of `x` began when the code was `start` and `base` was the first free register. */
  datatype Context = Context(sem: Semantics, nactvar: nat, start: Gen, x: Expr, base: nat)

  /** The code without the instructions whose effect the descriptor still leaves open. */
  function Before(g: Gen, v: View): Gen {
    if v.Kind? && v.k.VRelocable? && |g.code| >= 1 then g.(code := g.code[..|g.code| - 1])
    else if v.Kind? && v.k.VJmp? && |g.code| >= 2 then
      g.(code := g.code[..|g.code| - 2], pend := g.pend - {v.k.info})
    else g
  }

  /** The value a descriptor stands for at the end of the code; the options are those of
      `Computed`. */
  function ValueOf(sem: Semantics, g: Gen, k: ExpKind, r: Regs): Option<Option<Value>> {
    match k
    case VNil => Some(Some(Nil))
    case VTrue => Some(Some(Bool(true)))
    case VFalse => Some(Some(Bool(false)))
    case VK(i) => if i < |g.k| then Some(Some(g.k[i])) else None
    case VKNum(n) => Some(Some(Num(n)))
    case VLocal(i) => if i < 256 then Some(Some(r[i])) else None
    case VNonReloc(i) => if i < 256 then Some(Some(r[i])) else None
    case VUpval(i) => Some(Some(sem.upvalue(i)))
    case VGlobal(i) => if i < |g.k| && g.k[i].Str? then Some(sem.global(g.k[i].s)) else None
    case VRelocable(i) => if i < |g.code| && g.code[i].IsRelocatable() then Computed(sem, g.k, g.code[i], r) else None
    case VJmp(i) =>
      if 1 <= i <= |g.code| && g.code[i - 1].Compare? then
        var b := Compared(sem, g.k, g.code[i - 1], r);
        if b.None? then None else Some(Truth(b.value, g.code[i - 1].cond))
      else None
  }

  /** The run started with the registers `r` and is at the end of the code with `r'`. */
  ghost predicate Arrived(c: Context, g: Gen, v: View, r: Regs, r': Regs) {
    var value := Eval(c.sem, c.x, r);
    match v
    case Kind(k) => ValueOf(c.sem, g, k, r') == Some(value)
    case Branch(b) => value.Some? && IsFalse(value.value) != b
    case Operand(k) =>
      && c.x.Unary? && Eval(c.sem, c.x.e, r).Some?
      && ValueOf(c.sem, g, k, r') == Some(Eval(c.sem, c.x.e, r))
    case Operands(k1, k2) =>
      && c.x.Binary? && Eval(c.sem, c.x.left, r).Some? && Eval(c.sem, c.x.right, r).Some?
      && ValueOf(c.sem, g, k1, r') == Some(Eval(c.sem, c.x.left, r))
      && ValueOf(c.sem, g, k2, r') == Some(Eval(c.sem, c.x.right, r))
  }

  ghost predicate LeftThrough(g: Gen, t: seq<nat>, f: seq<nat>, j: nat, r: Regs, value: Option<Value>) {
    && value.Some?
    && ((j in t && !IsFalse(value.value) && ExitValue(g.code, j, r, true) == value.value)
        || (j in f && IsFalse(value.value) && ExitValue(g.code, j, r, false) == value.value))
  }

  /** `o` is a right way to compute the expression from the registers `r`. Registers below the
      base keep their values, except perhaps `w`. */
  ghost predicate Good(c: Context, g: Gen, v: View, t: seq<nat>, f: seq<nat>, w: nat, r: Regs, o: Outcome) {
    var value := Eval(c.sem, c.x, r);
    match o
    case Here(r') => Agree(r, r', c.base, w) && Arrived(c, g, v, r, r')
    case Exit(j, r') => Agree(r, r', c.base, w) && LeftThrough(g, t, f, j, r', value)
    case Fault => value == None
    case Stuck => false
  }

  /** A run may start at `s`. The first instruction of a function may rely on fresh registers, and
      nothing can be relied on at a position that is not marked as a target. */
  ghost predicate Start(c: Context, s: nat, r: Regs) {
    && EntryPoint(c.start.code, s)
    && (s == |c.start.code| ==>
          || c.start.lastTarget == s
          || (s == 0 && forall i :: c.nactvar <= i < 256 ==> r[i] == Nil))
  }

  ghost predicate Simulates(c: Context, g: Gen, v: View, t: seq<nat>, f: seq<nat>, w: nat, s: nat, r: Regs) {
    var o, o' := Exec(c.sem, c.start, s, r), Exec(c.sem, Before(g, v), s, r);
    match o
    case Here(r1) => Good(c, g, v, t, f, w, r1, o')
    case Stuck => true
    case _ => o' == o
  }

  /** Every run that used to get to the end of the code now computes `x` from there on. */
  ghost predicate Denotes(c: Context, g: Gen, v: View, t: seq<nat>, f: seq<nat>, w: nat) {
    forall s: nat, r: Regs :: Start(c, s, r) ==> Simulates(c, g, v, t, f, w, s, r)
  }

  /** Code older than the expression is as it was, but for jumps to its first instruction and a
      LOADNIL before it. */
  ghost predicate Grown(start: Gen, g: Gen, n: nat) {
    && |start.code| <= n <= |g.code|
    && start.k <= g.k
    && start.lastTarget <= g.lastTarget
    && (forall i :: 0 <= i < |start.code| ==> g.code[i].IsTest() == start.code[i].IsTest())
    && (forall j :: j in start.pend ==> Kept(start, g, j))
  }

  /** An open jump of older code, with the test that decides it. */
  ghost predicate Kept(start: Gen, g: Gen, j: nat) {
    && Controlled(start.code, j) && j in g.pend && j < |g.code|
    && g.code[j] == start.code[j] && g.code[j - 1] == start.code[j - 1]
  }

  /** The open jumps of the expression are its own: emitted after its start and decided by tests. */
  ghost predicate OwnJumps(c: Context, g: Gen, l: seq<nat>, n: nat) {
    forall j :: j in l ==> |c.start.code| < j < n && j in g.pend && Controlled(g.code, j)
  }

  ghost predicate Shape(c: Context, g: Gen, v: View) {
    match v
    case Kind(VK(i)) => i < |g.k|
    case Kind(VGlobal(i)) => i < |g.k| && g.k[i].Str?
    case Kind(VLocal(i)) => i < c.nactvar
    case Kind(VNonReloc(i)) => i < c.nactvar || i == c.base
    case Kind(VRelocable(i)) =>
      && |g.code| == i + 1 && g.code[i].IsRelocatable() && g.here == {} && g.lastTarget <= i
      && (g.code[i].Concat? ==> g.code[i].b == c.base)
    case Kind(VJmp(i)) =>
      && i >= 1 && |g.code| == i + 1 && g.code[i] == Jmp(NO_JUMP) && g.code[i - 1].Compare?
      && i in g.pend && g.here == {} && g.lastTarget <= i - 1
    case _ => true
  }

  ghost predicate Formed(c: Context, g: Gen, v: View, t: seq<nat>, f: seq<nat>) {
    var n := |Before(g, v).code|;
    && WellFormed(g)
    && c.nactvar <= c.base < NO_REG
    && InScope(c.sem, c.x, c.nactvar)
    && Shape(c, g, v)
    && Grown(c.start, g, n)
    && OwnJumps(c, g, t, n) && OwnJumps(c, g, f, n)
    && (forall j :: j in t ==> j !in f)
  }

  ghost predicate Compiled(c: Context, g: Gen, v: View, t: seq<nat>, f: seq<nat>, w: nat) {
    Formed(c, g, v, t, f) && Denotes(c, g, v, t, f, w)
  }

  lemma RunsAsCompiled(c: Context, g: Gen, v: View, t: seq<nat>, f: seq<nat>, w: nat, s: nat, r: Regs)
    requires Compiled(c, g, v, t, f, w) && Start(c, s, r)
    ensures Simulates(c, g, v, t, f, w, s, r)
  {
    hide Formed, Simulates, Start;
  }

  lemma BeforeIsWellFormed(c: Context, g: Gen, v: View)
    requires WellFormed(g) && Shape(c, g, v)
    ensures WellFormed(Before(g, v))
  {
    var b := Before(g, v);
    forall i | 0 <= i < |b.code| ensures InstrInPlace(b.code, i) {
      assert InstrInPlace(g.code, i);
      assert b.code[i] == g.code[i];
    }
    forall j | 0 <= j < |b.code| && b.code[j].Jmp? && j !in b.pend && j !in b.here
      ensures JumpsWell(b.code, j, b.lastTarget)
    {
      assert JumpsWell(g.code, j, g.lastTarget);
    }
  }

  lemma Starting(c: Context, g: Gen, v: View, t: seq<nat>, f: seq<nat>, s: nat, r: Regs)
    requires Formed(c, g, v, t, f) && Start(c, s, r)
    ensures WellFormed(Before(g, v)) && EntryPoint(Before(g, v).code, s)
    ensures EntryPoint(g.code, s) && s <= |c.start.code|
  {
    BeforeIsWellFormed(c, g, v);
  }

  /** What a run that ends in `o` says about the expression depends only on the tests of the open
      jumps and on the instructions still open. */
  lemma GoodIsLocal(c: Context, g: Gen, g': Gen, v: View, t: seq<nat>, f: seq<nat>, w: nat, r: Regs, o: Outcome)
    requires Good(c, g, v, t, f, w, r, o)
    requires forall j :: j in t || j in f ==> 1 <= j < |g.code| && j < |g'.code| && g'.code[j - 1] == g.code[j - 1]
    requires g'.k == g.k
    requires v.Kind? || v.Branch?
    requires v.Kind? && v.k.VRelocable? ==>
      v.k.info < |g.code| && v.k.info < |g'.code| && g'.code[v.k.info] == g.code[v.k.info]
    requires v.Kind? && v.k.VJmp? ==>
      1 <= v.k.info < |g.code| && v.k.info < |g'.code| && g'.code[v.k.info - 1] == g.code[v.k.info - 1]
    ensures Good(c, g', v, t, f, w, r, o)
  {
    hide Eval;
  }

  // ---- joining lists of open jumps

  ghost predicate OwnLinksOnly(c: Context, g: Gen, g': Gen, v: View) {
    && (v.Kind? || v.Branch?)
    && Relinked(g, g')
    && (forall j :: j in c.start.pend && j < |g.code| ==> g'.code[j] == g.code[j])
    && (v.Kind? && v.k.VJmp? && v.k.info < |g.code| ==> g'.code[v.k.info] == g.code[v.k.info])
  }

  lemma RelinkKeepsForm(c: Context, g: Gen, g': Gen, v: View, t: seq<nat>, f: seq<nat>)
    requires Formed(c, g, v, t, f) && OwnLinksOnly(c, g, g', v)
    ensures Formed(c, g', v, t, f)
  {
    assert forall i :: 0 <= i < |g.code| ==> g'.code[i].IsTest() == g.code[i].IsTest();
    forall i | 0 <= i < |g'.code| ensures InstrInPlace(g'.code, i) {
      assert InstrInPlace(g.code, i);
    }
    forall j | 0 <= j < |g'.code| && g'.code[j].Jmp? && j !in g'.pend && j !in g'.here
      ensures JumpsWell(g'.code, j, g'.lastTarget)
    {
      assert JumpsWell(g.code, j, g.lastTarget);
    }
  }

  lemma RelinkKeepsMeaning(c: Context, g: Gen, g': Gen, v: View, t: seq<nat>, f: seq<nat>, w: nat, s: nat, r: Regs)
    requires Compiled(c, g, v, t, f, w) && OwnLinksOnly(c, g, g', v) && Start(c, s, r)
    ensures Simulates(c, g', v, t, f, w, s, r)
  {
    Starting(c, g, v, t, f, s, r);
    RelinkKeepsRuns(c.sem, Before(g, v), Before(g', v), s, r);
    var o, o' := Exec(c.sem, c.start, s, r), Exec(c.sem, Before(g, v), s, r);
    assert Simulates(c, g, v, t, f, w, s, r);
    if o.Here? {
      assert forall j :: j in t || j in f ==> Controlled(g.code, j);
      hide Exec;
      hide Start;
      hide WellFormed;
      hide Denotes;
      hide Good;
      GoodIsLocal(c, g, g', v, t, f, w, o.regs, o');
    }
  }

  lemma RelinkKeepsCompiled(c: Context, g: Gen, g': Gen, v: View, t: seq<nat>, f: seq<nat>, w: nat)
    requires Compiled(c, g, v, t, f, w) && OwnLinksOnly(c, g, g', v)
    ensures Compiled(c, g', v, t, f, w)
  {
    RelinkKeepsForm(c, g, g', v, t, f);
    hide Formed;
    hide OwnLinksOnly;
    hide Simulates;
    hide Start;
    forall s: nat, r: Regs | Start(c, s, r) ensures Simulates(c, g', v, t, f, w, s, r) {
      RelinkKeepsMeaning(c, g, g', v, t, f, w, s, r);
    }
  }

  // ---- emission after the expression

  lemma KeptByEmission(c: Context, g: Gen, g': Gen, v: View, t: seq<nat>, f: seq<nat>, n: nat)
    requires Formed(c, g, v, t, f) && Before(g, v) == g
    requires Extends(Discharge(g), g') && g.pend <= g'.pend && g.lastTarget <= g'.lastTarget
    requires |g.code| <= n <= |g'.code|
    ensures Grown(c.start, g', n) && OwnJumps(c, g', t, n) && OwnJumps(c, g', f, n)
    ensures forall j :: j in t || j in f ==>
      1 <= j < |g.code| && g'.code[j] == g.code[j] && g'.code[j - 1] == g.code[j - 1]
  {
    DischargeForm(g);
    forall j | j in g.pend && Controlled(g.code, j)
      ensures Controlled(g'.code, j) && g'.code[j] == g.code[j] && g'.code[j - 1] == g.code[j - 1]
    {
      assert j - 1 !in g.here && j !in g.here;
    }
    forall j | j in c.start.pend ensures Kept(c.start, g', j) {
      assert Kept(c.start, g, j);
    }
  }

  /** A run of the extended code, for an expression that is complete at the end of `g`. */
  lemma EmissionMeaning(c: Context, g: Gen, g': Gen, v: View, t: seq<nat>, f: seq<nat>, w: nat, s: nat, r: Regs)
    requires Compiled(c, g, v, t, f, w) && Start(c, s, r) && Before(g, v) == g
    requires Extends(Discharge(g), g')
    requires Exec(c.sem, c.start, s, r) != Stuck
    ensures var o, o' := Exec(c.sem, c.start, s, r), Exec(c.sem, g, s, r);
      && Exec(c.sem, g', s, r) == (if o'.Here? then Exec(c.sem, g', |g.code|, o'.regs) else o')
      && (if o.Here? then Good(c, g, v, t, f, w, o.regs, o') else o' == o)
  {
    Starting(c, g, v, t, f, s, r);
    assert Simulates(c, g, v, t, f, w, s, r);
    hide Denotes;
    hide Formed;
    hide Good;
    EmittedRuns(c.sem, g, g', s, r) by {
      assert Exec(c.sem, g, s, r) != Stuck by {
        StuckIsNotGood(c, g, v, t, f, w);
      }
    }
  }

  lemma StuckIsNotGood(c: Context, g: Gen, v: View, t: seq<nat>, f: seq<nat>, w: nat)
    ensures forall r :: !Good(c, g, v, t, f, w, r, Stuck)
  {
  }

  // ---- loading a value into a register

  predicate IsLoadable(k: ExpKind) {
    k.VNil? || k.VTrue? || k.VFalse? || k.VK? || k.VNonReloc?
  }

  function LoadInstr(k: ExpKind, reg: nat): Instr
    requires IsLoadable(k)
  {
    match k
    case VNil => LoadNil(reg, reg)
    case VTrue => LoadBool(reg, true, false)
    case VFalse => LoadBool(reg, false, false)
    case VK(i) => LoadK(reg, i)
    case VNonReloc(i) => Move(reg, i)
  }

  lemma LoadRuns(sem: Semantics, g: Gen, k: ExpKind, reg: nat, r: Regs, v: Value)
    requires IsLoadable(k) && reg < NO_REG && ValueOf(sem, g, k, r) == Some(Some(v))
    requires |g.code| >= 1 && g.code[|g.code| - 1] == LoadInstr(k, reg)
    ensures Exec(sem, g, |g.code| - 1, r) == Here(r[reg := v])
  {
    if k.VNil? {
      assert ClearRange(r, reg, reg) == r[reg := Nil];
    }
    assert Step(sem, g, |g.code| - 1, r) == Continue(|g.code|, r[reg := v]);
  }

  ghost predicate Destination(c: Context, reg: nat, w: nat) {
    && reg < NO_REG
    && (reg < c.nactvar || reg == c.base)
    && (w == reg || (w == NO_REG && reg == c.base))
  }

  lemma LoadMeaning(c: Context, g: Gen, k: ExpKind, t: seq<nat>, f: seq<nat>, reg: nat, w: nat, s: nat, r: Regs)
    requires Compiled(c, g, Kind(k), t, f, NO_REG) && Start(c, s, r)
    requires IsLoadable(k) && Destination(c, reg, w)
    ensures Simulates(c, Emit(g, LoadInstr(k, reg)), Kind(VNonReloc(reg)), t, f, w, s, r)
  {
    var g' := Emit(g, LoadInstr(k, reg));
    var o := Exec(c.sem, c.start, s, r);
    if o != Stuck {
      EmissionMeaning(c, g, g', Kind(k), t, f, NO_REG, s, r);
      KeptByEmission(c, g, g', Kind(k), t, f, |g.code|);
      var o' := Exec(c.sem, g, s, r);
      hide Denotes;
      hide Formed;
      hide Start;
      if o.Here? && o'.Here? {
        LoadedIsGood(c, g, g', k, t, f, reg, w, o.regs, o'.regs);
      } else if o.Here? {
        GoodIsLocalExit(c, g, g', Kind(k), Kind(VNonReloc(reg)), t, f, w, o.regs, o');
      }
    }
  }

  lemma LoadedIsGood(c: Context, g: Gen, g': Gen, k: ExpKind, t: seq<nat>, f: seq<nat>, reg: nat, w: nat, r: Regs,
      r': Regs)
    requires Good(c, g, Kind(k), t, f, NO_REG, r, Here(r'))
    requires c.base < NO_REG && IsLoadable(k) && Destination(c, reg, w)
    requires g'.k == g.k && |g'.code| >= 1 && g'.code[|g'.code| - 1] == LoadInstr(k, reg)
    ensures Good(c, g', Kind(VNonReloc(reg)), t, f, w, r, Exec(c.sem, g', |g'.code| - 1, r'))
  {
    var v := Eval(c.sem, c.x, r);
    hide Eval;
    if v.None? {
      assert false;
    }
    LoadRuns(c.sem, g', k, reg, r', v.value);
    hide Exec;
  }

  /** A run that leaves early, or fails, is right whatever is done at the end of the code. */
  lemma GoodIsLocalExit(c: Context, g: Gen, g': Gen, v: View, v': View, t: seq<nat>, f: seq<nat>, w: nat, r: Regs,
      o: Outcome)
    requires Good(c, g, v, t, f, NO_REG, r, o) && !o.Here? && c.base < NO_REG
    requires forall j :: j in t || j in f ==> 1 <= j < |g.code| && j < |g'.code| && g'.code[j - 1] == g.code[j - 1]
    ensures Good(c, g', v', t, f, w, r, o)
  {
    hide Eval;
  }

  lemma LoadToRegister(c: Context, g: Gen, k: ExpKind, t: seq<nat>, f: seq<nat>, reg: nat, w: nat)
    requires Compiled(c, g, Kind(k), t, f, NO_REG)
    requires IsLoadable(k) && Destination(c, reg, w)
    ensures Compiled(c, Emit(g, LoadInstr(k, reg)), Kind(VNonReloc(reg)), t, f, w)
  {
    var g' := Emit(g, LoadInstr(k, reg));
    EmitForm(g, LoadInstr(k, reg));
    KeptByEmission(c, g, g', Kind(k), t, f, |g'.code|);
    assert Formed(c, g', Kind(VNonReloc(reg)), t, f);
    hide Formed;
    hide Simulates;
    forall s: nat, r: Regs | Start(c, s, r) ensures Simulates(c, g', Kind(VNonReloc(reg)), t, f, w, s, r) {
      LoadMeaning(c, g, k, t, f, reg, w, s, r);
    }
  }

  // ---- choosing the destination of the last instruction

  function WithDestination(g: Gen, reg: nat): Gen
    requires |g.code| >= 1 && g.code[|g.code| - 1].IsRelocatable()
  {
    g.(code := g.code[|g.code| - 1 := g.code[|g.code| - 1].WithA(reg)])
  }

  lemma ComputedIgnoresDestination(sem: Semantics, k: seq<Value>, i: Instr, reg: nat, r: Regs)
    requires i.IsRelocatable()
    ensures i.WithA(reg).IsRelocatable() && i.WithA(reg).a == reg
    ensures Computed(sem, k, i.WithA(reg), r) == Computed(sem, k, i, r)
  {
  }

  lemma RelocatableRuns(sem: Semantics, g: Gen, r: Regs)
    requires |g.code| >= 1 && g.code[|g.code| - 1].IsRelocatable() && g.code[|g.code| - 1].a < NO_REG
    ensures var i := g.code[|g.code| - 1]; var v := Computed(sem, g.k, i, r);
      Exec(sem, g, |g.code| - 1, r) ==
        if v.None? then Stuck else if v.value.None? then Fault else Here(Used(sem, i, r)[i.a := v.value.value])
  {
    var i := g.code[|g.code| - 1];
    var v := Computed(sem, g.k, i, r);
    assert Act(sem, g.k, i, |g.code| - 1, r) ==
      if v.None? then Invalid else if v.value.None? then Raise
      else Next(false, Used(sem, i, r)[i.a := v.value.value]);
  }

  lemma RelocateFacts(c: Context, g: Gen, i: nat, t: seq<nat>, f: seq<nat>, reg: nat)
    requires Formed(c, g, Kind(VRelocable(i)), t, f)
    ensures |g.code| == i + 1 && g.code[i].IsRelocatable() && c.base < NO_REG
    ensures g.code[i].Concat? ==> g.code[i].b == c.base
    ensures Extends(Before(g, Kind(VRelocable(i))), WithDestination(g, reg))
    ensures |Before(g, Kind(VRelocable(i))).code| == i
    ensures forall j :: j in t || j in f ==> 1 <= j < |g.code| && WithDestination(g, reg).code[j - 1] == g.code[j - 1]
  {
    assert forall j :: j in t || j in f ==> Controlled(g.code, j) && j < i;
  }

  lemma RelocateMeaning(c: Context, g: Gen, i: nat, t: seq<nat>, f: seq<nat>, reg: nat, w: nat, s: nat, r: Regs)
    requires Compiled(c, g, Kind(VRelocable(i)), t, f, NO_REG) && Start(c, s, r)
    requires Destination(c, reg, w)
    requires |g.code| == i + 1 && g.code[i].IsRelocatable()
    ensures Simulates(c, WithDestination(g, reg), Kind(VNonReloc(reg)), t, f, w, s, r)
  {
    hide Formed, Start, Destination, WellFormed, Extends;
    var b, g' := Before(g, Kind(VRelocable(i))), WithDestination(g, reg);
    var o, o' := Exec(c.sem, c.start, s, r), Exec(c.sem, b, s, r);
    RelocateFacts(c, g, i, t, f, reg);
    if o != Stuck {
      Starting(c, g, Kind(VRelocable(i)), t, f, s, r);
      assert Simulates(c, g, Kind(VRelocable(i)), t, f, NO_REG, s, r);
      StuckIsNotGood(c, g, Kind(VRelocable(i)), t, f, NO_REG);
      ExtendContinuesRuns(c.sem, b, g', s, r) by {
        assert EntryPoint(b.code, s);
      }
      hide Denotes;
      hide Exec;
      if o.Here? && o'.Here? {
        RelocatedIsGood(c, g, i, t, f, reg, w, o.regs, o'.regs);
      } else if o.Here? {
        GoodIsLocalExit(c, g, g', Kind(VRelocable(i)), Kind(VNonReloc(reg)), t, f, w, o.regs, o');
      }
    }
  }

  lemma RelocatedIsGood(c: Context, g: Gen, i: nat, t: seq<nat>, f: seq<nat>, reg: nat, w: nat, r: Regs, r': Regs)
    requires |g.code| == i + 1 && g.code[i].IsRelocatable() && c.base < NO_REG
    requires g.code[i].Concat? ==> g.code[i].b == c.base
    requires Good(c, g, Kind(VRelocable(i)), t, f, NO_REG, r, Here(r'))
    requires Destination(c, reg, w)
    ensures Good(c, WithDestination(g, reg), Kind(VNonReloc(reg)), t, f, w, r,
      Exec(c.sem, WithDestination(g, reg), i, r'))
  {
    ComputedIgnoresDestination(c.sem, g.k, g.code[i], reg, r');
    RelocatableRuns(c.sem, WithDestination(g, reg), r');
    hide Exec;
    hide Eval;
    hide Computed;
  }

  lemma RelocateToRegister(c: Context, g: Gen, i: nat, t: seq<nat>, f: seq<nat>, reg: nat, w: nat)
    requires Compiled(c, g, Kind(VRelocable(i)), t, f, NO_REG)
    requires Destination(c, reg, w)
    ensures Compiled(c, WithDestination(g, reg), Kind(VNonReloc(reg)), t, f, w)
  {
    var b, g' := Before(g, Kind(VRelocable(i))), WithDestination(g, reg);
    BeforeIsWellFormed(c, g, Kind(VRelocable(i)));
    ComputedIgnoresDestination(c.sem, g.k, g.code[i], reg, seq(256, _ => Nil));
    AppendForm(b, g');
    forall j | j in c.start.pend ensures Kept(c.start, g', j) {
      assert Kept(c.start, g, j);
    }
    assert Formed(c, g', Kind(VNonReloc(reg)), t, f);
    RelocateFacts(c, g, i, t, f, reg);
    hide Formed;
    hide Simulates;
    forall s: nat, r: Regs | Start(c, s, r) ensures Simulates(c, g', Kind(VNonReloc(reg)), t, f, w, s, r) {
      RelocateMeaning(c, g, i, t, f, reg, w, s, r);
    }
  }

  // ---- comparisons as open jumps

  lemma CompareRuns(sem: Semantics, g: Gen, i: nat, r: Regs)
    requires i >= 1 && |g.code| == i + 1 && g.code[i - 1].Compare? && i in g.pend && g.here == {}
    ensures var b := Compared(sem, g.k, g.code[i - 1], r);
      Exec(sem, g, i - 1, r) ==
        if b.None? then Stuck else if b.value.None? then Fault
        else if b.value.value == g.code[i - 1].cond then Exit(i, r) else Here(r)
  {
    var b := Compared(sem, g.k, g.code[i - 1], r);
    assert Act(sem, g.k, g.code[i - 1], i - 1, r) ==
      if b.None? then Invalid else if b.value.None? then Raise
      else if b.value.value == g.code[i - 1].cond then Via(i, r, Some(r)) else Next(true, r);
  }

  /** `invertjump` on the comparison at the end of the code. */
  function Inverted(g: Gen, i: nat): Gen
    requires 1 <= i < |g.code| && g.code[i - 1].Compare?
  {
    g.(code := g.code[i - 1 := Negated(g.code[i - 1])])
  }

  lemma JumpRuns(c: Context, g: Gen, g': Gen, i: nat, t: seq<nat>, f: seq<nat>, s: nat, r: Regs)
    requires Compiled(c, g, Kind(VJmp(i)), t, f, NO_REG) && Start(c, s, r)
    requires g' == g || g' == Inverted(g, i)
    requires Exec(c.sem, c.start, s, r) != Stuck
    ensures var o, o' := Exec(c.sem, c.start, s, r), Exec(c.sem, Before(g, Kind(VJmp(i))), s, r);
      && Exec(c.sem, g', s, r) == (if o'.Here? then Exec(c.sem, g', i - 1, o'.regs) else o')
      && (if o.Here? then Good(c, g, Kind(VJmp(i)), t, f, NO_REG, o.regs, o') else o' == o)
  {
    hide Formed, WellFormed, Start, Exec, Good, Extends, Inverted, Before;
    var b := Before(g, Kind(VJmp(i)));
    Starting(c, g, Kind(VJmp(i)), t, f, s, r);
    assert Simulates(c, g, Kind(VJmp(i)), t, f, NO_REG, s, r);
    StuckIsNotGood(c, g, Kind(VJmp(i)), t, f, NO_REG);
    JumpExtends(c, g, g', i, t, f);
    ExtendContinuesRuns(c.sem, b, g', s, r);
  }

  lemma JumpExtends(c: Context, g: Gen, g': Gen, i: nat, t: seq<nat>, f: seq<nat>)
    requires Formed(c, g, Kind(VJmp(i)), t, f)
    requires g' == g || g' == Inverted(g, i)
    ensures var b := Before(g, Kind(VJmp(i))); Extends(b, g') && |b.code| == i - 1
  {
  }

  lemma JumpOutcome(c: Context, g: Gen, i: nat, t: seq<nat>, f: seq<nat>, r: Regs, o: Outcome)
    requires i >= 1 && |g.code| == i + 1 && g.code[i - 1].Compare? && i in g.pend && g.here == {}
    requires c.base < NO_REG
    requires Good(c, g, Kind(VJmp(i)), t, f, NO_REG, r, o)
    requires forall j :: j in t || j in f ==> 1 <= j < i - 1
    ensures Good(c, g, Kind(VFalse), t + [i], f, NO_REG, r, if o.Here? then Exec(c.sem, g, i - 1, o.regs) else o)
    ensures Good(c, Inverted(g, i), Kind(VTrue), t, f + [i], NO_REG, r,
              if o.Here? then Exec(c.sem, Inverted(g, i), i - 1, o.regs) else o)
  {
    if o.Here? {
      CompareRuns(c.sem, g, i, o.regs);
      CompareRuns(c.sem, Inverted(g, i), i, o.regs);
    }
    hide Exec;
    hide Eval;
  }

  lemma JumpWellFormed(c: Context, g: Gen, g': Gen, i: nat, t: seq<nat>, f: seq<nat>)
    requires Formed(c, g, Kind(VJmp(i)), t, f) && (g' == g || g' == Inverted(g, i))
    ensures WellFormed(g')
  {
    BeforeIsWellFormed(c, g, Kind(VJmp(i)));
    AppendForm(Before(g, Kind(VJmp(i))), g');
  }

  lemma JumpFormed(c: Context, g: Gen, g': Gen, i: nat, v: View, t: seq<nat>, f: seq<nat>)
    requires Formed(c, g, Kind(VJmp(i)), t, f)
    requires g' == g || g' == Inverted(g, i)
    requires Before(g', v) == g' && Shape(c, g', v)
    ensures Formed(c, g', v, t + [i], f) && Formed(c, g', v, t, f + [i])
    ensures forall j :: j in t || j in f ==> 1 <= j < i - 1
  {
    hide InstrInPlace, JumpsWell, Denotes;
    JumpWellFormed(c, g, g', i, t, f);
    forall j | j in c.start.pend ensures Kept(c.start, g', j) {
      assert Kept(c.start, g, j);
    }
  }

  /** The jump of a comparison joins the list of jumps taken when the expression is true; on
      falling through, it is false. */
  lemma JumpJoinsTrueList(c: Context, g: Gen, i: nat, t: seq<nat>, f: seq<nat>)
    requires Compiled(c, g, Kind(VJmp(i)), t, f, NO_REG)
    ensures Compiled(c, g, Kind(VFalse), t + [i], f, NO_REG)
  {
    JumpFormed(c, g, g, i, Kind(VFalse), t, f);
    forall s: nat, r: Regs | Start(c, s, r) ensures Simulates(c, g, Kind(VFalse), t + [i], f, NO_REG, s, r) {
      JumpJoinsTrueRun(c, g, i, t, f, s, r);
    }
  }

  lemma JumpJoinsTrueRun(c: Context, g: Gen, i: nat, t: seq<nat>, f: seq<nat>, s: nat, r: Regs)
    requires Compiled(c, g, Kind(VJmp(i)), t, f, NO_REG) && Start(c, s, r)
    ensures Simulates(c, g, Kind(VFalse), t + [i], f, NO_REG, s, r)
  {
    hide Compiled, Exec, Eval, Good, Start, Inverted;
    var o := Exec(c.sem, c.start, s, r);
    if o != Stuck {
      JumpRuns(c, g, g, i, t, f, s, r);
      JumpShape(c, g, i, t, f);
      if o.Here? {
        JumpOutcome(c, g, i, t, f, o.regs, Exec(c.sem, Before(g, Kind(VJmp(i))), s, r));
      }
    }
  }

  lemma JumpShape(c: Context, g: Gen, i: nat, t: seq<nat>, f: seq<nat>)
    requires Compiled(c, g, Kind(VJmp(i)), t, f, NO_REG)
    ensures i >= 1 && |g.code| == i + 1 && g.code[i - 1].Compare? && i in g.pend && g.here == {} && c.base < NO_REG
    ensures forall j :: j in t || j in f ==> 1 <= j < i - 1
  {
    hide Denotes, WellFormed, Grown;
  }

  /** After `invertjump` it joins the other list. */
  lemma JumpJoinsFalseList(c: Context, g: Gen, i: nat, t: seq<nat>, f: seq<nat>)
    requires Compiled(c, g, Kind(VJmp(i)), t, f, NO_REG)
    ensures Compiled(c, Inverted(g, i), Kind(VTrue), t, f + [i], NO_REG)
  {
    var g' := Inverted(g, i);
    JumpFormed(c, g, g', i, Kind(VTrue), t, f);
    forall s: nat, r: Regs | Start(c, s, r) ensures Simulates(c, g', Kind(VTrue), t, f + [i], NO_REG, s, r) {
      JumpJoinsFalseRun(c, g, i, t, f, s, r);
    }
  }

  lemma JumpJoinsFalseRun(c: Context, g: Gen, i: nat, t: seq<nat>, f: seq<nat>, s: nat, r: Regs)
    requires i >= 1 && |g.code| == i + 1 && g.code[i - 1].Compare?
    requires Compiled(c, g, Kind(VJmp(i)), t, f, NO_REG) && Start(c, s, r)
    ensures Simulates(c, Inverted(g, i), Kind(VTrue), t, f + [i], NO_REG, s, r)
  {
    hide Compiled, Exec, Eval, Good, Start, Inverted;
    var o := Exec(c.sem, c.start, s, r);
    if o != Stuck {
      JumpRuns(c, g, Inverted(g, i), i, t, f, s, r);
      JumpShape(c, g, i, t, f);
      if o.Here? {
        JumpOutcome(c, g, i, t, f, o.regs, Exec(c.sem, Before(g, Kind(VJmp(i))), s, r));
      }
    }
  }

  // ---- tests on registers

  lemma TestRuns(sem: Semantics, g: Gen, i: Instr, r: Regs)
    requires |g.code| >= 2 && g.code[|g.code| - 2] == i && g.code[|g.code| - 1].Jmp?
    requires |g.code| - 1 in g.pend && g.here == {}
    requires (i.Test? && i.a < 256) || (i.TestSet? && i.b < 256)
    ensures var x := r[if i.Test? then i.a else i.b];
      Exec(sem, g, |g.code| - 2, r) == if IsFalse(x) != i.cond then Exit(|g.code| - 1, r) else Here(r)
  {
  }

  ghost predicate TruthKnown(k: ExpKind, g: Gen, b: bool) {
    match k
    case VNil => !b
    case VFalse => !b
    case VTrue => b
    case VKNum(_) => b
    case VK(i) => i < |g.k| && IsFalse(g.k[i]) != b
    case _ => false
  }

  /** A constant needs no test. */
  lemma ConstantGivesBranch(c: Context, g: Gen, k: ExpKind, t: seq<nat>, f: seq<nat>, b: bool)
    requires Compiled(c, g, Kind(k), t, f, NO_REG) && TruthKnown(k, g, b)
    ensures Compiled(c, g, Branch(b), t, f, NO_REG)
  {
    forall s: nat, r: Regs | Start(c, s, r) ensures Simulates(c, g, Branch(b), t, f, NO_REG, s, r) {
      assert Simulates(c, g, Kind(k), t, f, NO_REG, s, r);
      hide Exec;
      hide Eval;
    }
  }

  /** The list that takes the jump of a test sensitive to `cond`, and the other list. */
  function TrueList(t: seq<nat>, j: nat, cond: bool): seq<nat> { if cond then t + [j] else t }
  function FalseList(f: seq<nat>, j: nat, cond: bool): seq<nat> { if cond then f else f + [j] }

  lemma TestFormed(c: Context, g: Gen, v: View, t: seq<nat>, f: seq<nat>, i: Instr, v': View, cond: bool)
    requires Formed(c, g, v, t, f) && Before(g, v) == g && i.IsTest()
    requires var g' := EmitTest(g, i); Before(g', v') == g' && Shape(c, g', v')
    ensures var j := |g.code| + 1; Formed(c, EmitTest(g, i), v', TrueList(t, j, cond), FalseList(f, j, cond))
  {
    hide InstrInPlace, JumpsWell, Kept;
    var g', j := EmitTest(g, i), |g.code| + 1;
    EmitTestForm(g, i);
    KeptByEmission(c, g, g', v, t, f, |g.code| + 2);
    OwnTest(c, g', if cond then t else f, j);
  }

  lemma OwnTest(c: Context, g: Gen, l: seq<nat>, j: nat)
    requires OwnJumps(c, g, l, j + 1) && |c.start.code| < j && j in g.pend && Controlled(g.code, j)
    ensures OwnJumps(c, g, l + [j], j + 1)
  {
  }

  /** A TESTSET leaves the expression with the value it tested. */
  lemma TestGivesBranch(c: Context, g: Gen, reg: nat, t: seq<nat>, f: seq<nat>, cond: bool)
    requires Compiled(c, g, Kind(VNonReloc(reg)), t, f, NO_REG) && reg < 256
    ensures var j := |g.code| + 1;
      Compiled(c, EmitTest(g, TestSet(NO_REG, reg, cond)), Branch(!cond), TrueList(t, j, cond), FalseList(f, j, cond),
        NO_REG)
  {
    var i, j := TestSet(NO_REG, reg, cond), |g.code| + 1;
    var g' := EmitTest(g, i);
    var t', f' := TrueList(t, j, cond), FalseList(f, j, cond);
    TestFormed(c, g, Kind(VNonReloc(reg)), t, f, i, Branch(!cond), cond);
    KeptByEmission(c, g, g', Kind(VNonReloc(reg)), t, f, |g.code|);
    hide Formed, Simulates;
    forall s: nat, r: Regs | Start(c, s, r) ensures Simulates(c, g', Branch(!cond), t', f', NO_REG, s, r) {
      TestMeaning(c, g, reg, t, f, cond, s, r);
    }
  }

  lemma TestMeaning(c: Context, g: Gen, reg: nat, t: seq<nat>, f: seq<nat>, cond: bool, s: nat, r: Regs)
    requires Compiled(c, g, Kind(VNonReloc(reg)), t, f, NO_REG) && reg < 256 && Start(c, s, r)
    ensures var j := |g.code| + 1;
      Simulates(c, EmitTest(g, TestSet(NO_REG, reg, cond)), Branch(!cond), TrueList(t, j, cond), FalseList(f, j, cond),
        NO_REG, s, r)
  {
    hide Denotes, Start, WellFormed, TrueList, FalseList, Exec, Good;
    var i, j := TestSet(NO_REG, reg, cond), |g.code| + 1;
    var g' := EmitTest(g, i);
    KeptByEmission(c, g, g', Kind(VNonReloc(reg)), t, f, |g.code|);
    var o, o' := Exec(c.sem, c.start, s, r), Exec(c.sem, g, s, r);
    if o != Stuck {
      EmissionMeaning(c, g, g', Kind(VNonReloc(reg)), t, f, NO_REG, s, r);
      if o.Here? {
        TestOutcome(c, g, g', reg, t, f, cond, o.regs, o');
      }
    }
  }

  lemma TestOutcome(c: Context, g: Gen, g': Gen, reg: nat, t: seq<nat>, f: seq<nat>, cond: bool, r: Regs, o: Outcome)
    requires Good(c, g, Kind(VNonReloc(reg)), t, f, NO_REG, r, o) && reg < 256 && c.base < NO_REG
    requires |g'.code| == |g.code| + 2 && g'.code[|g.code|] == TestSet(NO_REG, reg, cond) && g'.code[|g.code| + 1].Jmp?
    requires |g.code| + 1 in g'.pend && g'.here == {}
    requires forall j :: j in t || j in f ==> 1 <= j < |g.code| && g'.code[j - 1] == g.code[j - 1]
    ensures var j := |g.code| + 1;
      Good(c, g', Branch(!cond), TrueList(t, j, cond), FalseList(f, j, cond), NO_REG, r,
           if o.Here? then Exec(c.sem, g', |g.code|, o.regs) else o)
  {
    hide Eval;
    if o.Here? {
      TestRuns(c.sem, g', g'.code[|g.code|], o.regs);
    }
    hide Exec;
  }

  lemma DischargeNothing(g: Gen)
    requires g.here == {}
    ensures Discharge(g) == g
  {
    assert Discharge(g).code == g.code;
  }

  lemma BeforeIsFormed(c: Context, g: Gen, v: View, t: seq<nat>, f: seq<nat>, b: bool)
    requires Formed(c, g, v, t, f)
    ensures Formed(c, Before(g, v), Branch(b), t, f)
  {
    BeforeIsWellFormed(c, g, v);
    forall j | j in c.start.pend ensures Kept(c.start, Before(g, v), j) {
      assert Kept(c.start, g, j);
    }
  }

  /** The code after `jumponcond` has taken back an OP_NOT. */
  function NotReplaced(g: Gen, i: nat, cond: bool): Gen
    requires i < |g.code| && g.code[i].Not?
  {
    EmitTest(Before(g, Kind(VRelocable(i))), Test(g.code[i].b, !cond))
  }

  lemma NotReplacedForm(c: Context, g: Gen, i: nat, t: seq<nat>, f: seq<nat>, cond: bool)
    requires Formed(c, g, Kind(VRelocable(i)), t, f) && g.code[i].Not?
    ensures Formed(c, NotReplaced(g, i, cond), Branch(!cond), TrueList(t, i + 1, cond), FalseList(f, i + 1, cond))
    ensures Extends(Before(g, Kind(VRelocable(i))), NotReplaced(g, i, cond))
    ensures forall j :: j in t || j in f ==> 1 <= j < i && NotReplaced(g, i, cond).code[j - 1] == g.code[j - 1]
  {
    hide WellFormed, Grown, OwnJumps, EmitTest, Discharge, InScope;
    var b, test := Before(g, Kind(VRelocable(i))), Test(g.code[i].b, !cond);
    OwnJumpsBelow(c, g, i, t, f);
    BeforeIsFormed(c, g, Kind(VRelocable(i)), t, f, true);
    DischargeNothing(b);
    NotReplacedCode(b, test);
    TestFormed(c, b, Branch(true), t, f, test, Branch(!cond), cond);
  }

  lemma OwnJumpsBelow(c: Context, g: Gen, i: nat, t: seq<nat>, f: seq<nat>)
    requires Formed(c, g, Kind(VRelocable(i)), t, f)
    ensures forall j :: j in t || j in f ==> 1 <= j < i
  {
  }

  lemma NotReplacedCode(b: Gen, test: Instr)
    requires b.here == {} && Discharge(b) == b
    ensures Extends(b, EmitTest(b, test))
  {
  }

  lemma NotReplacedMeaning(c: Context, g: Gen, i: nat, t: seq<nat>, f: seq<nat>, cond: bool, s: nat, r: Regs)
    requires Compiled(c, g, Kind(VRelocable(i)), t, f, NO_REG) && g.code[i].Not? && Start(c, s, r)
    ensures Simulates(c, NotReplaced(g, i, cond), Branch(!cond), TrueList(t, i + 1, cond), FalseList(f, i + 1, cond),
      NO_REG, s, r)
  {
    hide Formed, Start, Exec, Good, NotReplaced, WellFormed, Extends;
    LastIsThere(c, g, i, t, f);
    var b, g' := Before(g, Kind(VRelocable(i))), NotReplaced(g, i, cond);
    var o, o' := Exec(c.sem, c.start, s, r), Exec(c.sem, b, s, r);
    assert Simulates(c, g, Kind(VRelocable(i)), t, f, NO_REG, s, r);
    if o != Stuck {
      Starting(c, g, Kind(VRelocable(i)), t, f, s, r);
      NotReplacedForm(c, g, i, t, f, cond);
      NotReplacedNumbers(c, g, i, t, f, cond);
      StuckIsNotGood(c, g, Kind(VRelocable(i)), t, f, NO_REG);
      ExtendContinuesRuns(c.sem, b, g', s, r);
      if o.Here? && o'.Here? {
        RemovedNotOutcome(c, g, g', i, t, f, cond, o.regs, o'.regs);
      } else if o.Here? {
        GoodIsLocalExit(c, g, g', Kind(VRelocable(i)), Branch(!cond), t, f, NO_REG, o.regs, o');
        ExitWithMoreJumps(c, g', !cond, t, f, i + 1, cond, o.regs, o');
      }
    }
  }

  lemma LastIsThere(c: Context, g: Gen, i: nat, t: seq<nat>, f: seq<nat>)
    requires Compiled(c, g, Kind(VRelocable(i)), t, f, NO_REG)
    ensures |g.code| == i + 1
  {
  }

  lemma NotReplacedNumbers(c: Context, g: Gen, i: nat, t: seq<nat>, f: seq<nat>, cond: bool)
    requires Formed(c, g, Kind(VRelocable(i)), t, f) && g.code[i].Not?
    ensures var g' := NotReplaced(g, i, cond);
      && |g.code| == i + 1 && |g'.code| == i + 2 && g'.code[i] == Test(g.code[i].b, !cond) && g'.code[i + 1].Jmp?
      && i + 1 in g'.pend && g'.here == {} && |Before(g, Kind(VRelocable(i))).code| == i && c.base < NO_REG
  {
    DischargeNothing(Before(g, Kind(VRelocable(i))));
  }

  /** A run that leaves through one of the older jumps leaves through the longer lists. */
  lemma ExitWithMoreJumps(c: Context, g: Gen, b: bool, t: seq<nat>, f: seq<nat>, pc: nat, cond: bool, r: Regs,
      o: Outcome)
    requires Good(c, g, Branch(b), t, f, NO_REG, r, o) && !o.Here?
    ensures Good(c, g, Branch(b), TrueList(t, pc, cond), FalseList(f, pc, cond), NO_REG, r, o)
  {
    hide Eval;
  }

  /** The removed OP_NOT: the test that replaces it leaves with the negation it would have given. */
  lemma RemovedNotGivesBranch(c: Context, g: Gen, i: nat, t: seq<nat>, f: seq<nat>, cond: bool)
    requires Compiled(c, g, Kind(VRelocable(i)), t, f, NO_REG) && g.code[i].Not?
    ensures Compiled(c, NotReplaced(g, i, cond), Branch(!cond), TrueList(t, i + 1, cond), FalseList(f, i + 1, cond),
      NO_REG)
  {
    hide Simulates, Start, NotReplaced, Exec, Good, WellFormed;
    NotReplacedForm(c, g, i, t, f, cond);
    hide Formed;
    forall s: nat, r: Regs | Start(c, s, r)
      ensures Simulates(c, NotReplaced(g, i, cond), Branch(!cond), TrueList(t, i + 1, cond), FalseList(f, i + 1, cond),
        NO_REG, s, r)
    {
      NotReplacedMeaning(c, g, i, t, f, cond, s, r);
    }
  }

  lemma RemovedNotOutcome(c: Context, g: Gen, g': Gen, i: nat, t: seq<nat>, f: seq<nat>, cond: bool, r: Regs, r': Regs)
    requires i < |g.code| && g.code[i].Not?
    requires |g'.code| == i + 2 && g'.code[i] == Test(g.code[i].b, !cond) && g'.code[i + 1].Jmp?
    requires i + 1 in g'.pend && g'.here == {}
    requires Good(c, g, Kind(VRelocable(i)), t, f, NO_REG, r, Here(r'))
    ensures Good(c, g', Branch(!cond), TrueList(t, i + 1, cond), FalseList(f, i + 1, cond), NO_REG, r,
      Exec(c.sem, g', i, r'))
  {
    hide Eval;
    TestRuns(c.sem, g', g'.code[i], r');
    hide Exec;
  }

  // ---- sending a list to the next position

  lemma SentHereForm(g: Gen, g': Gen, l: set<nat>)
    requires WellFormed(g) && SentHere(g, g', l)
    ensures WellFormed(g')
  {
    forall j | 0 <= j < |g'.code| && g'.code[j].Jmp? && j !in g'.pend && j !in g'.here
      ensures JumpsWell(g'.code, j, g'.lastTarget)
    {
      assert JumpsWell(g.code, j, g.lastTarget);
    }
  }

  /** `luaK_patchtohere` after a test: runs that already know the expression to be what the test
      wants skip the rest of it. */
  lemma ClosedListCompiled(c: Context, g: Gen, g': Gen, b: bool, t: seq<nat>, f: seq<nat>)
    requires Compiled(c, g, Branch(b), t, f, NO_REG) && SentHere(g, g', Elems(if b then t else f))
    ensures Compiled(c, g', Branch(b), if b then [] else t, if b then f else [], NO_REG)
  {
    var l := Elems(if b then t else f);
    var t', f' := if b then [] else t, if b then f else [];
    SentHereForm(g, g', l);
    forall j | j in c.start.pend ensures Kept(c.start, g', j) {
      assert Kept(c.start, g, j);
    }
    assert Formed(c, g', Branch(b), t', f');
    forall s: nat, r: Regs | Start(c, s, r) ensures Simulates(c, g', Branch(b), t', f', NO_REG, s, r) {
      Starting(c, g, Branch(b), t, f, s, r);
      SendHereRedirectsRuns(c.sem, g, g', l, s, r);
      assert Simulates(c, g, Branch(b), t, f, NO_REG, s, r);
      OuterExits(c, g, l, t, f, s, r);
      hide Formed;
      hide Exec;
      hide Eval;
      hide WellFormed;
    }
  }

  /** A run that left before the expression began did not leave through one of its jumps. */
  lemma OuterExits(c: Context, g: Gen, l: set<nat>, t: seq<nat>, f: seq<nat>, s: nat, r: Regs)
    requires s <= |c.start.code|
    requires forall j :: j in l ==> |c.start.code| < j
    ensures var o := Exec(c.sem, c.start, s, r); o.Exit? ==> o.j !in l
  {
    ExitIsInside(c.sem, c.start, s, r);
  }

  lemma {:induction false} ExitIsInside(sem: Semantics, g: Gen, pc: nat, r: Regs)
    requires pc <= |g.code|
    ensures var o := Exec(sem, g, pc, r); o.Exit? ==> o.j <= |g.code| && o.j in g.pend
    decreases |g.code| - pc
  {
    if pc < |g.code| {
      var p := Step(sem, g, pc, r);
      if p.Continue? && pc < p.pc <= |g.code| {
        ExitIsInside(sem, g, p.pc, p.regs);
      }
      ActionShape(sem, g.k, g.code[pc], pc, r);
    }
  }
}
