/** How the meanings of operands combine when an operator is compiled. */
module LuaOperators {
  import opened LuaResults
  import opened LuaValues
  import opened LuaExpressions
  import opened LuaOpcodes
  import opened LuaVM
  import opened LuaCodeEdits
  import opened LuaDenotation

  // ---- literals, and descriptors that stand for the same value

  /** Before anything is emitted, a descriptor of the expression's value denotes it. */
  lemma NothingEmitted(c: Context, k: ExpKind)
    requires WellFormed(c.start) && c.nactvar <= c.base < NO_REG && InScope(c.sem, c.x, c.nactvar)
    requires forall j :: j in c.start.pend ==> Controlled(c.start.code, j)
    requires Before(c.start, Kind(k)) == c.start && Shape(c, c.start, Kind(k))
    requires forall r: Regs :: ValueOf(c.sem, c.start, k, r) == Some(Eval(c.sem, c.x, r))
    ensures Compiled(c, c.start, Kind(k), [], [], NO_REG)
  {
    hide Eval;
    forall s: nat, r: Regs | Start(c, s, r) ensures Simulates(c, c.start, Kind(k), [], [], NO_REG, s, r) {
      hide Exec;
    }
  }

  /** `k'` stands for the same value as `k`, possibly in a longer constant table. */
  ghost predicate SameValue(c: Context, g: Gen, k': seq<Value>, kind: ExpKind, kind': ExpKind) {
    && g.k <= k'
    && !kind.VRelocable? && !kind.VJmp? && !kind'.VRelocable? && !kind'.VJmp?
    && Shape(c, g.(k := k'), Kind(kind'))
    && forall r: Regs :: ValueOf(c.sem, g, kind, r).Some? ==>
         ValueOf(c.sem, g.(k := k'), kind', r) == ValueOf(c.sem, g, kind, r)
  }

  lemma SameValueCompiled(c: Context, g: Gen, k': seq<Value>, kind: ExpKind, kind': ExpKind, t: seq<nat>, f: seq<nat>,
      w: nat)
    requires Compiled(c, g, Kind(kind), t, f, w) && SameValue(c, g, k', kind, kind')
    ensures Compiled(c, g.(k := k'), Kind(kind'), t, f, w)
  {
    var g' := g.(k := k');
    forall j | j in c.start.pend ensures Kept(c.start, g', j) {
      assert Kept(c.start, g, j);
    }
    assert Formed(c, g', Kind(kind'), t, f);
    forall s: nat, r: Regs | Start(c, s, r) ensures Simulates(c, g', Kind(kind'), t, f, w, s, r) {
      SameValueMeaning(c, g, k', kind, kind', t, f, w, s, r);
    }
  }

  lemma SameValueMeaning(c: Context, g: Gen, k': seq<Value>, kind: ExpKind, kind': ExpKind, t: seq<nat>, f: seq<nat>,
      w: nat, s: nat, r: Regs)
    requires Compiled(c, g, Kind(kind), t, f, w) && SameValue(c, g, k', kind, kind') && Start(c, s, r)
    ensures Simulates(c, g.(k := k'), Kind(kind'), t, f, w, s, r)
  {
    Starting(c, g, Kind(kind), t, f, s, r);
    assert Simulates(c, g, Kind(kind), t, f, w, s, r);
    StuckIsNotGood(c, g, Kind(kind), t, f, w);
    if Exec(c.sem, c.start, s, r) != Stuck {
      MoreConstantsKeepRuns(c.sem, g, k', s, r);
    }
    hide Formed;
    hide Denotes;
    hide Exec;
    hide Eval;
  }

  // ---- not

  function Negation(c: Context): Context {
    c.(x := Unary(UnOp.Not, c.x))
  }

  /** `kind'` at the end of `g'` is the negation of `kind` at the end of `g`. */
  ghost predicate NegatesValue(sem: Semantics, g: Gen, kind: ExpKind, g': Gen, kind': ExpKind) {
    forall r: Regs :: ValueOf(sem, g, kind, r).Some? ==>
      var v := ValueOf(sem, g, kind, r).value;
      ValueOf(sem, g', kind', r) == Some(if v.None? then None else Some(Bool(IsFalse(v.value))))
  }

  lemma NegatedOutcome(c: Context, g: Gen, kind: ExpKind, g': Gen, kind': ExpKind, t: seq<nat>, f: seq<nat>, r: Regs,
      o: Outcome)
    requires Good(c, g, Kind(kind), t, f, NO_REG, r, o)
    requires NegatesValue(c.sem, g, kind, g', kind')
    requires forall j :: j in t || j in f ==> !CarriesValue(g'.code, j)
    ensures Good(Negation(c), g', Kind(kind'), f, t, NO_REG, r, o)
  {
    assert Eval(c.sem, Negation(c).x, r) ==
      var v := Eval(c.sem, c.x, r); if v.None? then None else Some(Bool(IsFalse(v.value)));
    hide Eval;
    hide ValueOf;
  }

  /** `codenot` swaps the lists and takes the values from their tests. */
  lemma NegatedCompiled(c: Context, g: Gen, kind: ExpKind, g': Gen, kind': ExpKind, t: seq<nat>, f: seq<nat>)
    requires Compiled(c, g, Kind(kind), t, f, NO_REG)
    requires Formed(Negation(c), g', Kind(kind'), f, t)
    requires NegatesValue(c.sem, g, kind, g', kind')
    requires forall j :: j in t || j in f ==> !CarriesValue(g'.code, j)
    requires forall s: nat, r: Regs :: EntryPoint(Before(g, Kind(kind)).code, s) ==>
               Exec(c.sem, Before(g', Kind(kind')), s, r) == Exec(c.sem, Before(g, Kind(kind)), s, r)
    ensures Compiled(Negation(c), g', Kind(kind'), f, t, NO_REG)
  {
    forall s: nat, r: Regs | Start(Negation(c), s, r)
      ensures Simulates(Negation(c), g', Kind(kind'), f, t, NO_REG, s, r) {
      assert Start(c, s, r);
      Starting(c, g, Kind(kind), t, f, s, r);
      assert Simulates(c, g, Kind(kind), t, f, NO_REG, s, r);
      var o := Exec(c.sem, c.start, s, r);
      if o.Here? {
        NegatedOutcome(c, g, kind, g', kind', t, f, o.regs, Exec(c.sem, Before(g, Kind(kind)), s, r));
      }
      hide Formed;
      hide Exec;
      hide Good;
    }
  }

  lemma UnvaluedForm(g: Gen, g': Gen, l: set<nat>)
    requires WellFormed(g) && Unvalued(g, g', l)
    ensures WellFormed(g')
    ensures forall i :: 0 <= i < |g.code| ==> g'.code[i].IsTest() == g.code[i].IsTest()
    ensures forall j: nat :: Controlled(g.code, j) && j !in l ==>
      g'.code[j] == g.code[j] && g'.code[j - 1] == g.code[j - 1]
    ensures forall j :: j in l ==> !CarriesValue(g'.code, j)
  {
    forall i | 0 <= i < |g'.code| ensures InstrInPlace(g'.code, i) {
      assert InstrInPlace(g.code, i);
    }
    forall j | 0 <= j < |g'.code| && g'.code[j].Jmp? && j !in g'.pend && j !in g'.here
      ensures JumpsWell(g'.code, j, g'.lastTarget)
    {
      assert JumpsWell(g.code, j, g.lastTarget);
    }
  }

  /** The code after `removevalues` on both lists. */
  function WithoutValues(g: Gen, t: seq<nat>, f: seq<nat>): Gen {
    g.(code := ValuesRemoved(g.code, Elems(t + f)))
  }

  lemma WithoutValuesFormed(c: Context, g: Gen, v: View, t: seq<nat>, f: seq<nat>, v': View)
    requires Formed(c, g, v, t, f)
    requires var g' := WithoutValues(g, t, f);
      |Before(g', v').code| == |Before(g, v).code| && Shape(Negation(c), g', v')
    ensures Formed(Negation(c), WithoutValues(g, t, f), v', f, t)
    ensures forall j :: j in t || j in f ==> !CarriesValue(WithoutValues(g, t, f).code, j)
    ensures Elems(t + f) <= g.pend
  {
    var g' := WithoutValues(g, t, f);
    UnvaluedForm(g, g', Elems(t + f));
    forall j | j in c.start.pend ensures Kept(c.start, g', j) {
      assert Kept(c.start, g, j);
      assert j !in t && j !in f;
    }
  }

  lemma NotOfConstant(c: Context, g: Gen, kind: ExpKind, kind': ExpKind, t: seq<nat>, f: seq<nat>)
    requires Compiled(c, g, Kind(kind), t, f, NO_REG)
    requires (kind' == VTrue && TruthKnown(kind, g, false)) || (kind' == VFalse && TruthKnown(kind, g, true))
    ensures Compiled(Negation(c), WithoutValues(g, t, f), Kind(kind'), f, t, NO_REG)
  {
    var g' := WithoutValues(g, t, f);
    WithoutValuesFormed(c, g, Kind(kind), t, f, Kind(kind'));
    forall s: nat, r: Regs | EntryPoint(g.code, s) ensures Exec(c.sem, g', s, r) == Exec(c.sem, g, s, r) {
      UnvalueKeepsRuns(c.sem, g, g', Elems(t + f), s, r);
    }
    hide Formed;
    hide Denotes;
    hide Exec;
    NegatedCompiled(c, g, kind, g', kind', t, f);
  }

  lemma InvertedFormed(c: Context, g: Gen, i: nat, t: seq<nat>, f: seq<nat>)
    requires Formed(c, g, Kind(VJmp(i)), t, f)
    ensures Formed(c, Inverted(g, i), Kind(VJmp(i)), t, f)
  {
    JumpFormed(c, g, Inverted(g, i), i, Kind(VTrue), t, f);
    var g' := Inverted(g, i);
    forall j | j in c.start.pend ensures Kept(c.start, g', j) {
      assert Kept(c.start, g, j);
    }
  }

  lemma NotOfComparison(c: Context, g: Gen, i: nat, t: seq<nat>, f: seq<nat>)
    requires Compiled(c, g, Kind(VJmp(i)), t, f, NO_REG)
    ensures Compiled(Negation(c), WithoutValues(Inverted(g, i), t, f), Kind(VJmp(i)), f, t, NO_REG)
  {
    var g1 := Inverted(g, i);
    var b, g' := Before(g, Kind(VJmp(i))), WithoutValues(g1, t, f);
    InvertedFormed(c, g, i, t, f);
    assert forall j :: j in t + f ==> j < i - 1;
    WithoutValuesFormed(c, g1, Kind(VJmp(i)), t, f, Kind(VJmp(i)));
    BeforeIsWellFormed(c, g, Kind(VJmp(i)));
    var b' := Before(g', Kind(VJmp(i)));
    assert Unvalued(b, b', Elems(t + f)) by {
      assert b'.code == ValuesRemoved(b.code, Elems(t + f));
    }
    forall s: nat, r: Regs | EntryPoint(b.code, s) ensures Exec(c.sem, b', s, r) == Exec(c.sem, b, s, r) {
      UnvalueKeepsRuns(c.sem, b, b', Elems(t + f), s, r);
    }
    assert g'.code[i - 1] == Negated(g.code[i - 1]);
    assert NegatesValue(c.sem, g, VJmp(i), g', VJmp(i));
    hide Formed;
    hide Denotes;
    hide Exec;
    NegatedCompiled(c, g, VJmp(i), g', VJmp(i), t, f);
  }

  /** The code after OP_NOT, and after its lists have lost their values. */
  function NotEmitted(g: Gen, reg: nat, t: seq<nat>, f: seq<nat>): Gen {
    WithoutValues(Emit(g, Instr.Not(0, reg)), t, f)
  }

  lemma NotEmittedFormed(c: Context, g: Gen, reg: nat, t: seq<nat>, f: seq<nat>)
    requires Formed(c, g, Kind(VNonReloc(reg)), t, f)
    ensures var g', v := NotEmitted(g, reg, t, f), Kind(VRelocable(|g.code|));
      && Formed(Negation(c), g', v, f, t)
      && (forall j :: j in t || j in f ==> !CarriesValue(g'.code, j))
      && |g'.code| == |g.code| + 1 && g'.code[|g.code|] == Instr.Not(0, reg)
      && Unvalued(Discharge(g), Before(g', v), Elems(t + f))
  {
    hide Formed, Emit, Discharge, Unvalued, ValuesRemoved;
    var v, g1 := Kind(VRelocable(|g.code|)), Emit(g, Instr.Not(0, reg));
    NotAddedFormed(c, g, reg, t, f);
    AddedSize(g, Instr.Not(0, reg), t, f);
    WithoutValuesFormed(c, g1, v, t, f, v);
    NotEmittedUnvalues(g, reg, t, f);
  }

  lemma AddedSize(g: Gen, i: Instr, t: seq<nat>, f: seq<nat>)
    requires !i.IsTest() && forall j :: j in t + f ==> j < |g.code|
    ensures |Emit(g, i).code| == |g.code| + 1 && Emit(g, i).pend == g.pend
    ensures |WithoutValues(Emit(g, i), t, f).code| == |g.code| + 1 &&
      WithoutValues(Emit(g, i), t, f).code[|g.code|] == i
  {
  }

  lemma NotEmittedUnvalues(g: Gen, reg: nat, t: seq<nat>, f: seq<nat>)
    requires Elems(t + f) <= g.pend && forall j :: j in t + f ==> j < |g.code|
    ensures Unvalued(Discharge(g), Before(NotEmitted(g, reg, t, f), Kind(VRelocable(|g.code|))), Elems(t + f))
  {
    NotEmittedBefore(g, reg, t, f);
    hide NotEmitted;
  }

  lemma NotAddedFormed(c: Context, g: Gen, reg: nat, t: seq<nat>, f: seq<nat>)
    requires Formed(c, g, Kind(VNonReloc(reg)), t, f)
    ensures var g1, v := Emit(g, Instr.Not(0, reg)), Kind(VRelocable(|g.code|));
      && Formed(c, g1, v, t, f) && Shape(Negation(c), WithoutValues(g1, t, f), v)
    ensures forall j :: j in t + f ==> j < |g.code|
  {
    hide WellFormed, Grown, OwnJumps, Emit, Discharge, Extends, InScope;
    var g1 := Emit(g, Instr.Not(0, reg));
    EmitForm(g, Instr.Not(0, reg));
    EmittedCode(g, Instr.Not(0, reg));
    KeptByEmission(c, g, g1, Kind(VNonReloc(reg)), t, f, |g.code|);
    LastUnvalued(g1, t, f, |g.code|);
  }

  lemma EmittedCode(g: Gen, i: Instr)
    requires WellFormed(g)
    ensures var g1 := Emit(g, i);
      && Extends(Discharge(g), g1) && g.pend <= g1.pend && g1.lastTarget == g.lastTarget <= |g.code| && g1.here == {}
      && |g1.code| == |g.code| + 1 && g1.code[|g.code|] == i
  {
    DischargeForm(g);
  }

  lemma LastUnvalued(g: Gen, t: seq<nat>, f: seq<nat>, n: nat)
    requires |g.code| == n + 1 && !g.code[n].IsTest() && forall j :: j in t || j in f ==> j < n
    ensures WithoutValues(g, t, f).code[n] == g.code[n] && |WithoutValues(g, t, f).code| == n + 1
    ensures forall j :: j in t + f ==> j < n
  {
  }

  lemma NotEmittedBefore(g: Gen, reg: nat, t: seq<nat>, f: seq<nat>)
    requires forall j :: j in t + f ==> j < |g.code|
    ensures Before(NotEmitted(g, reg, t, f), Kind(VRelocable(|g.code|))) ==
      Discharge(g).(code := ValuesRemoved(Discharge(g).code, Elems(t + f)))
  {
    assert Before(NotEmitted(g, reg, t, f), Kind(VRelocable(|g.code|))).code ==
      ValuesRemoved(Discharge(g).code, Elems(t + f));
  }

  lemma NotOfRegister(c: Context, g: Gen, reg: nat, t: seq<nat>, f: seq<nat>)
    requires Compiled(c, g, Kind(VNonReloc(reg)), t, f, NO_REG)
    ensures Compiled(Negation(c), NotEmitted(g, reg, t, f), Kind(VRelocable(|g.code|)), f, t, NO_REG)
  {
    hide Formed, Denotes, Exec, Discharge, NotEmitted, Unvalued;
    var g', b' := NotEmitted(g, reg, t, f), Before(NotEmitted(g, reg, t, f), Kind(VRelocable(|g.code|)));
    NotEmittedFormed(c, g, reg, t, f);
    FormIsWellFormed(c, g, Kind(VNonReloc(reg)), t, f);
    DischargeForm(g);
    forall s: nat, r: Regs | EntryPoint(g.code, s) ensures Exec(c.sem, b', s, r) == Exec(c.sem, g, s, r) {
      DischargedSize(g);
      UnvalueKeepsRuns(c.sem, Discharge(g), b', Elems(t + f), s, r);
      DischargeKeepsRuns(c.sem, g, Discharge(g), s, r) by {
        DischargedSize(g);
      }
    }
    NegatedCompiled(c, g, VNonReloc(reg), g', VRelocable(|g.code|), t, f);
  }

  lemma FormIsWellFormed(c: Context, g: Gen, v: View, t: seq<nat>, f: seq<nat>)
    requires Formed(c, g, v, t, f)
    ensures WellFormed(g)
  {
  }

  lemma DischargedSize(g: Gen)
    ensures |Discharge(g).code| == |g.code| && Discharged(g, Discharge(g))
  {
  }

  // ---- and, or

  /** The second operand is compiled where the first one left off. */
  ghost predicate Follows(c1: Context, c2: Context, c: Context) {
    && c1 == c.(x := c1.x)
    && c2 == c.(x := c2.x, start := c2.start, base := c2.base)
    && c.base <= c2.base
  }

  lemma StartsLater(c1: Context, c2: Context, c: Context, v: View, t: seq<nat>, f: seq<nat>, s: nat, r: Regs)
    requires Follows(c1, c2, c) && Formed(c1, c2.start, v, t, f) && Start(c, s, r)
    requires v.Kind? ==> !v.k.VRelocable? && !v.k.VJmp?
    ensures Start(c2, s, r)
  {
  }

  /** What is known when the second operand begins. */
  lemma FirstOperand(c1: Context, c2: Context, c: Context, v1: View, t1: seq<nat>, f1: seq<nat>, s: nat, r: Regs)
    requires Follows(c1, c2, c) && Start(c, s, r)
    requires Compiled(c1, c2.start, v1, t1, f1, NO_REG) && Before(c2.start, v1) == c2.start
    requires v1.Kind? ==> !v1.k.VRelocable? && !v1.k.VJmp?
    ensures Start(c2, s, r)
    ensures var o, o1 := Exec(c.sem, c.start, s, r), Exec(c.sem, c2.start, s, r);
      if o.Here? then Good(c1, c2.start, v1, t1, f1, NO_REG, o.regs, o1) else o == Stuck || o1 == o
  {
    StartsLater(c1, c2, c, v1, t1, f1, s, r);
    assert Simulates(c1, c2.start, v1, t1, f1, NO_REG, s, r);
    hide Exec;
    hide Good;
  }

  /** The operator that goes on to its second operand when the first is true, or false. */
  predicate Continues(op: BinOp, b: bool) {
    (op.And? && b) || (op.Or? && !b)
  }

  lemma ShortCircuit(c: Context, op: BinOp, b: bool, x1: Expr, x2: Expr, r: Regs, r': Regs)
    requires c.x == Binary(op, x1, x2) && Continues(op, b)
    requires InScope(c.sem, c.x, c.nactvar) && c.nactvar <= c.base < NO_REG && Agree(r, r', c.base, NO_REG)
    ensures Eval(c.sem, x2, r') == Eval(c.sem, x2, r)
    ensures var v := Eval(c.sem, x1, r);
      Eval(c.sem, c.x, r) == if v.None? || IsFalse(v.value) == b then v else Eval(c.sem, x2, r)
  {
    EvalReadsLocalsOnly(c.sem, x2, c.nactvar, r', r);
  }

  /** The second operand's outcome, seen from the start of the whole expression. */
  lemma ShortCircuitOutcome(c1: Context, c2: Context, c: Context, op: BinOp, b: bool, l1: seq<nat>, g: Gen, v: View,
      t: seq<nat>, f: seq<nat>, r: Regs, r': Regs, o: Outcome)
    requires Follows(c1, c2, c) && c2.base == c.base && Continues(op, b) && c.x == Binary(op, c1.x, c2.x)
    requires InScope(c.sem, c.x, c.nactvar) && c.nactvar <= c.base < NO_REG
    requires v.Kind? || v.Branch?
    requires Good(c1, c2.start, Branch(b), [], [], NO_REG, r, Here(r'))
    requires Good(c2, g, v, t, f, NO_REG, r', o)
    ensures Good(c, g, v, t + l1, f, NO_REG, r, o) && Good(c, g, v, t, f + l1, NO_REG, r, o)
  {
    ShortCircuit(c, op, b, c1.x, c2.x, r, r');
    hide Eval;
  }

  /** `luaK_posfix` for `and` and `or`: the open jumps of the first operand, all taken when it decides
      the result, join those of the second. */
  lemma ShortCircuitCompiled(c1: Context, c2: Context, c: Context, op: BinOp, b: bool, l1: seq<nat>, g: Gen, v: View,
      t: seq<nat>, f: seq<nat>)
    requires Follows(c1, c2, c) && c2.base == c.base && Continues(op, b) && c.x == Binary(op, c1.x, c2.x)
    requires Compiled(c1, c2.start, Branch(b), if b then [] else l1, if b then l1 else [], NO_REG)
    requires Compiled(c2, g, v, t, f, NO_REG) && (v.Kind? || v.Branch?)
    ensures Compiled(c, g, v, if b then t else t + l1, if b then f + l1 else f, NO_REG)
  {
    var t', f' := if b then t else t + l1, if b then f + l1 else f;
    ShortCircuitFormed(c1, c2, c, op, b, l1, g, v, t, f);
    forall s: nat, r: Regs | Start(c, s, r) ensures Simulates(c, g, v, t', f', NO_REG, s, r) {
      ShortCircuitMeaning(c1, c2, c, op, b, l1, g, v, t, f, s, r);
    }
  }

  lemma ShortCircuitFormed(c1: Context, c2: Context, c: Context, op: BinOp, b: bool, l1: seq<nat>, g: Gen, v: View,
      t: seq<nat>, f: seq<nat>)
    requires Follows(c1, c2, c) && c2.base == c.base && c.x == Binary(op, c1.x, c2.x)
    requires Formed(c1, c2.start, Branch(b), if b then [] else l1, if b then l1 else [])
    requires Formed(c2, g, v, t, f)
    ensures Formed(c, g, v, if b then t else t + l1, if b then f + l1 else f)
  {
    forall j | j in c.start.pend ensures Kept(c.start, g, j) {
      assert Kept(c.start, c2.start, j);
      assert Kept(c2.start, g, j);
    }
    forall j | j in l1 ensures Controlled(g.code, j) && j in g.pend && j <= |c2.start.code| {
      assert Kept(c2.start, g, j);
    }
    assert |c2.start.code| <= |Before(g, v).code|;
  }

  lemma ShortCircuitMeaning(c1: Context, c2: Context, c: Context, op: BinOp, b: bool, l1: seq<nat>, g: Gen, v: View,
      t: seq<nat>, f: seq<nat>, s: nat, r: Regs)
    requires Follows(c1, c2, c) && c2.base == c.base && Continues(op, b) && c.x == Binary(op, c1.x, c2.x)
    requires Compiled(c1, c2.start, Branch(b), if b then [] else l1, if b then l1 else [], NO_REG)
    requires Compiled(c2, g, v, t, f, NO_REG) && (v.Kind? || v.Branch?)
    requires Start(c, s, r)
    ensures Simulates(c, g, v, if b then t else t + l1, if b then f + l1 else f, NO_REG, s, r)
  {
    var t1, f1 := if b then [] else l1, if b then l1 else [];
    FirstOperand(c1, c2, c, Branch(b), t1, f1, s, r);
    var o, o1 := Exec(c.sem, c.start, s, r), Exec(c.sem, c2.start, s, r);
    assert Simulates(c2, g, v, t, f, NO_REG, s, r);
    assert forall j :: j in l1 ==> Kept(c2.start, g, j);
    hide Denotes;
    hide Exec;
    if o.Here? {
      if o1.Here? {
        FirstOperandFallsThrough(c1, c2.start, b, l1, o.regs, o1);
        ShortCircuitOutcome(c1, c2, c, op, b, l1, g, v, t, f, o.regs, o1.regs, Exec(c.sem, Before(g, v), s, r));
      } else {
        ShortCircuit(c, op, b, c1.x, c2.x, o.regs, o.regs);
        hide Eval;
        hide Formed;
      }
    }
  }

  lemma FirstOperandFallsThrough(c1: Context, g: Gen, b: bool, l1: seq<nat>, r: Regs, o: Outcome)
    requires Good(c1, g, Branch(b), if b then [] else l1, if b then l1 else [], NO_REG, r, o) && o.Here?
    ensures Good(c1, g, Branch(b), [], [], NO_REG, r, o)
  {
    hide Eval;
  }

  // ---- operands

  predicate IsOperand(k: ExpKind) {
    k.VK? || k.VKNum? || k.VNonReloc?
  }

  /** Code compiled from register `base` on leaves the operand alone. */
  predicate StaysPut(k: ExpKind, base: nat) {
    IsOperand(k) && (k.VNonReloc? ==> k.info < base)
  }

  predicate IsStrict(op: BinOp) { !op.And? && !op.Or? }

  lemma OperandStays(sem: Semantics, g: Gen, g': Gen, k: ExpKind, base: nat, r: Regs, r': Regs)
    requires StaysPut(k, base) && g.k <= g'.k && Agree(r, r', base, NO_REG) && base < NO_REG
    requires ValueOf(sem, g, k, r).Some?
    ensures ValueOf(sem, g', k, r') == ValueOf(sem, g, k, r) && ValueOf(sem, g, k, r).value.Some?
  {
  }

  lemma PairOutcome(c1: Context, c2: Context, c: Context, k1: ExpKind, g: Gen, k2: ExpKind, r: Regs, r': Regs,
      o: Outcome)
    requires Follows(c1, c2, c) && StaysPut(k1, c2.base) && IsOperand(k2) && c2.start.k <= g.k && c2.base < NO_REG
    requires c.x.Binary? && IsStrict(c.x.bop) && c.x.left == c1.x && c.x.right == c2.x
    requires InScope(c.sem, c.x, c.nactvar) && c.nactvar <= c.base
    requires Good(c1, c2.start, Kind(k1), [], [], NO_REG, r, Here(r'))
    requires Good(c2, g, Kind(k2), [], [], NO_REG, r', o)
    ensures Good(c, g, Operands(k1, k2), [], [], NO_REG, r, o)
  {
    EvalReadsLocalsOnly(c.sem, c2.x, c.nactvar, r, r');
    var v, w := Eval(c.sem, c1.x, r), Eval(c.sem, c2.x, r);
    assert v.None? || w.None? ==> Eval(c.sem, c.x, r) == None;
    hide Eval;
    if o.Here? {
      OperandStays(c.sem, c2.start, g, k1, c2.base, r', o.regs);
      assert ValueOf(c.sem, g, k2, o.regs).value.Some?;
    }
  }

  lemma FollowingFormed(c1: Context, c2: Context, c: Context, v1: View, g: Gen, v: View, v': View)
    requires Follows(c1, c2, c) && InScope(c.sem, c.x, c.nactvar)
    requires Formed(c1, c2.start, v1, [], []) && Before(c2.start, v1) == c2.start
    requires Formed(c2, g, v, [], []) && Before(g, v) == g && Before(g, v') == g && Shape(c, g, v')
    ensures Formed(c, g, v', [], [])
  {
    forall j | j in c.start.pend ensures Kept(c.start, g, j) {
      assert Kept(c.start, c2.start, j);
      assert Kept(c2.start, g, j);
    }
  }

  /** Both operands of a strict operator have been compiled. */
  lemma PairCompiled(c1: Context, c2: Context, c: Context, k1: ExpKind, g: Gen, k2: ExpKind)
    requires Follows(c1, c2, c) && StaysPut(k1, c2.base) && IsOperand(k2)
    requires c.x.Binary? && IsStrict(c.x.bop) && c.x.left == c1.x && c.x.right == c2.x
    requires Compiled(c1, c2.start, Kind(k1), [], [], NO_REG) && Compiled(c2, g, Kind(k2), [], [], NO_REG)
    ensures Compiled(c, g, Operands(k1, k2), [], [], NO_REG)
  {
    FollowingFormed(c1, c2, c, Kind(k1), g, Kind(k2), Operands(k1, k2));
    forall s: nat, r: Regs | Start(c, s, r) ensures Simulates(c, g, Operands(k1, k2), [], [], NO_REG, s, r) {
      FirstOperand(c1, c2, c, Kind(k1), [], [], s, r);
      var o, o1 := Exec(c.sem, c.start, s, r), Exec(c.sem, c2.start, s, r);
      assert Simulates(c2, g, Kind(k2), [], [], NO_REG, s, r);
      hide Exec;
      hide Denotes;
      hide Start;
      if o.Here? {
        if o1.Here? {
          PairOutcome(c1, c2, c, k1, g, k2, o.regs, o1.regs, Exec(c.sem, g, s, r));
          hide Good;
        }
      }
      hide Formed;
    }
  }

  /** A first operand that is still a number is put where the instruction can use it, after the second. */
  lemma LaterOperandOutcome(c: Context, c3: Context, k1: ExpKind, k2: ExpKind, k3: ExpKind, g: Gen, r: Regs, r': Regs,
      o: Outcome)
    requires c3 == c.(x := c3.x, start := c3.start, base := c3.base) && c.base <= c3.base < NO_REG
    requires k1.VKNum? && c3.x == NumLit(k1.nval) && StaysPut(k2, c3.base) && IsOperand(k3)
    requires c3.start.k <= g.k
    requires Good(c, c3.start, Operands(k1, k2), [], [], NO_REG, r, Here(r'))
    requires Good(c3, g, Kind(k3), [], [], NO_REG, r', o)
    ensures Good(c, g, Operands(k3, k2), [], [], NO_REG, r, o)
  {
    assert Eval(c.sem, c3.x, r') == Some(Num(k1.nval));
    hide Eval;
    if o.Here? {
      OperandStays(c.sem, c3.start, g, k2, c3.base, r', o.regs);
    }
  }

  lemma LaterOperandCompiled(c: Context, c3: Context, k1: ExpKind, k2: ExpKind, k3: ExpKind, g: Gen)
    requires c3 == c.(x := c3.x, start := c3.start, base := c3.base) && c.base <= c3.base
    requires k1.VKNum? && c3.x == NumLit(k1.nval) && StaysPut(k2, c3.base) && IsOperand(k3)
    requires Compiled(c, c3.start, Operands(k1, k2), [], [], NO_REG) && Compiled(c3, g, Kind(k3), [], [], NO_REG)
    ensures Compiled(c, g, Operands(k3, k2), [], [], NO_REG)
  {
    FollowingFormed(c, c3, c, Operands(k1, k2), g, Kind(k3), Operands(k3, k2));
    forall s: nat, r: Regs | Start(c, s, r) ensures Simulates(c, g, Operands(k3, k2), [], [], NO_REG, s, r) {
      FirstOperand(c, c3, c, Operands(k1, k2), [], [], s, r);
      var o, o1 := Exec(c.sem, c.start, s, r), Exec(c.sem, c3.start, s, r);
      assert Simulates(c3, g, Kind(k3), [], [], NO_REG, s, r);
      hide Exec;
      hide Denotes;
      hide Start;
      if o.Here? {
        if o1.Here? {
          LaterOperandOutcome(c, c3, k1, k2, k3, g, o.regs, o1.regs, Exec(c.sem, g, s, r));
        }
        hide Good;
      }
      hide Formed;
    }
  }

  // ---- concatenation takes in the operands of the concatenation that is its second operand

  /** The first operand of the concatenation at `i` becomes register `b`. */
  function Merged(g: Gen, i: nat, b: nat): Gen
    requires i < |g.code| && g.code[i].Concat?
  {
    g.(code := g.code[i := Instr.Concat(g.code[i].a, b, g.code[i].c)])
  }

  lemma OneMoreConcatenated(sem: Semantics, r: Regs, b: nat, c: nat)
    requires b + 1 < c < 256
    ensures sem.ConcatAll(r[b..c + 1]) ==
      var w := sem.ConcatAll(r[b + 1..c + 1]); if w.None? then None else sem.Concat(r[b], w.value)
  {
    assert r[b..c + 1][1..] == r[b + 1..c + 1];
  }

  lemma MergedIsWellFormed(g: Gen, i: nat, b: nat)
    requires WellFormed(g) && i < |g.code| && g.code[i].Concat?
    ensures WellFormed(Merged(g, i, b))
  {
    var g' := Merged(g, i, b);
    forall j | 0 <= j < |g'.code| ensures InstrInPlace(g'.code, j) {
      assert InstrInPlace(g.code, j);
    }
    forall j | 0 <= j < |g'.code| && g'.code[j].Jmp? && j !in g'.pend && j !in g'.here
      ensures JumpsWell(g'.code, j, g'.lastTarget)
    {
      assert JumpsWell(g.code, j, g.lastTarget);
    }
  }

  lemma MergedFormed(c1: Context, c2: Context, c: Context, g: Gen, i: nat)
    requires Follows(c1, c2, c) && InScope(c.sem, c.x, c.nactvar)
    requires Formed(c1, c2.start, Kind(VNonReloc(c.base)), [], [])
    requires Formed(c2, g, Kind(VRelocable(i)), [], []) && g.code[i].Concat?
    ensures Formed(c, Merged(g, i, c.base), Kind(VRelocable(i)), [], [])
  {
    var g' := Merged(g, i, c.base);
    MergedIsWellFormed(g, i, c.base);
    assert Before(g', Kind(VRelocable(i))) == Before(g, Kind(VRelocable(i)));
    forall j | j in c.start.pend ensures Kept(c.start, g', j) {
      assert Kept(c.start, c2.start, j);
      assert Kept(c2.start, g, j);
    }
  }

  lemma MergedOutcome(c1: Context, c2: Context, c: Context, g: Gen, i: nat, r: Regs, r': Regs, o: Outcome)
    requires Follows(c1, c2, c) && c2.base == c.base + 1 < NO_REG && c.x == Binary(BinOp.Concat, c1.x, c2.x)
    requires InScope(c.sem, c.x, c.nactvar) && c.nactvar <= c.base
    requires |g.code| == i + 1 && g.code[i].Concat? && g.code[i].b == c2.base
    requires Good(c1, c2.start, Kind(VNonReloc(c.base)), [], [], NO_REG, r, Here(r'))
    requires Good(c2, g, Kind(VRelocable(i)), [], [], NO_REG, r', o)
    ensures Good(c, Merged(g, i, c.base), Kind(VRelocable(i)), [], [], NO_REG, r, o)
  {
    EvalReadsLocalsOnly(c.sem, c2.x, c.nactvar, r, r');
    assert Eval(c.sem, c1.x, r) == Some(r'[c.base]);
    assert Eval(c.sem, c.x, r) ==
      var w := Eval(c.sem, c2.x, r); if w.None? then None else c.sem.Concat(r'[c.base], w.value);
    hide Eval;
    if o.Here? {
      assert Computed(c.sem, g.k, g.code[i], o.regs) == Some(Eval(c.sem, c2.x, r));
      OneMoreConcatenated(c.sem, o.regs, c.base, g.code[i].c);
    }
  }

  lemma MergedCompiled(c1: Context, c2: Context, c: Context, g: Gen, i: nat)
    requires Follows(c1, c2, c) && c2.base == c.base + 1 && c.x == Binary(BinOp.Concat, c1.x, c2.x)
    requires InScope(c.sem, c.x, c.nactvar)
    requires Compiled(c1, c2.start, Kind(VNonReloc(c.base)), [], [], NO_REG)
    requires Compiled(c2, g, Kind(VRelocable(i)), [], [], NO_REG) && i < |g.code| && g.code[i].Concat?
    ensures Compiled(c, Merged(g, i, c.base), Kind(VRelocable(i)), [], [], NO_REG)
  {
    var g', v := Merged(g, i, c.base), Kind(VRelocable(i));
    MergedFormed(c1, c2, c, g, i);
    RelocateFacts(c2, g, i, [], [], 0);
    assert Before(g', v) == Before(g, v);
    forall s: nat, r: Regs | Start(c, s, r) ensures Simulates(c, g', v, [], [], NO_REG, s, r) {
      FirstOperand(c1, c2, c, Kind(VNonReloc(c.base)), [], [], s, r);
      var o, o1 := Exec(c.sem, c.start, s, r), Exec(c.sem, c2.start, s, r);
      assert Simulates(c2, g, v, [], [], NO_REG, s, r);
      hide Exec;
      hide Denotes;
      hide Start;
      if o.Here? {
        if o1.Here? {
          MergedOutcome(c1, c2, c, g, i, o.regs, o1.regs, Exec(c.sem, Before(g, v), s, r));
          hide Good;
        }
      }
      hide Formed;
    }
  }

  // ---- instructions that use them

  /** `luaK_exp2RK`'s result for an operand that is a constant or a register. */
  function RKOf(k: ExpKind): nat
    requires k.VK? || k.VNonReloc?
  {
    if k.VK? then RKAsK(k.info) else k.info
  }

  predicate FitsRK(k: ExpKind) {
    (k.VK? && k.info <= MAXINDEXRK) || (k.VNonReloc? && k.info < NO_REG)
  }

  /** `i` computes the value of the expression from what the view describes. */
  predicate Feeds(c: Context, g: Gen, v: View, i: Instr) {
    match v
    case Kind(VUpval(u)) => i == GetUpval(0, u)
    case Kind(VGlobal(n)) => i == GetGlobal(0, n)
    case Operand(VNonReloc(reg)) =>
      c.x.Unary? && ((c.x.uop.Minus? && i == Unm(0, reg)) || (c.x.uop.Len? && i == Instr.Len(0, reg)))
    case Operands(k1, k2) =>
      && FitsRK(k1) && FitsRK(k2) && c.x.Binary?
      && ((c.x.bop.OpArith? && i == Instr.ArithOp(c.x.bop.op, 0, RKOf(k1), RKOf(k2)))
          || (c.x.bop.Concat? && k1 == VNonReloc(c.base) && k2 == VNonReloc(c.base + 1) &&
              i == Instr.Concat(0, c.base, c.base + 1)))
    case _ => false
  }

  lemma RKHoldsValue(sem: Semantics, g: Gen, k: ExpKind, r: Regs)
    requires FitsRK(k) && ValueOf(sem, g, k, r).Some?
    ensures RK(g.k, r, RKOf(k)) == ValueOf(sem, g, k, r).value
  {
  }

  lemma TwoConcatenated(sem: Semantics, r: Regs, b: nat)
    requires b + 1 < 256
    ensures sem.ConcatAll(r[b..b + 2]) == sem.Concat(r[b], r[b + 1])
  {
    assert r[b..b + 2][1..] == [r[b + 1]];
  }

  lemma FedInstrComputes(c: Context, g: Gen, v: View, i: Instr, r: Regs, r': Regs)
    requires Feeds(c, g, v, i) && Arrived(c, g, v, r, r')
    ensures i.IsRelocatable() && Computed(c.sem, g.k, i, r') == Some(Eval(c.sem, c.x, r))
  {
    if v.Operands? {
      RKHoldsValue(c.sem, g, v.k1, r');
      RKHoldsValue(c.sem, g, v.k2, r');
      if i.Concat? {
        TwoConcatenated(c.sem, r', c.base);
      }
    }
  }

  /** The result of an instruction whose destination is left open. */
  lemma ComputedLater(c: Context, g: Gen, v: View, i: Instr)
    requires Compiled(c, g, v, [], [], NO_REG) && Feeds(c, g, v, i) && Before(g, v) == g
    ensures Compiled(c, Emit(g, i), Kind(VRelocable(|g.code|)), [], [], NO_REG)
  {
    var g', v' := Emit(g, i), Kind(VRelocable(|g.code|));
    assert i.IsRelocatable();
    EmitForm(g, i);
    KeptByEmission(c, g, g', v, [], [], |g.code|);
    assert Formed(c, g', v', [], []);
    var b := Before(g', v');
    assert b == Discharge(g);
    forall s: nat, r: Regs | Start(c, s, r) ensures Simulates(c, g', v', [], [], NO_REG, s, r) {
      Starting(c, g, v, [], [], s, r);
      DischargeKeepsRuns(c.sem, g, b, s, r);
      assert Simulates(c, g, v, [], [], NO_REG, s, r);
      var o, o' := Exec(c.sem, c.start, s, r), Exec(c.sem, g, s, r);
      if o.Here? && o'.Here? {
        FedInstrComputes(c, g, v, i, o.regs, o'.regs);
        assert g'.code[|g.code|] == i;
      }
      hide Exec;
      hide Eval;
      hide Feeds;
      hide Computed;
      hide Formed;
    }
  }

  /** `i` decides the comparison: it is true exactly when the outcome is `cond`. */
  ghost predicate Decides(c: Context, v: View, i: Instr) {
    && v.Operands? && FitsRK(v.k1) && FitsRK(v.k2) && c.x.Binary?
    && var o1, o2 := RKOf(v.k1), RKOf(v.k2);
       match c.x.bop
       case Eq => i == Compare(CmpEq, true, o1, o2)
       case Ne => i == Compare(CmpEq, false, o1, o2)
       case Lt => i == Compare(CmpLt, true, o1, o2)
       case Le => i == Compare(CmpLe, true, o1, o2)
       case Gt => i == Compare(CmpLt, true, o2, o1)
       case Ge => i == Compare(CmpLe, true, o2, o1)
       case _ => false
  }

  lemma DecidingInstr(c: Context, g: Gen, v: View, i: Instr, r: Regs, r': Regs)
    requires Decides(c, v, i) && Arrived(c, g, v, r, r')
    ensures i.Compare? && Compared(c.sem, g.k, i, r').Some?
    ensures Truth(Compared(c.sem, g.k, i, r').value, i.cond) == Eval(c.sem, c.x, r)
  {
    RKHoldsValue(c.sem, g, v.k1, r');
    RKHoldsValue(c.sem, g, v.k2, r');
    var v1, v2 := Eval(c.sem, c.x.left, r).value, Eval(c.sem, c.x.right, r).value;
    assert Eval(c.sem, c.x, r) == EvalBinary(c.sem, c.x.bop, v1, v2);
    hide Eval;
  }

  lemma ComparedFormed(c: Context, g: Gen, v: View, i: Instr)
    requires Formed(c, g, v, [], []) && Before(g, v) == g && i.Compare?
    ensures var v' := Kind(VJmp(|g.code| + 1));
      Formed(c, EmitTest(g, i), v', [], []) && Before(EmitTest(g, i), v') == Discharge(g)
  {
    var g', v' := EmitTest(g, i), Kind(VJmp(|g.code| + 1));
    EmitTestForm(g, i);
    KeptByEmission(c, g, g', v, [], [], |g.code|);
    assert Before(g', v').code == Discharge(g).code;
    assert Before(g', v').pend == Discharge(g).pend;
  }

  lemma ComparedOutcome(c: Context, g: Gen, v: View, i: Instr, g': Gen, r: Regs, o: Outcome)
    requires Decides(c, v, i) && Good(c, g, v, [], [], NO_REG, r, o) && g'.k == g.k
    requires |g.code| < |g'.code| && g'.code[|g.code|] == i
    ensures Good(c, g', Kind(VJmp(|g.code| + 1)), [], [], NO_REG, r, o)
  {
    if o.Here? {
      DecidingInstr(c, g, v, i, r, o.regs);
    }
    hide Eval;
    hide Decides;
    hide Compared;
  }

  lemma ComparedMeaning(c: Context, g: Gen, v: View, i: Instr, s: nat, r: Regs)
    requires Compiled(c, g, v, [], [], NO_REG) && Decides(c, v, i) && Start(c, s, r)
    requires i.Compare? && Before(EmitTest(g, i), Kind(VJmp(|g.code| + 1))) == Discharge(g)
    ensures Simulates(c, EmitTest(g, i), Kind(VJmp(|g.code| + 1)), [], [], NO_REG, s, r)
  {
    Starting(c, g, v, [], [], s, r);
    DischargeKeepsRuns(c.sem, g, Discharge(g), s, r);
    assert Simulates(c, g, v, [], [], NO_REG, s, r);
    var o, o' := Exec(c.sem, c.start, s, r), Exec(c.sem, g, s, r);
    assert v.Operands?;
    assert EmitTest(g, i).code[|g.code|] == i;
    hide Exec;
    hide Denotes;
    hide Formed;
    hide Good;
    hide Decides;
    hide Start;
    if o.Here? {
      ComparedOutcome(c, g, v, i, EmitTest(g, i), o.regs, o');
    }
  }

  /** The result of a comparison, still a jump. */
  lemma ComparedLater(c: Context, g: Gen, v: View, i: Instr)
    requires Compiled(c, g, v, [], [], NO_REG) && Decides(c, v, i)
    ensures Compiled(c, EmitTest(g, i), Kind(VJmp(|g.code| + 1)), [], [], NO_REG)
  {
    assert i.Compare? && Before(g, v) == g;
    ComparedFormed(c, g, v, i);
    hide Formed;
    forall s: nat, r: Regs | Start(c, s, r)
      ensures Simulates(c, EmitTest(g, i), Kind(VJmp(|g.code| + 1)), [], [], NO_REG, s, r)
    {
      ComparedMeaning(c, g, v, i, s, r);
    }
  }

  /** An operator applied to a value that is known without running any code. */
  ghost predicate FoldsTo(c: Context, v: View, n: real) {
    match v
    case Operand(VKNum(n1)) => c.x.Unary? && c.x.uop.Minus? && n == c.sem.neg(n1)
    case Operands(VKNum(n1), VKNum(n2)) => c.x.Binary? && c.x.bop.OpArith? && n == c.sem.arith(c.x.bop.op, n1, n2)
    case _ => false
  }

  lemma FoldedCompiled(c: Context, g: Gen, v: View, n: real)
    requires Compiled(c, g, v, [], [], NO_REG) && FoldsTo(c, v, n)
    ensures Compiled(c, g, Kind(VKNum(n)), [], [], NO_REG)
  {
    assert Formed(c, g, Kind(VKNum(n)), [], []);
    forall s: nat, r: Regs | Start(c, s, r) ensures Simulates(c, g, Kind(VKNum(n)), [], [], NO_REG, s, r) {
      assert Simulates(c, g, v, [], [], NO_REG, s, r);
      hide Exec;
      hide Formed;
    }
  }

  /** The operand of a strict unary operator has been compiled. */
  lemma OperandCompiled(c1: Context, c: Context, g: Gen, k: ExpKind)
    requires c == c1.(x := c.x) && c.x.Unary? && c.x.e == c1.x && IsOperand(k)
    requires Compiled(c1, g, Kind(k), [], [], NO_REG)
    ensures Compiled(c, g, Operand(k), [], [], NO_REG)
  {
    assert Formed(c, g, Operand(k), [], []);
    forall s: nat, r: Regs | Start(c, s, r) ensures Simulates(c, g, Operand(k), [], [], NO_REG, s, r) {
      assert Start(c1, s, r);
      assert Simulates(c1, g, Kind(k), [], [], NO_REG, s, r);
      var o := Exec(c.sem, c.start, s, r);
      if o.Here? {
        assert Eval(c.sem, c1.x, o.regs).None? ==> Eval(c.sem, c.x, o.regs).None?;
      }
      hide Exec;
      hide Eval;
      hide Formed;
    }
  }

  /** Parentheses, and other expressions with the same value everywhere. */
  lemma SameMeaningCompiled(c1: Context, c: Context, g: Gen, v: View, t: seq<nat>, f: seq<nat>)
    requires c == c1.(x := c.x) && Compiled(c1, g, v, t, f, NO_REG) && v.Kind?
    requires c.x == Paren(c1.x)
    ensures Compiled(c, g, v, t, f, NO_REG)
  {
    forall s: nat, r: Regs | Start(c, s, r) ensures Simulates(c, g, v, t, f, NO_REG, s, r) {
      assert Start(c1, s, r);
      assert Simulates(c1, g, v, t, f, NO_REG, s, r);
      var o := Exec(c.sem, c.start, s, r);
      if o.Here? {
        assert Eval(c.sem, c.x, o.regs) == Eval(c.sem, c1.x, o.regs);
      }
      hide Exec;
      hide Eval;
      hide Formed;
    }
  }
}
