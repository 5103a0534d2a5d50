/** The parser of expressions drives the code generator: one pass over the tokens, no syntax tree. */
module LuaExprCompiler {
  import opened LuaResults
  import opened LuaValues
  import opened LuaExpressions
  import opened LuaOpcodes
  import opened LuaVM
  import opened LuaCodeEdits
  import opened LuaDenotation
  import opened LuaOperators
  import opened LuaToRegister
  import opened LuaCode
  import opened LuaPrecedence

  /** The part of the lexer's state that expressions use: the current token is the first of `rest`, or
      none that belongs to an expression at the end. */
  class LexState {
    var rest: seq<Token>
    var nCcalls: nat

    constructor (ts: seq<Token>, level: nat)
      ensures rest == ts && nCcalls == level
    {
      rest, nCcalls := ts, level;
    }

    /** `luaX_next`. */
    method Next()
      requires rest != []
      modifies this`rest
      ensures rest == old(rest)[1..]
    {
      rest := rest[1..];
    }

    /** `getbinopr`. */
    method GetBinOpr() returns (op: Option<BinOp>)
      ensures op == NextOperator(rest)
    {
      return if rest != [] && rest[0].TBinary? then Some(rest[0].op) else None;
    }
  }

  function NextOperator(ts: seq<Token>): Option<BinOp> {
    if ts != [] && ts[0].TBinary? then Some(ts[0].op) else None
  }

  /** The tokens of expressions without calls, indices, constructors, varargs and functions. */
  ghost predicate TokensOk(sem: Semantics, nactvar: nat, ts: seq<Token>) {
    forall i :: 0 <= i < |ts| ==> TokenOk(sem, nactvar, ts[i])
  }

  ghost predicate TokenOk(sem: Semantics, nactvar: nat, t: Token) {
    match t
    case TSimple(x) => !x.Paren? && !x.Unary? && !x.Binary? && InScope(sem, x, nactvar)
    case _ => true
  }

  /** The expression that a tree stands for. */
  function ToExpr(e: Tree): Expr {
    match e
    case Simple(x) => x
    case Group(a) => Paren(ToExpr(a))
    case Un(op, a) => Unary(op, ToExpr(a))
    case Bin(op, l, r) => Binary(op, ToExpr(l), ToExpr(r))
  }

  /** A point between two expressions. */
  ghost predicate Ready(fs: FuncState)
    reads fs
  {
    fs.Valid() && forall j :: j in fs.pend ==> Controlled(fs.code, j)
  }

  /** The descriptor denotes the expression of tree `e`, read since the state `start` and `base`. */
  ghost predicate HasTree(fs: FuncState, start: Gen, base: nat, e: Tree, d: ExpDesc, t: seq<nat>, f: seq<nat>)
    reads fs
  {
    && InScope(fs.sem, ToExpr(e), fs.nactvar)
    && var c := Context(fs.sem, fs.nactvar, start, ToExpr(e), base);
       fs.Has(c, d, t, f, NO_REG) && fs.OneTemporary(c, d.k) && fs.IsProper(d.k)
  }

  /** The number of levels left. */
  function Room(ls: LexState): nat
    reads ls
  {
    if ls.nCcalls <= LUAI_MAXCCALLS then LUAI_MAXCCALLS - ls.nCcalls else 0
  }

  /** What one token can add to the instructions and the constants: an operator secures its first operand
      and then combines both. */
  const GROWTH: nat := 50

  /** The registers that an expression of `n` tokens can take: one for each token, and one for each level. */
  function RegistersFor(n: nat, room: nat): nat {
    if n <= room + 2 then n else room + 2
  }

  /** An expression of `n` tokens cannot reach a limit of the code format. */
  predicate FitsFormat(nactvar: nat, n: nat, room: nat) {
    nactvar + RegistersFor(n, room) + 1 < MAXSTACK && GROWTH * (n + 1) < MAXARG_SBX
  }

  /** `subexpr`, with the code generator at work: what it has read is `e`, and the descriptor denotes it. */
  method SubExpr(ls: LexState, fs: FuncState, limit: nat)
      returns (r: Result<ExpDesc>, ghost e: Tree, ghost t: seq<nat>, ghost f: seq<nat>)
    requires Ready(fs) && fs.sem.Valid() && TokensOk(fs.sem, fs.nactvar, ls.rest)
    modifies ls, fs
    ensures r.Success? ==> LuaPrecedence.SubExpr(old(ls.rest), limit, old(Room(ls))) == Some(Parsed(e, ls.rest))
    ensures r.Failure? ==> fs.AtLimit() || LuaPrecedence.SubExpr(old(ls.rest), limit, old(Room(ls))) == None
    ensures r.Success? ==>
      ls.nCcalls == old(ls.nCcalls) && |ls.rest| < |old(ls.rest)| && TokensOk(fs.sem, fs.nactvar, ls.rest)
    ensures r.Success? ==> HasTree(fs, old(fs.Now()), old(fs.freeReg), e, r.value, t, f)
    ensures |ls.rest| <= |old(ls.rest)| && fs.Size() <= old(fs.Size()) + GROWTH * (|old(ls.rest)| - |ls.rest|)
    ensures r.Failure? ==> fs.freeReg <= old(fs.freeReg) + RegistersFor(|old(ls.rest)|, old(Room(ls)))
    decreases |ls.rest|, 3
  {
    hide LuaPrecedence.SubExpr, LuaPrecedence.SimpleExp, Ready, TokensOk, HasTree;
    t, f, e := [], [], Simple(NilLit);
    ghost var ts, start, base, room := ls.rest, fs.Now(), fs.freeReg, Room(ls);
    if ls.rest == [] || room == 0 || FirstFails(ls.rest, room - 1) {
      NothingRead(ls.rest, limit, room);
    }
    if ls.nCcalls + 1 > LUAI_MAXCCALLS {
      return Failure("chunk has too many syntax levels"), e, t, f;
    } else if ls.rest == [] {
      return Failure("unexpected symbol"), e, t, f;
    }
    ls.nCcalls := ls.nCcalls + 1;
    var d;
    d, e, t, f :- FirstOperand(ls, fs);
    FirstRead(ts, limit, room, e, ls.rest);
    var op := ls.GetBinOpr();
    while op.Some? && LeftPriority(op.value) > limit
      invariant ls.nCcalls == old(ls.nCcalls) + 1 && |ls.rest| < |ts| && TokensOk(fs.sem, fs.nactvar, ls.rest)
      invariant op == NextOperator(ls.rest)
      invariant LuaPrecedence.SubExpr(ts, limit, room) == Expand(e, ls.rest, limit, room)
      invariant HasTree(fs, start, base, e, d, t, f)
      invariant fs.Size() <= old(fs.Size()) + GROWTH * (|ts| - |ls.rest|)
      decreases |ls.rest|
    {
      ghost var e2;
      d, e2, t, f :- Operator(ls, fs, op.value, d, start, base, e, t, f);
      e := Tree.Bin(op.value, e, e2);
      op := ls.GetBinOpr();
    }
    ls.nCcalls := ls.nCcalls - 1;
    return Success(d), e, t, f;
  }

  /** The first operand of `subexpr`. */
  method FirstOperand(ls: LexState, fs: FuncState)
      returns (r: Result<ExpDesc>, ghost e: Tree, ghost t: seq<nat>, ghost f: seq<nat>)
    requires Ready(fs) && fs.sem.Valid() && TokensOk(fs.sem, fs.nactvar, ls.rest) && ls.rest != []
    modifies ls, fs
    ensures r.Success? ==> FirstIs(old(ls.rest), old(Room(ls)), e, ls.rest)
    ensures r.Failure? ==> fs.AtLimit() || FirstFails(old(ls.rest), old(Room(ls)))
    ensures r.Success? ==>
      ls.nCcalls == old(ls.nCcalls) && |ls.rest| < |old(ls.rest)| && TokensOk(fs.sem, fs.nactvar, ls.rest)
    ensures r.Success? ==> HasTree(fs, old(fs.Now()), old(fs.freeReg), e, r.value, t, f)
    ensures |ls.rest| <= |old(ls.rest)| && fs.Size() <= old(fs.Size()) + GROWTH * (|old(ls.rest)| - |ls.rest|)
    ensures r.Failure? ==> fs.freeReg <= old(fs.freeReg) + RegistersFor(|old(ls.rest)|, old(Room(ls)))
    decreases |ls.rest|, 2
  {
    hide LuaPrecedence.SubExpr, LuaPrecedence.SimpleExp, Compiled, WellFormed, ListAt;
    t, f, e := [], [], Simple(NilLit);
    ghost var start, base := fs.Now(), fs.freeReg;
    var uop := GetUnOpr(ls.rest[0]);
    if uop.Some? {
      ls.Next();
      var d;
      d, e, t, f :- SubExpr(ls, fs, UNARY_PRIORITY);
      r, t, f := fs.Prefix(Context(fs.sem, fs.nactvar, start, ToExpr(e), base), uop.value, d, t, f);
      e := Un(uop.value, e);
    } else {
      r, e, t, f := SimpleExp(ls, fs);
    }
  }

  /** `simpleexp`. */
  method SimpleExp(ls: LexState, fs: FuncState)
      returns (r: Result<ExpDesc>, ghost e: Tree, ghost t: seq<nat>, ghost f: seq<nat>)
    requires Ready(fs) && fs.sem.Valid() && TokensOk(fs.sem, fs.nactvar, ls.rest) && ls.rest != []
    modifies ls, fs
    ensures r.Success? ==> LuaPrecedence.SimpleExp(old(ls.rest), old(Room(ls)) + 1) == Some(Parsed(e, ls.rest))
    ensures r.Failure? ==> fs.AtLimit() || LuaPrecedence.SimpleExp(old(ls.rest), old(Room(ls)) + 1) == None
    ensures r.Success? ==>
      ls.nCcalls == old(ls.nCcalls) && |ls.rest| < |old(ls.rest)| && TokensOk(fs.sem, fs.nactvar, ls.rest)
    ensures r.Success? ==> HasTree(fs, old(fs.Now()), old(fs.freeReg), e, r.value, t, f)
    ensures |ls.rest| <= |old(ls.rest)| && fs.Size() <= old(fs.Size()) + GROWTH * (|old(ls.rest)| - |ls.rest|)
    ensures r.Failure? ==> fs.freeReg <= old(fs.freeReg) + RegistersFor(|old(ls.rest)|, old(Room(ls)))
    decreases |ls.rest|, 1
  {
    hide LuaPrecedence.SubExpr, Compiled, WellFormed, ListAt, InReach, Controlled, Exec, Eval;
    t, f, e := [], [], Simple(NilLit);
    ghost var start, base := fs.Now(), fs.freeReg;
    if ls.rest[0].TSimple? {
      var x := ls.rest[0].x;
      assert TokenOk(fs.sem, fs.nactvar, ls.rest[0]);
      e := Simple(x);
      r := CodeSimple(fs, x, Context(fs.sem, fs.nactvar, start, x, base));
      ls.Next();
    } else {
      r, e, t, f := PrefixExp(ls, fs);
    }
  }

  /** `prefixexp`: the value of an expression in parentheses is in a register or a constant, not a variable. */
  method PrefixExp(ls: LexState, fs: FuncState)
      returns (r: Result<ExpDesc>, ghost e: Tree, ghost t: seq<nat>, ghost f: seq<nat>)
    requires Ready(fs) && fs.sem.Valid() && TokensOk(fs.sem, fs.nactvar, ls.rest) &&
      ls.rest != [] && !ls.rest[0].TSimple?
    modifies ls, fs
    ensures r.Success? ==> LuaPrecedence.SimpleExp(old(ls.rest), old(Room(ls)) + 1) == Some(Parsed(e, ls.rest))
    ensures r.Failure? ==> fs.AtLimit() || LuaPrecedence.SimpleExp(old(ls.rest), old(Room(ls)) + 1) == None
    ensures r.Success? ==>
      ls.nCcalls == old(ls.nCcalls) && |ls.rest| < |old(ls.rest)| && TokensOk(fs.sem, fs.nactvar, ls.rest)
    ensures r.Success? ==> HasTree(fs, old(fs.Now()), old(fs.freeReg), e, r.value, t, f)
    ensures |ls.rest| <= |old(ls.rest)| && fs.Size() <= old(fs.Size()) + GROWTH * (|old(ls.rest)| - |ls.rest|)
    ensures r.Failure? ==> fs.freeReg <= old(fs.freeReg) + RegistersFor(|old(ls.rest)|, old(Room(ls)))
    decreases |ls.rest|, 0
  {
    hide LuaPrecedence.SubExpr, Ready, TokensOk, HasTree;
    t, f, e := [], [], Simple(NilLit);
    ghost var start, base := fs.Now(), fs.freeReg;
    if ls.rest[0] != TOpen {
      return Failure("unexpected symbol"), e, t, f;
    }
    TokensStayOk(fs.sem, fs.nactvar, ls.rest);
    ls.Next();
    var d;
    d, e, t, f :- SubExpr(ls, fs, 0);
    AtMostOneTemporary(fs, start, base, e, d, t, f);
    if ls.rest == [] || ls.rest[0] != TClose {
      return Failure("')' expected"), e, t, f;
    }
    TokensStayOk(fs.sem, fs.nactvar, ls.rest);
    ls.Next();
    r := Parenthesized(fs, d, start, base, e, t, f);
    e := Group(e);
  }

  /** `luaK_dischargevars` on an expression in parentheses. */
  method Parenthesized(fs: FuncState, d: ExpDesc, ghost start: Gen, ghost base: nat, ghost e: Tree, ghost t: seq<nat>,
      ghost f: seq<nat>) returns (r: Result<ExpDesc>)
    requires HasTree(fs, start, base, e, d, t, f)
    modifies fs`code, fs`jpc, fs`waiting
    ensures r.Success? ==> HasTree(fs, start, base, Group(e), r.value, t, f)
    ensures r.Failure? ==> fs.AtLimit()
    ensures fs.Size() <= old(fs.Size()) + 1 && fs.freeReg <= base + 1
  {
    hide Compiled, WellFormed, ListAt, InReach, Controlled, Exec, Eval;
    ghost var c1 := Context(fs.sem, fs.nactvar, start, ToExpr(e), base);
    r := fs.DischargeVars(c1, d, t, f);
    if r.Success? {
      SameMeaningCompiled(c1, c1.(x := ToExpr(Group(e))), fs.Now(), Kind(r.value.k), t, f);
    }
  }

  lemma AtMostOneTemporary(fs: FuncState, start: Gen, base: nat, e: Tree, d: ExpDesc, t: seq<nat>, f: seq<nat>)
    requires HasTree(fs, start, base, e, d, t, f)
    ensures fs.freeReg <= base + 1
  {
  }

  lemma TokensStayOk(sem: Semantics, nactvar: nat, ts: seq<Token>)
    requires ts != [] && TokensOk(sem, nactvar, ts)
    ensures TokensOk(sem, nactvar, ts[1..])
  {
  }

  /** One round of the loop of `subexpr`. */
  method Operator(ls: LexState, fs: FuncState, op: BinOp, d: ExpDesc, ghost start: Gen, ghost base: nat, ghost e: Tree,
      ghost t: seq<nat>, ghost f: seq<nat>)
      returns (r: Result<ExpDesc>, ghost e2: Tree, ghost t': seq<nat>, ghost f': seq<nat>)
    requires HasTree(fs, start, base, e, d, t, f) && fs.sem.Valid() && TokensOk(fs.sem, fs.nactvar, ls.rest) &&
      NextOperator(ls.rest) == Some(op)
    modifies ls, fs
    ensures r.Success? ==>
      LuaPrecedence.SubExpr(old(ls.rest)[1..], RightPriority(op), old(Room(ls))) == Some(Parsed(e2, ls.rest))
    ensures r.Failure? ==>
      fs.AtLimit() || LuaPrecedence.SubExpr(old(ls.rest)[1..], RightPriority(op), old(Room(ls))) == None
    ensures r.Success? ==>
      ls.nCcalls == old(ls.nCcalls) && |ls.rest| < |old(ls.rest)| && TokensOk(fs.sem, fs.nactvar, ls.rest)
    ensures r.Success? ==> HasTree(fs, start, base, Tree.Bin(op, e, e2), r.value, t', f')
    ensures |ls.rest| <= |old(ls.rest)| && fs.Size() <= old(fs.Size()) + GROWTH * (|old(ls.rest)| - |ls.rest|)
    ensures r.Failure? ==> fs.freeReg <= base + 1 + RegistersFor(|old(ls.rest)|, old(Room(ls)))
    decreases |ls.rest|, 0
  {
    hide LuaPrecedence.SubExpr, Compiled, WellFormed, ListAt, FirstDone;
    t', f', e2 := [], [], e;
    assert TokenOk(fs.sem, fs.nactvar, ls.rest[0]);
    ls.Next();
    ghost var c1 := Context(fs.sem, fs.nactvar, start, ToExpr(e), base);
    ghost var l1;
    var d1, d2;
    d1, l1 :- fs.Infix(c1, op, d, t, f);
    ghost var c2 := Context(fs.sem, fs.nactvar, fs.Now(), ToExpr(e), fs.freeReg);
    OpenJumpsAreControlled(c1, c2, op, d1, l1);
    d2, e2, t', f' :- SubExpr(ls, fs, RightPriority(op));
    r, t', f' := fs.Posfix(c1, c2.(x := ToExpr(e2)), c1.(x := ToExpr(Tree.Bin(op, e, e2))), op, d1, d2, l1, t', f');
  }

  ghost predicate FirstIs(ts: seq<Token>, room: nat, e: Tree, rest: seq<Token>)
    requires ts != []
  {
    match GetUnOpr(ts[0])
    case Some(op) => e.Un? && e.uop == op && LuaPrecedence.SubExpr(ts[1..], UNARY_PRIORITY, room) ==
      Some(Parsed(e.e, rest))
    case None => LuaPrecedence.SimpleExp(ts, room + 1) == Some(Parsed(e, rest))
  }

  ghost predicate FirstFails(ts: seq<Token>, room: nat)
    requires ts != []
  {
    match GetUnOpr(ts[0])
    case Some(_) => LuaPrecedence.SubExpr(ts[1..], UNARY_PRIORITY, room) == None
    case None => LuaPrecedence.SimpleExp(ts, room + 1) == None
  }

  lemma NothingRead(ts: seq<Token>, limit: nat, room: nat)
    requires ts == [] || room == 0 || FirstFails(ts, room - 1)
    ensures LuaPrecedence.SubExpr(ts, limit, room) == None
  {
  }

  lemma FirstRead(ts: seq<Token>, limit: nat, room: nat, e: Tree, rest: seq<Token>)
    requires ts != [] && room > 0 && FirstIs(ts, room - 1, e, rest)
    ensures LuaPrecedence.SubExpr(ts, limit, room) == Expand(e, rest, limit, room)
  {
  }

  /** Literals and variables. */
  method CodeSimple(fs: FuncState, x: Expr, ghost c: Context) returns (r: Result<ExpDesc>)
    requires Ready(fs) && fs.sem.Valid() && c == Context(fs.sem, fs.nactvar, fs.Now(), x, fs.freeReg) &&
      InScope(fs.sem, x, fs.nactvar) && !x.Paren? && !x.Unary? && !x.Binary?
    modifies fs
    ensures r.Success? ==> fs.Has(c, r.value, [], [], NO_REG) && fs.OneTemporary(c, r.value.k) && fs.IsProper(r.value.k)
    ensures r.Failure? ==> fs.AtLimit()
    ensures fs.freeReg == old(fs.freeReg) && fs.Size() <= old(fs.Size()) + if r.Success? then 1 else 0
  {
    hide Compiled, WellFormed, ListAt, Exec, Eval;
    var k: ExpKind;
    EmptyIsList(fs.code);
    match x {
      case NilLit => k := VNil;
      case TrueLit => k := VTrue;
      case FalseLit => k := VFalse;
      case NumLit(n) => k := VKNum(n);
      case Local(i) => k := VLocal(i);
      case Upval(u) => k := VUpval(u);
      case StrLit(s) =>
        var i :- fs.AddK(Str(s));
        k := VK(i);
      case Global(name) =>
        var i :- fs.AddK(Str(name));
        k := VGlobal(i);
    }
    Leaf(c, fs.k, k);
    FormOf(c, fs.Now(), Kind(k), [], [], NO_REG);
    return Success(ExpDesc(k, NO_JUMP, NO_JUMP));
  }

  /** A descriptor of the right value denotes the expression before any code is emitted. */
  lemma Leaf(c: Context, k': seq<Value>, k: ExpKind)
    requires WellFormed(c.start) && c.nactvar <= c.base < NO_REG && InScope(c.sem, c.x, c.nactvar)
    requires forall j :: j in c.start.pend ==> Controlled(c.start.code, j)
    requires c.start.k <= k' && c.nactvar < 256 && !k.VRelocable? && !k.VJmp? && !k.VNonReloc?
    requires match c.x
      case NilLit => k == VNil
      case TrueLit => k == VTrue
      case FalseLit => k == VFalse
      case NumLit(n) => k == VKNum(n)
      case StrLit(s) => k.VK? && k.info < |k'| && k'[k.info] == Str(s)
      case Local(i) => k == VLocal(i)
      case Upval(i) => k == VUpval(i)
      case Global(s) => k.VGlobal? && k.info < |k'| && k'[k.info] == Str(s)
      case _ => false
    ensures Compiled(c, c.start.(k := k'), Kind(k), [], [], NO_REG)
  {
    var g' := c.start.(k := k');
    forall j | j in c.start.pend ensures Kept(c.start, g', j) {
    }
    assert Formed(c, g', Kind(k), [], []);
    forall s: nat, r: Regs | Start(c, s, r) ensures Simulates(c, g', Kind(k), [], [], NO_REG, s, r) {
      if Exec(c.sem, c.start, s, r) != Stuck {
        MoreConstantsKeepRuns(c.sem, c.start, k', s, r);
      }
      hide Exec;
      hide Formed;
    }
  }

  lemma OpenJumpsAreControlled(c1: Context, c2: Context, op: BinOp, e: ExpDesc, l1: seq<nat>)
    requires FirstDone(c1, c2.start, op, e, l1)
    ensures forall j :: j in c2.start.pend ==> Controlled(c2.start.code, j)
  {
    forall j | j in c2.start.pend ensures Controlled(c2.start.code, j) {
      if j in c1.start.pend {
        assert Kept(c1.start, c2.start, j);
      }
    }
  }

  // ---------------------------------------------------------------- whole expressions

  /** The code of an expression at the start of a function, run by the interpreter: in a fresh frame
      it fails exactly when the expression does, and otherwise ends at its last instruction with the
      value in `reg` and the locals, except perhaps `reg`, as they were. */
  ghost predicate Computes(sem: Semantics, nactvar: nat, x: Expr, code: seq<Instr>, k: seq<Value>, reg: nat) {
    forall r: Regs :: (forall i :: nactvar <= i < 256 ==> r[i] == Nil) ==>
      RunsTo(Exec(sem, Gen(code, k, {}, {}, 0), 0, r), Eval(sem, x, r), nactvar, reg, r)
  }

  ghost predicate RunsTo(o: Outcome, value: Option<Value>, nactvar: nat, reg: nat, r: Regs) {
    match o
    case Here(r') => reg < 256 && value == Some(r'[reg]) && Agree(r, r', nactvar, reg)
    case Fault => value == None
    case _ => false
  }

  lemma FinishedCode(c: Context, g: Gen, reg: nat, w: nat, code: seq<Instr>)
    requires Compiled(c, g, Kind(VNonReloc(reg)), [], [], w) && g.pend == {} && code == Discharge(g).code
    requires |c.start.code| == 0 && reg < NO_REG && (w == reg || w == NO_REG)
    ensures Computes(c.sem, c.nactvar, c.x, code, g.k, reg)
  {
    var final := Gen(code, g.k, {}, {}, 0);
    forall r: Regs | forall i :: c.nactvar <= i < 256 ==> r[i] == Nil
      ensures RunsTo(Exec(c.sem, final, 0, r), Eval(c.sem, c.x, r), c.nactvar, reg, r)
    {
      assert Start(c, 0, r);
      assert Simulates(c, g, Kind(VNonReloc(reg)), [], [], w, 0, r);
      DischargeKeepsRuns(c.sem, g, Discharge(g), 0, r);
      LabelKeepsRuns(c.sem, Discharge(g), 0, 0, r);
      assert Discharge(g).(lastTarget := 0) == final;
      hide Formed, Eval;
    }
  }

  /** Compiles the expression that the tokens begin with into the register after the locals. */
  method CompileToNextReg(sem: Semantics, nactvar: nat, ts: seq<Token>, level: nat)
      returns (r: Result<(seq<Instr>, seq<Value>, seq<Token>)>)
    requires nactvar < MAXSTACK && sem.Valid() && TokensOk(sem, nactvar, ts) && level <= LUAI_MAXCCALLS
    ensures r.Success? ==> CompilesFirst(sem, nactvar, ts, level, r.value.0, r.value.1, r.value.2, nactvar)
    ensures r.Failure? ==>
      !FitsFormat(nactvar, |ts|, LUAI_MAXCCALLS - level) || LuaPrecedence.SubExpr(ts, 0, LUAI_MAXCCALLS - level) == None
  {
    hide Compiled, WellFormed, ListAt, Computes, LuaPrecedence.SubExpr, TokensOk;
    var fs := new FuncState(sem, nactvar);
    var ls := new LexState(ts, level);
    ghost var start, base := fs.Now(), fs.freeReg;
    var e;
    ghost var x, t, f;
    e, x, t, f :- SubExpr(ls, fs, 0);
    ghost var c := Context(sem, nactvar, start, ToExpr(x), base);
    e :- fs.Exp2NextReg(c, e, t, f);
    ghost var g := fs.Now();
    assert g.pend == {};
    var _ :- fs.DischargeJpc();  // the next instruction
    FinishedCode(c, g, nactvar, NO_REG, fs.code);
    return Success((fs.code, fs.k, ls.rest));
  }

  /** Compiles the assignment of that expression to a local variable (`luaK_storevar`). */
  method CompileToLocal(sem: Semantics, nactvar: nat, ts: seq<Token>, level: nat, local: nat)
      returns (r: Result<(seq<Instr>, seq<Value>, seq<Token>)>)
    requires local < nactvar < MAXSTACK && sem.Valid() && TokensOk(sem, nactvar, ts) && level <= LUAI_MAXCCALLS
    ensures r.Success? ==> CompilesFirst(sem, nactvar, ts, level, r.value.0, r.value.1, r.value.2, local)
    ensures r.Failure? ==>
      !FitsFormat(nactvar, |ts|, LUAI_MAXCCALLS - level) || LuaPrecedence.SubExpr(ts, 0, LUAI_MAXCCALLS - level) == None
  {
    hide Compiled, WellFormed, ListAt, Computes, LuaPrecedence.SubExpr, TokensOk;
    var fs := new FuncState(sem, nactvar);
    var ls := new LexState(ts, level);
    ghost var start, base := fs.Now(), fs.freeReg;
    var e;
    ghost var x, t, f;
    e, x, t, f :- SubExpr(ls, fs, 0);
    ghost var c := Context(sem, nactvar, start, ToExpr(x), base);
    RegisterInFrame(c, fs.Now(), e.k, t, f, NO_REG);
    fs.FreeExp(e);
    e :- fs.Exp2Reg(c, e, local, t, f, local);
    ghost var g := fs.Now();
    assert g.pend == {};
    var _ :- fs.DischargeJpc();  // the next instruction
    FinishedCode(c, g, local, local, fs.code);
    return Success((fs.code, fs.k, ls.rest));
  }

  /** The code computes the expression that the priority table makes of the first tokens. */
  ghost predicate CompilesFirst(sem: Semantics, nactvar: nat, ts: seq<Token>, level: nat, code: seq<Instr>,
      k: seq<Value>, rest: seq<Token>, reg: nat)
    requires level <= LUAI_MAXCCALLS
  {
    match LuaPrecedence.SubExpr(ts, 0, LUAI_MAXCCALLS - level)
    case Some(p) => p.rest == rest && Computes(sem, nactvar, ToExpr(p.tree), code, k, reg)
    case None => false
  }

  predicate TreeOk(sem: Semantics, nactvar: nat, e: Tree) {
    match e
    case Simple(x) => !x.Paren? && !x.Unary? && !x.Binary? && InScope(sem, x, nactvar)
    case Group(a) => TreeOk(sem, nactvar, a)
    case Un(op, a) => TreeOk(sem, nactvar, a)
    case Bin(op, l, r) => TreeOk(sem, nactvar, l) && TreeOk(sem, nactvar, r)
  }

  lemma {:induction false} PrintedIsOk(sem: Semantics, nactvar: nat, e: Tree)
    requires TreeOk(sem, nactvar, e)
    ensures TokensOk(sem, nactvar, Flatten(e))
  {
    match e
    case Simple(_) =>
    case Group(a) => PrintedIsOk(sem, nactvar, a);
    case Un(_, a) => PrintedIsOk(sem, nactvar, a);
    case Bin(_, l, r) =>
      PrintedIsOk(sem, nactvar, l);
      PrintedIsOk(sem, nactvar, r);
  }

  /** Parentheses change nothing but the tree. */
  lemma {:induction false} ParenthesesKeepMeaning(sem: Semantics, nactvar: nat, e: Tree, limit: nat, next: nat,
      frame: Regs)
    requires TreeOk(sem, nactvar, e)
    ensures var p := Parenthesize(e, limit, next);
      TreeOk(sem, nactvar, p) &&
      Eval(sem, ToExpr(p), frame) == Eval(sem, ToExpr(e), frame)
  {
    hide InScope, EvalUnary, EvalBinary;
    match e
    case Simple(_) =>
    case Group(a) => ParenthesesKeepMeaning(sem, nactvar, a, 0, 0, frame);
    case Un(_, a) => ParenthesesKeepMeaning(sem, nactvar, a, UNARY_PRIORITY, if next <= UNARY_PRIORITY then next
      else 0, frame);
    case Bin(op, l, r) =>
      var fits := limit < LeftPriority(op) && next <= RightPriority(op);
      ParenthesesKeepMeaning(sem, nactvar, l, if fits then limit else 0, LeftPriority(op), frame);
      ParenthesesKeepMeaning(sem, nactvar, r, RightPriority(op), if fits then next else 0, frame);
  }

  /** An operator tree, printed, compiled and run by the interpreter in a fresh frame: the result is
      its value. */
  method CompileAndRun(sem: Semantics, nactvar: nat, e: Tree, frame: Regs) returns (r: Result<Outcome>)
    requires nactvar < MAXSTACK && sem.Valid() && TreeOk(sem, nactvar, e)
    requires forall i :: nactvar <= i < 256 ==> frame[i] == Nil
    ensures r.Success? ==> RunsTo(r.value, Eval(sem, ToExpr(e), frame), nactvar, nactvar, frame)
    ensures r.Failure? ==>
      var p := Parenthesize(e, 0, 0);
      !FitsFormat(nactvar, |Flatten(p)|, LUAI_MAXCCALLS) || Nesting(p) > LUAI_MAXCCALLS
  {
    hide LuaPrecedence.SubExpr, RunsTo;
    var p := Parenthesize(e, 0, 0);
    ParenthesesKeepMeaning(sem, nactvar, e, 0, 0, frame);
    PrintedIsOk(sem, nactvar, p);
    RoundTrip(e, LUAI_MAXCCALLS);
    var c :- CompileToNextReg(sem, nactvar, Flatten(p), 0);
    var o := Execute(sem, c.0, c.1, 0, frame);
    return Success(o);
  }
}
