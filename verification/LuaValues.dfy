/** Optional results and results of calls that may raise an error. */
module LuaResults {

  const MAX_INT: nat := 2147483645      // llimits.h
  const LUAI_MAXCCALLS: nat := 200      // luaconf.h

  datatype Option<+T> = None | Some(value: T)

  /** The result of a call that may raise an error with a long jump. */
  datatype Result<+T> = Success(value: T) | Failure(error: string) {
    predicate IsFailure() { Failure? }

    function PropagateFailure<U>(): Result<U>
      requires Failure?
    {
      Failure(error)
    }

    function Extract(): T
      requires Success?
    {
      value
    }
  }
}

/** Values of the interpreter and the meaning of its operators.

    Numbers are mathematical reals, so the two zeros of IEEE arithmetic are one number. What the
    interpreter leaves to the C library or to metamethods is a field of `Semantics`: every
    theorem about compiled expressions holds for all of them. */
module LuaValues {

  import opened LuaResults

  datatype Value =
    | Nil
    | Bool(b: bool)
    | Num(n: real)
    | Str(s: string)
    | Obj(id: int)

  /** `l_isfalse`: only nil and false are false. */
  predicate IsFalse(v: Value) {
    v == Nil || v == Bool(false)
  }

  datatype ArithOp = Add | Sub | Mul | Div | Mod | Pow
  datatype CmpOp = CmpEq | CmpLt | CmpLe

  datatype Semantics = Semantics(
    arith: (ArithOp, real, real) -> real,                        // luai_numadd, ..., luai_numpow
    neg: real -> real,                                           // luai_numunm
    isNaN: real -> bool,                                         // luai_numisnan
    arithOther: (ArithOp, Value, Value) -> Option<Value>,        // Arith on operands that are not both numbers
    negOther: Value -> Option<Value>,
    length: Value -> Option<Value>,
    tostr: real -> string,                                       // lua_number2str
    concatOther: (Value, Value) -> Option<Value>,                // operands that are not both strings or numbers
    leftover: (seq<Value>, nat) -> Value,                        // what a concatenation leaves in its registers
    equalOther: (Value, Value) -> bool,                          // two objects
    lessOther: (Value, Value) -> Option<bool>,                   // operands that are not both numbers
    lessEqualOther: (Value, Value) -> Option<bool>,
    upvalue: nat -> Value,
    global: string -> Option<Value>)
  {
    /** Negation is the one operation folded before its operand is known not to be a NaN constant. */
    ghost predicate Valid() {
      forall n :: !isNaN(n) ==> !isNaN(neg(n))
    }

    function Arith(op: ArithOp, v: Value, w: Value): Option<Value> {
      if v.Num? && w.Num? then Some(Num(arith(op, v.n, w.n))) else arithOther(op, v, w)
    }

    /** Strings, and numbers, which are converted. */
    predicate IsText(v: Value) { v.Str? || v.Num? }

    function Text(v: Value): string
      requires IsText(v)
    {
      if v.Str? then v.s else tostr(v.n)
    }

    function Concat(v: Value, w: Value): Option<Value> {
      if IsText(v) && IsText(w) then Some(Str(Text(v) + Text(w))) else concatOther(v, w)
    }

    /** Concatenation is right associative. */
    function ConcatAll(vs: seq<Value>): Option<Value>
      requires vs != []
    {
      if |vs| == 1 then Some(vs[0])
      else
        var w := ConcatAll(vs[1..]);
        if w.None? then None else Concat(vs[0], w.value)
    }

    function Neg(v: Value): Option<Value> {
      if v.Num? then Some(Num(neg(v.n))) else negOther(v)
    }

    function Compare(op: CmpOp, v: Value, w: Value): Option<bool> {
      match op
      case CmpEq => Some(if v.Obj? && w.Obj? then equalOther(v, w) else v == w)
      case CmpLt => if v.Num? && w.Num? then Some(v.n < w.n) else lessOther(v, w)
      case CmpLe => if v.Num? && w.Num? then Some(v.n <= w.n) else lessEqualOther(v, w)
    }
  }

  /** A stack frame: the 8-bit field A of an instruction names one of 256 registers, of which
      the last, NO_REG, is never a real one. */
  type Regs = r: seq<Value> | |r| == 256 witness seq(256, _ => Nil)

  const NO_REG: nat := 255
}

/** Source expressions and their meaning. */
module LuaExpressions {
  import opened LuaResults
  import opened LuaValues

  datatype UnOp = Minus | Not | Len
  datatype BinOp = OpArith(op: ArithOp) | Concat | Ne | Eq | Lt | Le | Gt | Ge | And | Or

  datatype Expr =
    | NilLit
    | TrueLit
    | FalseLit
    | NumLit(n: real)
    | StrLit(s: string)
    | Local(index: nat)
    | Upval(index: nat)
    | Global(name: string)
    | Paren(e: Expr)
    | Unary(uop: UnOp, e: Expr)
    | Binary(bop: BinOp, left: Expr, right: Expr)

  /** The value of an expression in a frame whose first registers hold the active locals;
      None is a run-time error. Operands are evaluated from left to right. */
  function Eval(sem: Semantics, x: Expr, r: Regs): Option<Value> {
    match x
    case NilLit => Some(Nil)
    case TrueLit => Some(Bool(true))
    case FalseLit => Some(Bool(false))
    case NumLit(n) => Some(Num(n))
    case StrLit(s) => Some(Str(s))
    case Local(i) => if i < 256 then Some(r[i]) else None
    case Upval(i) => Some(sem.upvalue(i))
    case Global(name) => sem.global(name)
    case Paren(e) => Eval(sem, e, r)
    case Unary(op, e) =>
      var v := Eval(sem, e, r);
      if v.None? then None else EvalUnary(sem, op, v.value)
    case Binary(op, e1, e2) =>
      var v := Eval(sem, e1, r);
      if v.None? then None
      else if op.And? && IsFalse(v.value) then v
      else if op.Or? && !IsFalse(v.value) then v
      else
        var w := Eval(sem, e2, r);
        if w.None? then None else EvalBinary(sem, op, v.value, w.value)
  }

  function EvalUnary(sem: Semantics, op: UnOp, v: Value): Option<Value> {
    match op
    case Minus => sem.Neg(v)
    case Not => Some(Bool(IsFalse(v)))
    case Len => sem.length(v)
  }

  /** Both operands have been evaluated. `a > b` means `b < a`, as the reference manual says. */
  function EvalBinary(sem: Semantics, op: BinOp, v: Value, w: Value): Option<Value> {
    match op
    case OpArith(a) => sem.Arith(a, v, w)
    case Concat => sem.Concat(v, w)
    case Eq => Truth(sem.Compare(CmpEq, v, w), true)
    case Ne => Truth(sem.Compare(CmpEq, v, w), false)
    case Lt => Truth(sem.Compare(CmpLt, v, w), true)
    case Le => Truth(sem.Compare(CmpLe, v, w), true)
    case Gt => Truth(sem.Compare(CmpLt, w, v), true)
    case Ge => Truth(sem.Compare(CmpLe, w, v), true)
    case And => Some(w)
    case Or => Some(w)
  }

  function Truth(b: Option<bool>, expected: bool): Option<Value> {
    if b.None? then None else Some(Bool(b.value == expected))
  }

  /** Only the first `n` locals are in scope, and number literals are numbers. */
  predicate InScope(sem: Semantics, x: Expr, n: nat) {
    match x
    case Local(i) => i < n
    case NumLit(v) => !sem.isNaN(v)
    case Paren(e) => InScope(sem, e, n)
    case Unary(_, e) => InScope(sem, e, n)
    case Binary(_, e1, e2) => InScope(sem, e1, n) && InScope(sem, e2, n)
    case _ => true
  }

  /** The two frames agree on the registers below `n`, except perhaps on `w`. */
  ghost predicate Agree(r: Regs, r': Regs, n: nat, w: nat) {
    forall i :: 0 <= i < n && i < 256 && i != w ==> r[i] == r'[i]
  }

  /** An expression reads nothing but the locals in scope. */
  lemma {:induction false} EvalReadsLocalsOnly(sem: Semantics, x: Expr, n: nat, r: Regs, r': Regs)
    requires InScope(sem, x, n) && n < 256
    requires Agree(r, r', n, NO_REG)
    ensures Eval(sem, x, r) == Eval(sem, x, r')
  {
    match x
    case Paren(e) => EvalReadsLocalsOnly(sem, e, n, r, r');
    case Unary(_, e) => EvalReadsLocalsOnly(sem, e, n, r, r');
    case Binary(_, e1, e2) =>
      EvalReadsLocalsOnly(sem, e1, n, r, r');
      EvalReadsLocalsOnly(sem, e2, n, r, r');
    case _ =>
  }
}
