/** What the operators of the language compute, stated of the values of their operands (lvm.c, and
    sections 2.5.1 to 2.5.4 of the reference manual). */
module LuaOperatorLaws {
  import opened LuaResults
  import opened LuaValues
  import opened LuaExpressions

  /** Number operands are compared as numbers, by all six operators. */
  lemma NumbersCompare(sem: Semantics, x: Expr, y: Expr, r: Regs, a: real, b: real)
    requires Eval(sem, x, r) == Some(Num(a)) && Eval(sem, y, r) == Some(Num(b))
    ensures Eval(sem, Binary(Lt, x, y), r) == Some(Bool(a < b))
    ensures Eval(sem, Binary(Le, x, y), r) == Some(Bool(a < b || a == b))
    ensures Eval(sem, Binary(Gt, x, y), r) == Some(Bool(b < a))
    ensures Eval(sem, Binary(Ge, x, y), r) == Some(Bool(b < a || a == b))
    ensures Eval(sem, Binary(Eq, x, y), r) == Some(Bool(a == b))
    ensures Eval(sem, Binary(Ne, x, y), r) == Some(Bool(a != b))
  {
    assert Eval(sem, Binary(Lt, x, y), r) == EvalBinary(sem, Lt, Num(a), Num(b));
    assert Eval(sem, Binary(Le, x, y), r) == EvalBinary(sem, Le, Num(a), Num(b));
    assert Eval(sem, Binary(Gt, x, y), r) == EvalBinary(sem, Gt, Num(a), Num(b));
    assert Eval(sem, Binary(Ge, x, y), r) == EvalBinary(sem, Ge, Num(a), Num(b));
    assert Eval(sem, Binary(Eq, x, y), r) == EvalBinary(sem, Eq, Num(a), Num(b));
    assert Eval(sem, Binary(Ne, x, y), r) == EvalBinary(sem, Ne, Num(a), Num(b));
  }

  /** The comparisons of two number literals that are true. */
  lemma LiteralsCompare(sem: Semantics, a: real, b: real, r: Regs)
    ensures var yes := (op: BinOp) => Eval(sem, Binary(op, NumLit(a), NumLit(b)), r) == Some(Bool(true));
      var no := (op: BinOp) => Eval(sem, Binary(op, NumLit(a), NumLit(b)), r) == Some(Bool(false));
      && (yes(Lt) <==> a < b) && (yes(Le) <==> a <= b) && (yes(Gt) <==> a > b) && (yes(Ge) <==> a >= b)
      && (yes(Eq) <==> a == b) && (yes(Ne) <==> a != b)
      && (yes(Lt) || yes(Eq) || yes(Gt)) && !(yes(Lt) && yes(Eq)) && !(yes(Eq) && yes(Gt)) && !(yes(Lt) && yes(Gt))
      && (yes(Le) <==> no(Gt)) && (yes(Ge) <==> no(Lt)) && (yes(Ne) <==> no(Eq))
  {
    NumbersCompare(sem, NumLit(a), NumLit(b), r, a, b);
  }

  datatype Type = TNil | TBoolean | TNumber | TString | TObject

  function TypeOf(v: Value): Type {
    match v
    case Nil => TNil
    case Bool(_) => TBoolean
    case Num(_) => TNumber
    case Str(_) => TString
    case Obj(_) => TObject
  }

  /** Values of different types are never equal; values of one type are equal if they are the same, and
      objects as identity and their metamethods say. */
  lemma EqualityIs(sem: Semantics, x: Expr, y: Expr, r: Regs, v: Value, w: Value)
    requires Eval(sem, x, r) == Some(v) && Eval(sem, y, r) == Some(w)
    ensures var equal := match (v, w)
        case (Nil, Nil) => true
        case (Bool(a), Bool(b)) => a == b
        case (Num(a), Num(b)) => a == b
        case (Str(a), Str(b)) => |a| == |b| && forall i :: 0 <= i < |a| ==> a[i] == b[i]
        case (Obj(_), Obj(_)) => sem.equalOther(v, w)
        case _ => false;
      && Eval(sem, Binary(Eq, x, y), r) == Some(Bool(equal))
      && Eval(sem, Binary(Ne, x, y), r) == Some(Bool(!equal))
      && (TypeOf(v) != TypeOf(w) ==> !equal)
  {
    assert Eval(sem, Binary(Eq, x, y), r) == EvalBinary(sem, Eq, v, w);
    assert Eval(sem, Binary(Ne, x, y), r) == EvalBinary(sem, Ne, v, w);
  }

  /** Other operands are ordered by the two functions that stand for string order and metamethods; `>` and
      `>=` exchange the operands. */
  lemma OthersCompare(sem: Semantics, x: Expr, y: Expr, r: Regs, v: Value, w: Value)
    requires Eval(sem, x, r) == Some(v) && Eval(sem, y, r) == Some(w) && !(v.Num? && w.Num?)
    ensures Eval(sem, Binary(Lt, x, y), r) == if sem.lessOther(v, w).Some? then Some(Bool(sem.lessOther(v, w).value))
      else None
    ensures Eval(sem, Binary(Gt, x, y), r) == if sem.lessOther(w, v).Some? then Some(Bool(sem.lessOther(w, v).value))
      else None
    ensures Eval(sem, Binary(Le, x, y), r) ==
      if sem.lessEqualOther(v, w).Some? then Some(Bool(sem.lessEqualOther(v, w).value)) else None
    ensures Eval(sem, Binary(Ge, x, y), r) ==
      if sem.lessEqualOther(w, v).Some? then Some(Bool(sem.lessEqualOther(w, v).value)) else None
  {
    assert Eval(sem, Binary(Lt, x, y), r) == EvalBinary(sem, Lt, v, w);
    assert Eval(sem, Binary(Gt, x, y), r) == EvalBinary(sem, Gt, v, w);
    assert Eval(sem, Binary(Le, x, y), r) == EvalBinary(sem, Le, v, w);
    assert Eval(sem, Binary(Ge, x, y), r) == EvalBinary(sem, Ge, v, w);
  }

  /** `and`, `or` and `not`: nil and false are false, all other values are true; the second operand is
      evaluated only if the first one does not decide. */
  lemma LogicIs(sem: Semantics, x: Expr, y: Expr, r: Regs, v: Value)
    requires Eval(sem, x, r) == Some(v)
    ensures v == Nil || v == Bool(false) ==>
      && Eval(sem, Binary(And, x, y), r) == Some(v)
      && Eval(sem, Binary(Or, x, y), r) == Eval(sem, y, r)
      && Eval(sem, Unary(Not, x), r) == Some(Bool(true))
    ensures v == Bool(true) || v.Num? || v.Str? || v.Obj? ==>
      && Eval(sem, Binary(And, x, y), r) == Eval(sem, y, r)
      && Eval(sem, Binary(Or, x, y), r) == Some(v)
      && Eval(sem, Unary(Not, x), r) == Some(Bool(false))
  {
    assert Eval(sem, Unary(Not, x), r) == EvalUnary(sem, Not, v);
  }

  /** Arithmetic on numbers, and the concatenation of strings. */
  lemma ArithmeticIs(sem: Semantics, x: Expr, y: Expr, r: Regs, a: real, b: real, op: ArithOp)
    requires Eval(sem, x, r) == Some(Num(a)) && Eval(sem, y, r) == Some(Num(b))
    ensures Eval(sem, Binary(OpArith(op), x, y), r) == Some(Num(sem.arith(op, a, b)))
    ensures Eval(sem, Unary(Minus, x), r) == Some(Num(sem.neg(a)))
    ensures Eval(sem, Binary(Concat, x, y), r) == Some(Str(sem.tostr(a) + sem.tostr(b)))
  {
    assert Eval(sem, Binary(OpArith(op), x, y), r) == EvalBinary(sem, OpArith(op), Num(a), Num(b));
    assert Eval(sem, Binary(Concat, x, y), r) == EvalBinary(sem, Concat, Num(a), Num(b));
    assert Eval(sem, Unary(Minus, x), r) == EvalUnary(sem, Minus, Num(a));
  }

  lemma StringsAreJoined(sem: Semantics, x: Expr, y: Expr, r: Regs, a: string, b: string)
    requires Eval(sem, x, r) == Some(Str(a)) && Eval(sem, y, r) == Some(Str(b))
    ensures match Eval(sem, Binary(Concat, x, y), r)
      case Some(Str(c)) => |c| == |a| + |b| && (forall i :: 0 <= i < |a| ==> c[i] == a[i]) &&
        forall i :: 0 <= i < |b| ==> c[|a| + i] == b[i]
      case _ => false
  {
    assert Eval(sem, Binary(Concat, x, y), r) == EvalBinary(sem, Concat, Str(a), Str(b));
  }

  /** An error in an operand that is evaluated is an error of the expression. */
  lemma ErrorsSpread(sem: Semantics, x: Expr, y: Expr, r: Regs, op: BinOp, u: UnOp)
    requires Eval(sem, x, r) == None
    ensures Eval(sem, Binary(op, x, y), r) == None && Eval(sem, Unary(u, x), r) == None
    ensures op != And && op != Or ==> Eval(sem, Binary(op, y, x), r) == None
  {
  }
}
