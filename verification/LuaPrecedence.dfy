/** Precedence climbing (lparser.c, `subexpr`): which tree a sequence of tokens stands for. */
module LuaPrecedence {
  import opened LuaResults
  import opened LuaExpressions
  import opened LuaValues

  /** The tokens of an expression. A simple expression is one token: a literal, or a variable that has
      been looked up. */
  datatype Token =
    | TSimple(x: Expr)
    | TBinary(op: BinOp)
    | TNot
    | TLen
    | TOpen
    | TClose
    | TOther

  datatype Tree =
    | Simple(x: Expr)
    | Group(e: Tree)
    | Un(uop: UnOp, e: Tree)
    | Bin(bop: BinOp, left: Tree, right: Tree)

  const UNARY_PRIORITY: nat := 8

  /** The table `priority`. */
  function LeftPriority(op: BinOp): nat {
    match op
    case Concat => 5
    case OpArith(a) => if a.Add? || a.Sub? then 6 else if a.Pow? then 10 else 7
    case And => 2
    case Or => 1
    case _ => 3
  }

  function RightPriority(op: BinOp): nat {
    match op
    case Concat => 4
    case OpArith(Pow) => 9
    case _ => LeftPriority(op)
  }

  /** `getunopr`: the minus sign is both. */
  function GetUnOpr(t: Token): Option<UnOp> {
    match t
    case TBinary(op) => if op == OpArith(Sub) then Some(Minus) else None
    case TNot => Some(Not)
    case TLen => Some(Len)
    case _ => None
  }

  function UnToken(op: UnOp): (t: Token)
    ensures GetUnOpr(t) == Some(op)
  {
    match op
    case Minus => TBinary(OpArith(Sub))
    case Not => TNot
    case Len => TLen
  }

  /** The left priority of the operator that comes next, or zero. */
  function Ahead(ts: seq<Token>): nat {
    if ts != [] && ts[0].TBinary? then LeftPriority(ts[0].op) else 0
  }

  // ---- parsing

  datatype Parsed = Parsed(tree: Tree, rest: seq<Token>)

  /** `subexpr`, when `room` more levels of nesting are left. */
  function SubExpr(ts: seq<Token>, limit: nat, room: nat): (r: Option<Parsed>)
    ensures r.Some? ==> |r.value.rest| < |ts|
    decreases |ts|, 1
  {
    if room == 0 || ts == [] then None
    else
      var first :=
        match GetUnOpr(ts[0])
        case Some(op) =>
          var e := SubExpr(ts[1..], UNARY_PRIORITY, room - 1);
          if e.None? then None else Some(Parsed(Un(op, e.value.tree), e.value.rest))
        case None => SimpleExp(ts, room);
      if first.None? then None else Expand(first.value.tree, first.value.rest, limit, room)
  }

  /** `simpleexp` and `prefixexp`. */
  function SimpleExp(ts: seq<Token>, room: nat): (r: Option<Parsed>)
    requires ts != [] && room > 0
    ensures r.Some? ==> |r.value.rest| < |ts|
    decreases |ts|, 0
  {
    match ts[0]
    case TSimple(x) => Some(Parsed(Simple(x), ts[1..]))
    case TOpen =>
      var e := SubExpr(ts[1..], 0, room - 1);
      if e.None? || e.value.rest == [] || e.value.rest[0] != TClose then None
      else Some(Parsed(Group(e.value.tree), e.value.rest[1..]))
    case _ => None
  }

  /** The loop of `subexpr`: takes operators whose left priority is above the limit. */
  function Expand(e: Tree, ts: seq<Token>, limit: nat, room: nat): (r: Option<Parsed>)
    requires room > 0
    ensures r.Some? ==> |r.value.rest| <= |ts|
    decreases |ts|, 0
  {
    if Ahead(ts) <= limit then Some(Parsed(e, ts))
    else
      var e2 := SubExpr(ts[1..], RightPriority(ts[0].op), room - 1);
      if e2.None? then None else Expand(Bin(ts[0].op, e, e2.value.tree), e2.value.rest, limit, room)
  }

  // ---- printing

  function Flatten(e: Tree): (ts: seq<Token>)
    ensures ts != []
  {
    match e
    case Simple(x) => [TSimple(x)]
    case Group(a) => [TOpen] + Flatten(a) + [TClose]
    case Un(op, a) => [UnToken(op)] + Flatten(a)
    case Bin(op, l, r) => Flatten(l) + ([TBinary(op)] + Flatten(r))
  }

  const ANY: nat := 100

  /** An operator after `e` is not taken into `e` if its left priority is at most this. */
  function RightEdge(e: Tree): nat {
    match e
    case Un(_, a) => Min(UNARY_PRIORITY, RightEdge(a))
    case Bin(op, _, r) => Min(RightPriority(op), RightEdge(r))
    case _ => ANY
  }

  function Min(a: nat, b: nat): nat { if a < b then a else b }

  /** `e` has the parentheses that the priority table requires where the operators that may be taken
      have a left priority above `limit`. */
  predicate Proper(e: Tree, limit: nat) {
    match e
    case Simple(_) => true
    case Group(a) => Proper(a, 0)
    case Un(_, a) => Proper(a, UNARY_PRIORITY)
    case Bin(op, l, r) => limit < LeftPriority(op) <= RightEdge(l) && Proper(l, limit) && Proper(r, RightPriority(op))
  }

  /** How deep `subexpr` nests; the left operand is read by the loop. */
  function Nesting(e: Tree): nat {
    match e
    case Simple(_) => 1
    case Group(a) => 1 + Nesting(a)
    case Un(_, a) => 1 + Nesting(a)
    case Bin(_, l, r) => if Nesting(l) > 1 + Nesting(r) then Nesting(l) else 1 + Nesting(r)
  }

  // ---- the parser and the printer are inverse to each other

  /** What is parsed is what is printed, with nothing left over that should have been taken. */
  ghost predicate Reads(ts: seq<Token>, limit: nat, room: nat, p: Parsed) {
    && ts == Flatten(p.tree) + p.rest && Proper(p.tree, limit) && Nesting(p.tree) <= room
    && Ahead(p.rest) <= Min(limit, RightEdge(p.tree))
  }

  lemma {:induction false} ReadsWhatItParses(ts: seq<Token>, limit: nat, room: nat)
    ensures var r := SubExpr(ts, limit, room); r.Some? ==> Reads(ts, limit, room, r.value)
    decreases |ts|, 1
  {
    if SubExpr(ts, limit, room).Some? {
      var op := GetUnOpr(ts[0]);
      if op.Some? {
        ReadsWhatItParses(ts[1..], UNARY_PRIORITY, room - 1);
        var e := SubExpr(ts[1..], UNARY_PRIORITY, room - 1).value;
        assert ts == [ts[0]] + ts[1..];
        assert ts == Flatten(Un(op.value, e.tree)) + e.rest;
        ExpandReads(Un(op.value, e.tree), e.rest, limit, room, ts);
      } else {
        SimpleReads(ts, room);
        var e := SimpleExp(ts, room).value;
        ExpandReads(e.tree, e.rest, limit, room, ts);
      }
    }
  }

  lemma {:induction false} SimpleReads(ts: seq<Token>, room: nat)
    requires ts != [] && room > 0
    ensures var r := SimpleExp(ts, room);
      r.Some? ==>
        ts == Flatten(r.value.tree) + r.value.rest && (r.value.tree.Simple? ||
        r.value.tree.Group?) && Proper(r.value.tree, 0) && Nesting(r.value.tree) <= room
    decreases |ts|, 0
  {
    if ts[0].TOpen? && SimpleExp(ts, room).Some? {
      ReadsWhatItParses(ts[1..], 0, room - 1);
      var e := SubExpr(ts[1..], 0, room - 1).value;
      assert e.rest == [TClose] + e.rest[1..];
      assert ts == [TOpen] + (Flatten(e.tree) + ([TClose] + e.rest[1..])) == Flatten(Group(e.tree)) + e.rest[1..];
    }
  }

  lemma {:induction false} ExpandReads(e: Tree, ts: seq<Token>, limit: nat, room: nat, whole: seq<Token>)
    requires room > 0 && whole == Flatten(e) + ts && Proper(e, limit) && Nesting(e) <= room && Ahead(ts) <= RightEdge(e)
    ensures var r := Expand(e, ts, limit, room); r.Some? ==> Reads(whole, limit, room, r.value)
    decreases |ts|, 0
  {
    if Ahead(ts) > limit && Expand(e, ts, limit, room).Some? {
      var op := ts[0].op;
      ReadsWhatItParses(ts[1..], RightPriority(op), room - 1);
      var e2 := SubExpr(ts[1..], RightPriority(op), room - 1).value;
      BinIsRead(e, op, e2, ts, limit, room, whole);
      ExpandReads(Bin(op, e, e2.tree), e2.rest, limit, room, whole);
    }
  }

  /** One round of the loop. */
  lemma BinIsRead(e: Tree, op: BinOp, p: Parsed, ts: seq<Token>, limit: nat, room: nat, whole: seq<Token>)
    requires room > 0 && ts != [] && ts[0] == TBinary(op) && Reads(ts[1..], RightPriority(op), room - 1, p) &&
      limit < Ahead(ts)
    requires whole == Flatten(e) + ts && Proper(e, limit) && Nesting(e) <= room && Ahead(ts) <= RightEdge(e)
    ensures var b := Bin(op, e, p.tree);
      && whole == Flatten(b) + p.rest && Proper(b, limit) && Nesting(b) <= room && Ahead(p.rest) <= RightEdge(b)
  {
    assert ts == [TBinary(op)] + ts[1..];
    assert whole == Flatten(e) + ([TBinary(op)] + (Flatten(p.tree) + p.rest)) == Flatten(Bin(op, e, p.tree)) + p.rest;
  }

  /** Reading a proper tree takes the parser to its loop, with the tree. */
  lemma {:induction false} ParsesWhatIsPrinted(e: Tree, rest: seq<Token>, limit: nat, room: nat)
    requires Proper(e, limit) && Nesting(e) <= room && Ahead(rest) <= RightEdge(e)
    ensures SubExpr(Flatten(e) + rest, limit, room) == Expand(e, rest, limit, room)
    decreases e
  {
    hide SubExpr, SimpleExp, Expand, Ahead;
    var ts := Flatten(e) + rest;
    NestingIsPositive(e);
    match e {
      case Simple(x) =>
        assert ts == [TSimple(x)] + rest;
        SimpleRead(x, rest, limit, room);
      case Group(a) =>
        assert ts == [TOpen] + (Flatten(a) + ([TClose] + rest));
        NestingIsPositive(a);
        NoOperator([TClose] + rest);
        ParsesWhatIsPrinted(a, [TClose] + rest, 0, room - 1);
        GroupRead(Flatten(a) + ([TClose] + rest), a, rest, limit, room);
      case Un(op, a) =>
        assert ts == [UnToken(op)] + (Flatten(a) + rest);
        NestingIsPositive(a);
        ParsesWhatIsPrinted(a, rest, UNARY_PRIORITY, room - 1);
        UnRead(Flatten(a) + rest, op, a, rest, limit, room);
      case Bin(op, l, r) =>
        assert ts == Flatten(l) + ([TBinary(op)] + (Flatten(r) + rest));
        NestingIsPositive(r);
        AheadIs(op, Flatten(r) + rest);
        ParsesWhatIsPrinted(l, [TBinary(op)] + (Flatten(r) + rest), limit, room);
        ParsesWhatIsPrinted(r, rest, RightPriority(op), room - 1);
        BinRead(Flatten(r) + rest, op, l, r, rest, limit, room);
    }
  }

  lemma AheadIs(op: BinOp, ts: seq<Token>)
    ensures Ahead([TBinary(op)] + ts) == LeftPriority(op)
  {
  }

  lemma NoOperator(ts: seq<Token>)
    requires ts != [] && !ts[0].TBinary?
    ensures Ahead(ts) == 0
  {
  }

  lemma SimpleRead(x: Expr, rest: seq<Token>, limit: nat, room: nat)
    requires room > 0
    ensures SubExpr([TSimple(x)] + rest, limit, room) == Expand(Simple(x), rest, limit, room)
  {
    hide Expand;
    assert ([TSimple(x)] + rest)[1..] == rest;
  }

  lemma GroupRead(ts: seq<Token>, a: Tree, rest: seq<Token>, limit: nat, room: nat)
    requires room > 1 && SubExpr(ts, 0, room - 1) == Expand(a, [TClose] + rest, 0, room - 1)
    ensures SubExpr([TOpen] + ts, limit, room) == Expand(Group(a), rest, limit, room)
  {
    assert ([TOpen] + ts)[1..] == ts;
    assert ([TClose] + rest)[1..] == rest;
    assert Expand(a, [TClose] + rest, 0, room - 1) == Some(Parsed(a, [TClose] + rest));
  }

  lemma UnRead(ts: seq<Token>, op: UnOp, a: Tree, rest: seq<Token>, limit: nat, room: nat)
    requires room > 1 && SubExpr(ts, UNARY_PRIORITY, room - 1) == Expand(a, rest, UNARY_PRIORITY, room - 1) &&
      Ahead(rest) <= UNARY_PRIORITY
    ensures SubExpr([UnToken(op)] + ts, limit, room) == Expand(Un(op, a), rest, limit, room)
  {
    assert ([UnToken(op)] + ts)[1..] == ts;
    assert Expand(a, rest, UNARY_PRIORITY, room - 1) == Some(Parsed(a, rest));
  }

  lemma BinRead(ts: seq<Token>, op: BinOp, l: Tree, r: Tree, rest: seq<Token>, limit: nat, room: nat)
    requires room > 1 && SubExpr(ts, RightPriority(op), room - 1) == Expand(r, rest, RightPriority(op), room - 1)
    requires Ahead(rest) <= RightPriority(op) && limit < LeftPriority(op)
    ensures Expand(l, [TBinary(op)] + ts, limit, room) == Expand(Bin(op, l, r), rest, limit, room)
  {
    hide LeftPriority, RightPriority;
    assert ([TBinary(op)] + ts)[1..] == ts;
    assert Expand(r, rest, RightPriority(op), room - 1) == Some(Parsed(r, rest));
  }

  /** `subexpr` gives a tree exactly if the tokens are that tree as it is printed, no parentheses are
      missing, the nesting is within the limit, and the token after it is not an operator that the
      limit or an open operator of the tree would take. In particular there is one tree at most. */
  lemma SubExprIs(ts: seq<Token>, limit: nat, room: nat, p: Parsed)
    ensures SubExpr(ts, limit, room) == Some(p) <==> Reads(ts, limit, room, p)
  {
    ReadsWhatItParses(ts, limit, room);
    if Reads(ts, limit, room, p) {
      NestingIsPositive(p.tree);
      ParsesWhatIsPrinted(p.tree, p.rest, limit, room);
    }
  }

  lemma NestingIsPositive(e: Tree)
    ensures Nesting(e) > 0
  {
  }

  // ---- the parentheses that are needed

  function Strip(e: Tree): Tree {
    match e
    case Simple(_) => e
    case Group(a) => Strip(a)
    case Un(op, a) => Un(op, Strip(a))
    case Bin(op, l, r) => Bin(op, Strip(l), Strip(r))
  }

  /** Adds parentheses to an operator tree, where it stands among operators above `limit` and before
      one with left priority `next`, or zero. */
  function Parenthesize(e: Tree, limit: nat, next: nat): Tree {
    match e
    case Simple(_) => e
    case Group(a) => Group(Parenthesize(a, 0, 0))
    case Un(op, a) => if next <= UNARY_PRIORITY then Un(op, Parenthesize(a, UNARY_PRIORITY, next))
      else Group(Un(op, Parenthesize(a, UNARY_PRIORITY, 0)))
    case Bin(op, l, r) =>
      if limit < LeftPriority(op) && next <= RightPriority(op)
      then Bin(op, Parenthesize(l, limit, LeftPriority(op)), Parenthesize(r, RightPriority(op), next))
      else Group(Bin(op, Parenthesize(l, 0, LeftPriority(op)), Parenthesize(r, RightPriority(op), 0)))
  }

  lemma {:induction false} ParenthesizedIsProper(e: Tree, limit: nat, next: nat)
    requires next <= ANY
    ensures var p := Parenthesize(e, limit, next); Proper(p, limit) && next <= RightEdge(p) && Strip(p) == Strip(e)
  {
    match e
    case Simple(_) =>
    case Group(a) => ParenthesizedIsProper(a, 0, 0);
    case Un(op, a) => ParenthesizedIsProper(a, UNARY_PRIORITY, if next <= UNARY_PRIORITY then next else 0);
    case Bin(op, l, r) =>
      var fits := limit < LeftPriority(op) && next <= RightPriority(op);
      ParenthesizedIsProper(l, if fits then limit else 0, LeftPriority(op));
      ParenthesizedIsProper(r, RightPriority(op), if fits then next else 0);
  }

  /** Printing with these parentheses and parsing gives the tree back, if it does not nest too deep. */
  lemma RoundTrip(e: Tree, room: nat)
    ensures var p := Parenthesize(e, 0, 0);
      Strip(p) == Strip(e) && SubExpr(Flatten(p), 0, room) == if Nesting(p) <= room then Some(Parsed(p, [])) else None
  {
    var p := Parenthesize(e, 0, 0);
    ParenthesizedIsProper(e, 0, 0);
    assert Flatten(p) + [] == Flatten(p);
    var r := SubExpr(Flatten(p), 0, room);
    SubExprIs(Flatten(p), 0, room, Parsed(p, []));
    if r.Some? {
      SubExprIs(Flatten(p), 0, room, r.value);
      SubExprIs(Flatten(p), 0, room + Nesting(p), r.value);
      SubExprIs(Flatten(p), 0, room + Nesting(p), Parsed(p, []));
    }
  }

  function Groups(e: Tree): nat {
    match e
    case Simple(_) => 0
    case Group(a) => 1 + Groups(a)
    case Un(_, a) => Groups(a)
    case Bin(_, l, r) => Groups(l) + Groups(r)
  }

  predicate IsPriority(n: nat) { n <= UNARY_PRIORITY || n == 10 }

  /** Under a following operator that binds tighter, the limit does not matter. */
  lemma {:induction false} LimitHidden(e: Tree, limit: nat, next: nat)
    requires limit < next
    ensures Parenthesize(e, limit, next) == Parenthesize(e, 0, next)
  {
    if e.Bin? {
      LimitHidden(e.left, if limit < LeftPriority(e.bop) then limit else 0, LeftPriority(e.bop));
    }
  }

  /** Under a limit that is higher, the following operator does not matter. */
  lemma {:induction false} NextHidden(e: Tree, limit: nat, next: nat)
    requires next <= limit <= 9 && IsPriority(next)
    ensures Parenthesize(e, limit, next) == Parenthesize(e, limit, 0)
  {
    match e
    case Un(_, a) => NextHidden(a, UNARY_PRIORITY, next);
    case Bin(op, l, r) => if limit < LeftPriority(op) { NextHidden(r, RightPriority(op), next); }
    case _ =>
  }

  /** Where an expression stands costs one pair of parentheses at most. */
  lemma OneMore(e: Tree, limit: nat, next: nat)
    requires limit <= 9 && IsPriority(next)
    ensures Groups(Parenthesize(e, limit, next)) <= 1 + Groups(Parenthesize(e, 0, 0))
  {
    match e
    case Un(_, a) => if next <= UNARY_PRIORITY { NextHidden(a, UNARY_PRIORITY, next); }
    case Bin(op, l, r) =>
      if limit < LeftPriority(op) && next <= RightPriority(op) {
        LimitHidden(l, limit, LeftPriority(op));
        NextHidden(r, RightPriority(op), next);
      }
    case _ =>
  }

  /** No tree for the same operators that the parser can give has fewer parentheses. */
  lemma {:induction false} Fewest(e: Tree, limit: nat, next: nat, y: Tree)
    requires Proper(y, limit) && next <= RightEdge(y) && limit <= 9 && IsPriority(next) && Strip(y) == e &&
      Strip(e) == e
    ensures Groups(Parenthesize(e, limit, next)) <= Groups(y)
    decreases y
  {
    match y
    case Simple(_) =>
    case Group(a) =>
      Fewest(e, 0, 0, a);
      OneMore(e, limit, next);
    case Un(op, a) => Fewest(Strip(a), UNARY_PRIORITY, next, a);
    case Bin(op, l, r) =>
      Fewest(Strip(l), limit, LeftPriority(op), l);
      Fewest(Strip(r), RightPriority(op), next, r);
  }

  // ---- which operator binds tighter

  /** Section 2.5.6 of the reference manual: `or`; `and`; the comparisons; `..`; `+` and `-`; `*`, `/` and
      `%`; the unary operators; `^`. */
  function Level(op: BinOp): (level: nat)
    ensures 1 <= level <= 8 && level != UNARY_LEVEL
  {
    match op
    case Or => 1
    case And => 2
    case Lt => 3
    case Gt => 3
    case Le => 3
    case Ge => 3
    case Ne => 3
    case Eq => 3
    case Concat => 4
    case OpArith(Add) => 5
    case OpArith(Sub) => 5
    case OpArith(Mul) => 6
    case OpArith(Div) => 6
    case OpArith(Mod) => 6
    case OpArith(Pow) => 8
  }

  const UNARY_LEVEL: nat := 7

  /** `a op1 b op2 c` is `(a op1 b) op2 c`; `..` and `^` are right associative. */
  predicate GroupsLeft(op1: BinOp, op2: BinOp) {
    Level(op1) > Level(op2) || (Level(op1) == Level(op2) && op1 != Concat && op1 != OpArith(Pow))
  }

  /** The table of priorities says the same. */
  lemma PrioritiesAreLevels(op1: BinOp, op2: BinOp)
    ensures LeftPriority(op2) <= RightPriority(op1) <==> GroupsLeft(op1, op2)
    ensures LeftPriority(op1) > UNARY_PRIORITY <==> Level(op1) > UNARY_LEVEL
    ensures LeftPriority(op1) > 0
  {
  }

  /** The binary operators at the left edge of a tree: no parenthesis or unary operator is before them. */
  function LeftEdgeOps(e: Tree): set<BinOp> {
    match e
    case Bin(op, l, _) => {op} + LeftEdgeOps(l)
    case _ => {}
  }

  /** The binary operators at the right edge of a tree. */
  function RightEdgeOps(e: Tree): set<BinOp> {
    match e
    case Bin(op, _, r) => {op} + RightEdgeOps(r)
    case Un(_, a) => RightEdgeOps(a)
    case _ => {}
  }

  /** There is a unary operator at the right edge. */
  predicate EndsUnary(e: Tree) {
    match e
    case Bin(_, _, r) => EndsUnary(r)
    case Un(_, a) => true
    case _ => false
  }

  /** Every operand has been taken by the operator that the levels give it to. */
  ghost predicate WellGrouped(e: Tree) {
    match e
    case Simple(_) => true
    case Group(a) => WellGrouped(a)
    case Un(_, a) => WellGrouped(a) && forall op :: op in LeftEdgeOps(a) ==> Level(op) > UNARY_LEVEL
    case Bin(op, l, r) =>
      && WellGrouped(l) && WellGrouped(r)
      && (forall o :: o in RightEdgeOps(l) ==> GroupsLeft(o, op))
      && (EndsUnary(l) ==> UNARY_LEVEL > Level(op))
      && (forall o :: o in LeftEdgeOps(r) ==> !GroupsLeft(op, o))
  }

  lemma {:induction false} RightEdgeIs(e: Tree, op: BinOp)
    ensures LeftPriority(op) <= RightEdge(e) <==>
      (forall o :: o in RightEdgeOps(e) ==> GroupsLeft(o, op)) && (EndsUnary(e) ==> UNARY_LEVEL > Level(op))
  {
    PrioritiesAreLevels(op, op);
    match e
    case Bin(o, _, r) =>
      RightEdgeIs(r, op);
      PrioritiesAreLevels(o, op);
    case Un(_, a) => RightEdgeIs(a, op);
    case _ =>
  }

  lemma {:induction false} ProperIs(e: Tree, limit: nat)
    ensures Proper(e, limit) <==> WellGrouped(e) && forall o :: o in LeftEdgeOps(e) ==> limit < LeftPriority(o)
  {
    match e
    case Simple(_) =>
    case Group(a) =>
      ProperIs(a, 0);
    case Un(_, a) =>
      ProperIs(a, UNARY_PRIORITY);
      forall o ensures LeftPriority(o) > UNARY_PRIORITY <==> Level(o) > UNARY_LEVEL {
        PrioritiesAreLevels(o, o);
      }
    case Bin(op, l, r) =>
      ProperIs(l, limit);
      ProperIs(r, RightPriority(op));
      RightEdgeIs(l, op);
      forall o ensures LeftPriority(o) <= RightPriority(op) <==> GroupsLeft(op, o) {
        PrioritiesAreLevels(op, o);
      }
  }

  /** A whole expression: the tree that is parsed is the one that reads as the tokens and is grouped as the
      levels of the manual say, as long as it does not nest too deep. */
  lemma GroupedByLevels(ts: seq<Token>, room: nat, e: Tree, rest: seq<Token>)
    ensures SubExpr(ts, 0, room) == Some(Parsed(e, rest)) <==>
      && ts == Flatten(e) + rest && WellGrouped(e) && Nesting(e) <= room && (rest != [] ==> !rest[0].TBinary?)
  {
    SubExprIs(ts, 0, room, Parsed(e, rest));
    ProperIs(e, 0);
    forall o ensures LeftPriority(o) > 0 {
      PrioritiesAreLevels(o, o);
    }
  }

  /** Two simple operands, and a unary operator before one of them or both. */
  lemma SmallTrees(a: Expr, op: BinOp, b: Expr, uop: UnOp)
    ensures var x, y := Simple(a), Simple(b);
      && Flatten(Bin(op, x, y)) == [TSimple(a), TBinary(op), TSimple(b)] && WellGrouped(Bin(op, x, y))
      && Nesting(Bin(op, x, y)) == 2 && LeftEdgeOps(Bin(op, x, y)) == RightEdgeOps(Bin(op, x, y)) == {op}
      && Flatten(Un(uop, x)) == [UnToken(uop), TSimple(a)] && WellGrouped(Un(uop, x)) && Nesting(Un(uop, x)) == 2
      && LeftEdgeOps(Un(uop, x)) == RightEdgeOps(Un(uop, x)) == {} && !EndsUnary(Bin(op, x, y))
  {
  }

  /** Three operands. */
  lemma TwoOperators(a: Expr, b: Expr, c: Expr, op1: BinOp, op2: BinOp, room: nat)
    requires room >= 3
    ensures
      var x, y, z := Simple(a), Simple(b), Simple(c);
      SubExpr([TSimple(a), TBinary(op1), TSimple(b), TBinary(op2), TSimple(c)], 0, room) == Some(Parsed(
        if Level(op1) > Level(op2) || (Level(op1) == Level(op2) != 4 && Level(op2) != 8)
        then Bin(op2, Bin(op1, x, y), z) else Bin(op1, x, Bin(op2, y, z)), []))
  {
    var x, y, z := Simple(a), Simple(b), Simple(c);
    var ts := [TSimple(a), TBinary(op1), TSimple(b), TBinary(op2), TSimple(c)];
    hide SubExpr;
    SmallTrees(a, op1, b, Not);
    SmallTrees(b, op2, c, Not);
    var e := if GroupsLeft(op1, op2) then Bin(op2, Bin(op1, x, y), z) else Bin(op1, x, Bin(op2, y, z));
    assert Flatten(e) + [] == ts;
    GroupedByLevels(ts, room, e, []);
  }

  /** A unary operator takes its operand before every binary operator but `^`. */
  lemma UnaryOperator(uop: UnOp, a: Expr, op: BinOp, b: Expr, room: nat)
    requires room >= 3
    ensures
      var t := match uop case Minus => TBinary(OpArith(Sub)) case Not => TNot case Len => TLen;
      SubExpr([t, TSimple(a), TBinary(op), TSimple(b)], 0, room) == Some(Parsed(
        if op == OpArith(Pow) then Un(uop, Bin(op, Simple(a), Simple(b))) else Bin(op, Un(uop, Simple(a)), Simple(b)),
        []))
  {
    var t := UnToken(uop);
    var ts := [t, TSimple(a), TBinary(op), TSimple(b)];
    hide SubExpr;
    SmallTrees(a, op, b, uop);
    var e := if op == OpArith(Pow) then Un(uop, Bin(op, Simple(a), Simple(b)))
      else Bin(op, Un(uop, Simple(a)), Simple(b));
    assert Flatten(e) + [] == ts;
    GroupedByLevels(ts, room, e, []);
  }

  /** A unary operator after a binary one, whatever it is, takes only its own operand and the powers of it. */
  lemma UnaryOperand(a: Expr, op: BinOp, uop: UnOp, b: Expr, op2: BinOp, c: Expr, room: nat)
    requires room >= 4
    ensures
      var t := match uop case Minus => TBinary(OpArith(Sub)) case Not => TNot case Len => TLen;
      var x, y, z := Simple(a), Simple(b), Simple(c);
      SubExpr([TSimple(a), TBinary(op), t, TSimple(b), TBinary(op2), TSimple(c)], 0, room) == Some(Parsed(
        if op2 == OpArith(Pow) then Bin(op, x, Un(uop, Bin(op2, y, z)))
        else if GroupsLeft(op, op2) then Bin(op2, Bin(op, x, Un(uop, y)), z)
        else Bin(op, x, Bin(op2, Un(uop, y), z)), []))
  {
    var t := UnToken(uop);
    var x, y, z := Simple(a), Simple(b), Simple(c);
    var ts := [TSimple(a), TBinary(op), t, TSimple(b), TBinary(op2), TSimple(c)];
    var e := if op2 == OpArith(Pow) then Bin(op, x, Un(uop, Bin(op2, y, z)))
      else if GroupsLeft(op, op2) then Bin(op2, Bin(op, x, Un(uop, y)), z)
      else Bin(op, x, Bin(op2, Un(uop, y), z));
    hide SubExpr, GroupsLeft, Level, WellGrouped, Nesting, LeftEdgeOps, RightEdgeOps, EndsUnary;
    SmallTrees(b, op2, c, uop);
    if op2 == OpArith(Pow) {
      PowerFirst(x, op, uop, Bin(op2, y, z));
    } else {
      LevelsBelowPow(op2);
      UnaryFirst(x, op, Un(uop, y), op2, z);
    }
    assert Flatten(e) + [] == ts;
    GroupedByLevels(ts, room, e, []);
  }

  lemma LevelsBelowPow(op: BinOp)
    requires op != OpArith(Pow)
    ensures Level(op) < UNARY_LEVEL
  {
  }

  lemma PowerFirst(x: Tree, op: BinOp, uop: UnOp, p: Tree)
    requires x.Simple? && WellGrouped(p) && LeftEdgeOps(p) == {OpArith(Pow)} && Nesting(p) == 2
    ensures var e := Bin(op, x, Un(uop, p));
      WellGrouped(e) && Nesting(e) == 4 && Flatten(e) == Flatten(x) + ([TBinary(op)] + ([UnToken(uop)] + Flatten(p)))
  {
  }

  lemma UnaryFirst(x: Tree, op: BinOp, u: Tree, op2: BinOp, z: Tree)
    requires x.Simple? && z.Simple? && u.Un? && WellGrouped(u) && LeftEdgeOps(u) == RightEdgeOps(u) == {} &&
      Nesting(u) == 2 && Level(op2) < UNARY_LEVEL
    ensures var e := if GroupsLeft(op, op2) then Bin(op2, Bin(op, x, u), z) else Bin(op, x, Bin(op2, u, z));
      WellGrouped(e) && Nesting(e) <= 3 &&
      Flatten(e) == Flatten(x) + ([TBinary(op)] + (Flatten(u) + ([TBinary(op2)] + Flatten(z))))
  {
    hide Level;
    assert Nesting(x) == Nesting(z) == 1;
    if GroupsLeft(op, op2) {
      var l := Bin(op, x, u);
      assert Flatten(l) == Flatten(x) + ([TBinary(op)] + Flatten(u));
      assert RightEdgeOps(l) == {op} && WellGrouped(l);
      assert Nesting(l) == if Nesting(x) > 1 + Nesting(u) then Nesting(x) else 1 + Nesting(u);
    } else {
      var r := Bin(op2, u, z);
      assert Flatten(r) == Flatten(u) + ([TBinary(op2)] + Flatten(z));
      assert LeftEdgeOps(r) == {op2} && WellGrouped(r);
      assert Nesting(r) == if Nesting(u) > 1 + Nesting(z) then Nesting(u) else 1 + Nesting(z);
    }
  }
}
