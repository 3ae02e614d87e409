/**
 The rules of expr_eliminate_dups (scripts/config/expr.c:347-638) by the form of the operands, in both
 directions.
 */
module DuplicateRules {
  import opened Options
  import opened Expressions
  import opened Levels
  import opened Equality
  import opened Normalise
  import opened Duplicates
  import opened ExprShapes

  // ----- joining -----

  /** y, m or n */
  predicate Literal(c: Symbol) {
    c == SymY || c == SymM || c == SymN
  }

  /** s and !s, in an OR over a bool symbol. */
  predicate Opposite(a: Expr, b: Expr) {
    a.Sym? && b == Not(a) && TypeOf(a.s) == SBoolean
  }

  /** s and one of s=y, s!=n, s!=m, in an AND. */
  predicate Stronger(a: Expr, b: Expr) {
    && a.Sym? && (TypeOf(a.s) == SBoolean || TypeOf(a.s) == STristate)
    && (b == Cmp(true, a.s, SymY) || b == Cmp(false, a.s, SymN) || b == Cmp(false, a.s, SymM))
  }

  /** Two tests of one tristate symbol for different literals, alike in kind. */
  predicate TwoTests(a: Expr, b: Expr, eq: bool) {
    && a.Cmp? && b.Cmp? && a.lhs == b.lhs && TypeOf(a.lhs) == STristate && a.eq == b.eq == eq
    && Literal(a.rhs) && Literal(b.rhs) && a.rhs != b.rhs
  }

  /** s=c and s!=d over a tristate symbol, with constants. */
  predicate MixedTests(a: Expr, b: Expr) {
    && a.Cmp? && b.Cmp? && a.lhs == b.lhs && TypeOf(a.lhs) == STristate && a.eq != b.eq
    && IsConst(a.rhs) && IsConst(b.rhs)
  }

  /** The pairs that expr_join_or and expr_join_and make one. */
  predicate Pairs(op: Op, a: Expr, b: Expr) {
    if op == OrOp then Opposite(a, b) || Opposite(b, a) || TwoTests(a, b, true)
    else Stronger(a, b) || Stronger(b, a) || TwoTests(a, b, false) || MixedTests(a, b)
  }

  /** Two operands are joined if and only if expr_eq holds of them or they are such a pair. */
  lemma JoinsExactly(op: Op, a: Expr, b: Expr)
    ensures Join(op, a, b).Some? <==> ExprEq(a, b) || Pairs(op, a, b)
  {
    if !ExprEq(a, b) {
      if op == OrOp { OrPairs(a, b); } else { AndPairs(a, b); }
    }
  }

  lemma OrPairs(a: Expr, b: Expr)
    requires !ExprEq(a, b)
    ensures Join(OrOp, a, b).Some? <==> Pairs(OrOp, a, b)
  {
  }

  lemma AndPairs(a: Expr, b: Expr)
    requires !ExprEq(a, b)
    ensures Join(AndOp, a, b).Some? <==> Pairs(AndOp, a, b)
  {
  }

  // ----- the excluded middle -----

  /** Matched or not, the residue is neutral exactly if no slot is kept. */
  lemma ExtractedIs(op: Op, a: Expr, b: Expr)
    requires IsOp(op, a) && Operands(Leaves(op, a)) && Slotted(op, MatchLevels(op, false, a, b).ls1)
    requires MatchLevels(op, false, a, b).matched == [] ==> MatchLevels(op, false, a, b).ls1 == Leaves(op, a)
    ensures ExtractEq(op, a, b).1 == Sym(NeutralSym(op)) <==> Kept(op, MatchLevels(op, false, a, b).ls1) == []
  {
    var r := MatchLevels(op, false, a, b).ls1;
    ResidueIs(op, a, r);
    KeptOk(op, r);
    if MatchLevels(op, false, a, b).matched == [] { KeptAll(op, r); }
  }

  lemma {:induction false} KeptAll(op: Op, ls: seq<Expr>)
    requires Operands(ls)
    ensures Kept(op, ls) == ls
  {
    if ls != [] { KeptAll(op, ls[1..]); }
  }

  /** As long as nothing is matched nothing is taken out. */
  lemma {:induction false} RowMatches(op: Op, keepConst: bool, m: Match, i: nat, j: nat)
    requires i < |m.ls1| && j <= |m.ls2|
    ensures var r := RowBy(op, keepConst, m, i, j);
            |r.matched| >= |m.matched| && (|r.matched| == |m.matched| ==> r == m)
    decreases |m.ls2| - j
  {
    if j < |m.ls2| { RowMatches(op, keepConst, AfterPair(op, keepConst, m, i, j), i, j + 1); }
  }

  lemma {:induction false} RowsMatch(op: Op, keepConst: bool, m: Match, i: nat)
    requires i <= |m.ls1|
    ensures var r := RowsBy(op, keepConst, m, i);
            |r.matched| >= |m.matched| && (|r.matched| == |m.matched| ==> r == m)
    decreases |m.ls1| - i
  {
    if i < |m.ls1| {
      RowMatches(op, keepConst, m, i, 0);
      RowsMatch(op, keepConst, RowBy(op, keepConst, m, i, 0), i + 1);
    }
  }

  /**
   The excluded middle applies to an operand and a part of the level if and only if every operand of its negation is
   in the part as often as in the negation.
   */
  lemma ResidueExact(op: Op, x: Expr, part: Expr)
    requires x.Bin? && !IsOp(op, x) && NoLiterals(Transform(Not(x))) && NoLiterals(part)
    ensures Residue(op, x, part) == Sym(NeutralSym(op)) <==>
            AllIn(false, Leaves(op, Transform(Not(x))), Leaves(op, part))
  {
    var neg := Transform(Not(x));
    NegationIsLevel(op, x);
    ExtractExact(op, neg, part);
  }

  lemma ExtractExact(op: Op, a: Expr, b: Expr)
    requires IsOp(op, a) && NoLiterals(a) && NoLiterals(b)
    ensures ExtractEq(op, a, b).1 == Sym(NeutralSym(op)) <==> AllIn(false, Leaves(op, a), Leaves(op, b))
  {
    var la, lb, m := Leaves(op, a), Leaves(op, b), MatchLevels(op, false, a, b);
    PlainLevels(op, a, b);
    PassRuns(op, false, a, b);
    PassSlotted(op, false, la, m.ls1);
    PassSides(op, false, la, lb, m);
    LevelsAre(op, false, a, b);
    RowsMatch(op, false, Match(la, lb, []), 0);
    ExtractedIs(op, a, b);
    NoneKept(op, false, la, lb, m.ls1);
  }

  // ----- what is left -----

  /**
   Once expr_eliminate_dups is done, no two operands of a level are equal for expr_eq or a pair for its operator, and
   no operand has its whole negation in the level; on literal-free levels equal is equal up to order.
   */
  lemma SettledMeans(e: Expr, i: nat, j: nat)
    requires Settled(e) && e.Bin? && i < |Leaves(e.op, e)| && j < |Leaves(e.op, e)| && i != j
    ensures var a, b := Leaves(e.op, e)[i], Leaves(e.op, e)[j];
            && !ExprEq(a, b) && !Pairs(e.op, a, b)
            && (NoLiterals(e) ==> ShapeOf(a) != ShapeOf(b) || !Sparse(ShapeOf(a)))
  {
    var a, b := Leaves(e.op, e)[i], Leaves(e.op, e)[j];
    assert Join(e.op, a, b).None?;
    JoinsExactly(e.op, a, b);
    if NoLiterals(e) {
      LeavesNoLiterals(e.op, e);
      ExprEqExact(a, b);
    }
  }

  lemma SettledMiddle(e: Expr, i: nat)
    requires Settled(e) && e.Bin? && i < |Leaves(e.op, e)| && Leaves(e.op, e)[i].Bin?
    requires NoLiterals(e) && NoLiterals(Transform(Not(Leaves(e.op, e)[i])))
    ensures Settled(Leaves(e.op, e)[i])
    ensures !AllIn(false, Leaves(e.op, Transform(Not(Leaves(e.op, e)[i]))), Leaves(e.op, e))
  {
    ResidueExact(e.op, Leaves(e.op, e)[i], e);
  }
}
