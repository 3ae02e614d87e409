/**
 Matching of equal operands: expr_eliminate_yn, expr_eq, expr_eliminate_eq
 and expr_extract_eq (scripts/config/expr.c). Trees are values; a slot that
 the original rewrites through `struct expr **` is an index into the leaves
 of a level.
 */
module Equality {
  import opened Options
  import opened Expressions
  import opened Levels

  /** expr_eliminate_yn */
  function EliminateYn(e: Expr): (r: Expr)
    ensures Size(r) <= Size(e)
  {
    match e
    case Bin(op, l, r) =>
      var l' := EliminateYn(l);
      var r' := EliminateYn(r);
      if l' == Sym(AbsorbingSym(op)) then l'
      else if l' == Sym(NeutralSym(op)) then r'
      else if r' == Sym(AbsorbingSym(op)) then r'
      else if r' == Sym(NeutralSym(op)) then l'
      else Bin(op, l', r')
    case _ => e
  }

  predicate IsYn(e: Expr) {
    e == Sym(SymY) || e == Sym(SymN)
  }

  /** Some operand of an AND or OR outside every NOT is a literal y or n. */
  predicate HasYn(e: Expr) {
    e.Bin? && (IsYn(e.l) || IsYn(e.r) || HasYn(e.l) || HasYn(e.r))
  }

  lemma {:induction false} EliminateYnKeepsValue(e: Expr, v: Valuation)
    requires Respects(v)
    ensures Eval(EliminateYn(e), v) == Eval(e, v)
  {
    if e.Bin? {
      EliminateYnKeepsValue(e.l, v);
      EliminateYnKeepsValue(e.r, v);
      assert RightValue(SymY, v(SymY)) && RightValue(SymN, v(SymN));
    }
  }

  /** No literal operand is left, and the tree shrinks exactly when there was one. */
  lemma {:induction false} EliminateYnShrinks(e: Expr)
    ensures !HasYn(EliminateYn(e))
    ensures HasYn(e) <==> Size(EliminateYn(e)) < Size(e)
    ensures !HasYn(e) ==> EliminateYn(e) == e
  {
    if e.Bin? {
      EliminateYnShrinks(e.l);
      EliminateYnShrinks(e.r);
    }
  }

  /** What one pass over two levels leaves: both levels, and what was matched. */
  datatype Match = Match(ls1: seq<Expr>, ls2: seq<Expr>, matched: seq<Expr>)

  /** expr_eq */
  predicate ExprEq(a: Expr, b: Expr)
    decreases Size(a) + Size(b), 4
  {
    match (a, b)
    case (Cmp(_, _, _), Cmp(_, _, _)) => a == b
    case (Sym(_), Sym(_)) => a == b
    case (Not(x), Not(y)) => ExprEq(x, y)
    case (Bin(op, _, _), Bin(op', _, _)) =>
      op == op' &&
      var (x, y, _) := EliminateEq(a, b);
      x.Sym? && x == y
    case _ => false
  }

  /** The literal constants that __expr_eliminate_eq leaves alone: flags & (SYMBOL_YES|SYMBOL_NO). */
  predicate Guarded(a: Expr, b: Expr) {
    a.Sym? && a == b && IsConst(a.s) && a.s != SymM
  }

  /**
   One row of the pairwise walk of __expr_eliminate_eq (keepConst) and of
   expr_extract_eq (not keepConst): slot i against the slots from j on.
   */
  function MatchRow(op: Op, keepConst: bool, m: Match, i: nat, j: nat, bound: nat): (r: Match)
    requires i < |m.ls1| && j <= |m.ls2|
    requires Bounded(m, bound)
    ensures SameShape(m, r)
    decreases bound, 0, |m.ls2| - j
  {
    if j == |m.ls2| then
      m
    else if !(keepConst && Guarded(m.ls1[i], m.ls2[j])) && ExprEq(m.ls1[i], m.ls2[j]) then
      var one := Sym(NeutralSym(op));
      MatchRow(op, keepConst, Match(m.ls1[i := one], m.ls2[j := one], m.matched + [m.ls1[i]]), i, j + 1, bound)
    else
      MatchRow(op, keepConst, m, i, j + 1, bound)
  }

  function MatchRows(op: Op, keepConst: bool, m: Match, i: nat, bound: nat): (r: Match)
    requires i <= |m.ls1|
    requires Bounded(m, bound)
    ensures SameShape(m, r)
    decreases bound, 1, |m.ls1| - i
  {
    if i == |m.ls1| then m
    else MatchRows(op, keepConst, MatchRow(op, keepConst, m, i, 0, bound), i + 1, bound)
  }

  predicate Bounded(m: Match, bound: nat) {
    forall p, q :: 0 <= p < |m.ls1| && 0 <= q < |m.ls2| ==> Size(m.ls1[p]) + Size(m.ls2[q]) < bound
  }

  predicate SameShape(m: Match, r: Match) {
    && |r.ls1| == |m.ls1| && |r.ls2| == |m.ls2|
    && (forall k :: 0 <= k < |m.ls1| ==> Size(r.ls1[k]) <= Size(m.ls1[k]))
    && (forall k :: 0 <= k < |m.ls2| ==> Size(r.ls2[k]) <= Size(m.ls2[k]))
  }

  /** One pass over the levels of two trees, of which at least one is a nest of op. */
  function MatchTrees(op: Op, keepConst: bool, a: Expr, b: Expr): (r: (Expr, Expr, seq<Expr>))
    requires IsOp(op, a) || IsOp(op, b)
    ensures Size(r.0) <= Size(a) && Size(r.1) <= Size(b)
    decreases Size(a) + Size(b), 2
  {
    var m := MatchLevels(op, keepConst, a, b);
    RefillShrinks(op, a, m.ls1);
    RefillShrinks(op, b, m.ls2);
    (Refill(op, a, m.ls1), Refill(op, b, m.ls2), m.matched)
  }

  function MatchLevels(op: Op, keepConst: bool, a: Expr, b: Expr): (r: Match)
    requires IsOp(op, a) || IsOp(op, b)
    ensures SameShape(Match(Leaves(op, a), Leaves(op, b), []), r)
    decreases Size(a) + Size(b), 2, 0
  {
    MatchRows(op, keepConst, Match(Leaves(op, a), Leaves(op, b), []), 0, Size(a) + Size(b))
  }

  /** expr_eliminate_eq, with the number of matches it adds to trans_count. */
  function EliminateEq(a: Expr, b: Expr): (r: (Expr, Expr, nat))
    ensures Size(r.0) <= Size(a) && Size(r.1) <= Size(b)
    decreases Size(a) + Size(b), 3
  {
    var (a1, b1, c1) := if a.Bin? then MatchTrees(a.op, true, a, b) else (a, b, []);
    var (a2, b2, c2) :=
      if b1.Bin? && !IsOp(b1.op, a1) then MatchTrees(b1.op, true, a1, b1) else (a1, b1, []);
    (EliminateYn(a2), EliminateYn(b2), |c1| + |c2|)
  }

  lemma {:induction false} RefillShrinks(op: Op, e: Expr, ls: seq<Expr>)
    requires |ls| == |Leaves(op, e)|
    requires forall k :: 0 <= k < |ls| ==> Size(ls[k]) <= Size(Leaves(op, e)[k])
    ensures Size(Refill(op, e, ls)) <= Size(e)
  {
    if IsOp(op, e) {
      var n := |Leaves(op, e.l)|;
      RefillShrinks(op, e.l, ls[..n]);
      assert forall k :: 0 <= k < |Leaves(op, e.r)| ==> Leaves(op, e)[n + k] == Leaves(op, e.r)[k];
      RefillShrinks(op, e.r, ls[n..]);
    }
  }

  /** expr_extract_eq_and and expr_extract_eq_or: the common part, and what is left of each side. */
  function ExtractEq(op: Op, a: Expr, b: Expr): (r: (Option<Expr>, Expr, Expr))
    requires IsOp(op, a) || IsOp(op, b)
  {
    var (a', b', matched) := MatchTrees(op, false, a, b);
    if matched == [] then (None, a', b')
    else (Some(Joined(op, matched)), EliminateYn(a'), EliminateYn(b'))
  }

  /** The left nest that expr_extract_eq builds in *ep. */
  function Joined(op: Op, xs: seq<Expr>): Expr
    requires xs != []
  {
    if |xs| == 1 then xs[0] else Bin(op, Joined(op, xs[..|xs| - 1]), xs[|xs| - 1])
  }

  /**
   The invariant of a matching pass: each side is still worth what it was,
   once the matched part is combined with what is left.
   */
  ghost predicate Balanced(op: Op, a: seq<Expr>, b: seq<Expr>, m: Match, v: Valuation) {
    && Combine(op, a, v) == Apply(op, Combine(op, m.matched, v), Combine(op, m.ls1, v))
    && Combine(op, b, v) == Apply(op, Combine(op, m.matched, v), Combine(op, m.ls2, v))
  }

  lemma TakeOut(op: Op, ls: seq<Expr>, i: nat, x: Expr, matched: seq<Expr>, v: Valuation)
    requires Respects(v) && i < |ls| && Eval(x, v) == Eval(ls[i], v)
    ensures Apply(op, Combine(op, matched + [x], v), Combine(op, ls[i := Sym(NeutralSym(op))], v))
         == Apply(op, Combine(op, matched, v), Combine(op, ls, v))
  {
    var one := Sym(NeutralSym(op));
    var ls' := ls[i := one];
    assert RightValue(SymY, v(SymY)) && RightValue(SymN, v(SymN));
    assert Eval(one, v) == NeutralT(op);
    CombineConcat(op, matched, [x], v);
    assert [x][0] == x;
    assert Combine(op, [x], v) == Eval(x, v);
    assert Combine(op, ls, v) == Apply(op, Eval(x, v), Combine(op, ls', v)) by {
      CombineIs(op, ls, v);
      CombineIs(op, ls', v);
      assert ls'[i] == one;
      assert forall k :: 0 <= k < |ls| && k != i ==> ls'[k] == ls[k];
    }
  }

  lemma {:induction false} MatchRowBalanced(op: Op, keepConst: bool, a: seq<Expr>, b: seq<Expr>, m: Match,
                                            i: nat, j: nat, bound: nat, v: Valuation)
    requires Respects(v)
    requires i < |m.ls1| && j <= |m.ls2|
    requires Bounded(m, bound)
    requires Balanced(op, a, b, m, v)
    ensures Balanced(op, a, b, MatchRow(op, keepConst, m, i, j, bound), v)
    decreases bound, 0, |m.ls2| - j
  {
    if j == |m.ls2| {
    } else if !(keepConst && Guarded(m.ls1[i], m.ls2[j])) && ExprEq(m.ls1[i], m.ls2[j]) {
      ExprEqSound(m.ls1[i], m.ls2[j], v);
      var one := Sym(NeutralSym(op));
      TakeOut(op, m.ls1, i, m.ls1[i], m.matched, v);
      TakeOut(op, m.ls2, j, m.ls1[i], m.matched, v);
      MatchRowBalanced(op, keepConst, a, b, Match(m.ls1[i := one], m.ls2[j := one], m.matched + [m.ls1[i]]),
                       i, j + 1, bound, v);
    } else {
      MatchRowBalanced(op, keepConst, a, b, m, i, j + 1, bound, v);
    }
  }

  lemma {:induction false} MatchRowsBalanced(op: Op, keepConst: bool, a: seq<Expr>, b: seq<Expr>, m: Match,
                                             i: nat, bound: nat, v: Valuation)
    requires Respects(v)
    requires i <= |m.ls1|
    requires Bounded(m, bound)
    requires Balanced(op, a, b, m, v)
    ensures Balanced(op, a, b, MatchRows(op, keepConst, m, i, bound), v)
    decreases bound, 1, |m.ls1| - i
  {
    if i < |m.ls1| {
      MatchRowBalanced(op, keepConst, a, b, m, i, 0, bound, v);
      MatchRowsBalanced(op, keepConst, a, b, MatchRow(op, keepConst, m, i, 0, bound), i + 1, bound, v);
    }
  }

  /** Both trees are worth the matched part combined with their residue. */
  lemma {:induction false} MatchTreesBalanced(op: Op, keepConst: bool, a: Expr, b: Expr, v: Valuation)
    requires Respects(v)
    requires IsOp(op, a) || IsOp(op, b)
    ensures var m := MatchTrees(op, keepConst, a, b);
            && Eval(a, v) == Apply(op, Combine(op, m.2, v), Eval(m.0, v))
            && Eval(b, v) == Apply(op, Combine(op, m.2, v), Eval(m.1, v))
    decreases Size(a) + Size(b), 2
  {
    MatchLevelsBalanced(op, keepConst, a, b, v);
    var m := MatchLevels(op, keepConst, a, b);
    SideBalanced(op, a, m.ls1, m.matched, v);
    SideBalanced(op, b, m.ls2, m.matched, v);
  }

  lemma {:induction false} MatchLevelsBalanced(op: Op, keepConst: bool, a: Expr, b: Expr, v: Valuation)
    requires Respects(v)
    requires IsOp(op, a) || IsOp(op, b)
    ensures Balanced(op, Leaves(op, a), Leaves(op, b), MatchLevels(op, keepConst, a, b), v)
    decreases Size(a) + Size(b), 2, 0
  {
    var la, lb, n := Leaves(op, a), Leaves(op, b), Size(a) + Size(b);
    NothingMatched(op, la, lb, v);
    LevelsBounded(op, a, b);
    MatchRowsBalanced(op, keepConst, la, lb, Match(la, lb, []), 0, n, v);
  }

  lemma LevelsBounded(op: Op, a: Expr, b: Expr)
    requires IsOp(op, a) || IsOp(op, b)
    ensures Bounded(Match(Leaves(op, a), Leaves(op, b), []), Size(a) + Size(b))
  {
  }

  lemma SideBalanced(op: Op, e: Expr, ls: seq<Expr>, matched: seq<Expr>, v: Valuation)
    requires |ls| == |Leaves(op, e)|
    requires Combine(op, Leaves(op, e), v) == Apply(op, Combine(op, matched, v), Combine(op, ls, v))
    ensures Eval(e, v) == Apply(op, Combine(op, matched, v), Eval(Refill(op, e, ls), v))
  {
    EvalLeaves(op, e, v);
    EvalRefill(op, e, ls, v);
  }

  lemma NothingMatched(op: Op, a: seq<Expr>, b: seq<Expr>, v: Valuation)
    ensures Balanced(op, a, b, Match(a, b, []), v)
  {
    assert Combine(op, [], v) == NeutralT(op);
  }

  /** expr_eq answers yes only for expressions of equal value, under every valuation. */
  lemma {:induction false} ExprEqSound(a: Expr, b: Expr, v: Valuation)
    requires Respects(v)
    requires ExprEq(a, b)
    ensures Eval(a, v) == Eval(b, v)
    decreases Size(a) + Size(b), 4
  {
    match a
    case Not(x) => ExprEqSound(x, b.e, v);
    case Bin(op, _, _) =>
      MatchTreesBalanced(op, true, a, b, v);
      var (a1, b1, _) := MatchTrees(op, true, a, b);
      MatchTreesKeepsOp(op, a, b);
      EliminateYnKeepsValue(a1, v);
      EliminateYnKeepsValue(b1, v);
    case _ =>
  }

  lemma MatchTreesKeepsOp(op: Op, a: Expr, b: Expr)
    requires IsOp(op, a) && IsOp(op, b)
    ensures var (a1, b1, _) := MatchTrees(op, true, a, b);
            IsOp(op, a1) && IsOp(op, b1)
  {
  }

  /** One pass over the operator op cannot lose the order of the two sides. */
  lemma {:induction false} PassBounds(op: Op, a: Expr, b: Expr, v: Valuation)
    requires Respects(v) && (IsOp(op, a) || IsOp(op, b))
    ensures var m := MatchTrees(op, true, a, b);
            AtMost(Eval(m.0, v), Eval(m.1, v)) ==> AtMost(Eval(a, v), Eval(b, v))
  {
    MatchTreesBalanced(op, true, a, b, v);
  }

  /**
   When expr_eliminate_eq uses up all of b (its residue is the constant y), a is at most b under every
   valuation, also when its first pass runs over one operator and its second over the other.
   */
  lemma {:induction false} UsedUpBounds(a: Expr, b: Expr, v: Valuation)
    requires Respects(v)
    requires EliminateEq(a, b).1 == Sym(SymY)
    ensures AtMost(Eval(a, v), Eval(b, v))
  {
    assert RightValue(SymY, v(SymY));
    var (a1, b1, _) := if a.Bin? then MatchTrees(a.op, true, a, b) else (a, b, []);
    var (a2, b2, _) := if b1.Bin? && !IsOp(b1.op, a1) then MatchTrees(b1.op, true, a1, b1) else (a1, b1, []);
    EliminateYnKeepsValue(b2, v);
    assert AtMost(Eval(a2, v), Eval(b2, v));
    if b1.Bin? && !IsOp(b1.op, a1) { PassBounds(b1.op, a1, b1, v); }
    if a.Bin? { PassBounds(a.op, a, b, v); }
  }

  lemma {:induction false} JoinedValue(op: Op, xs: seq<Expr>, v: Valuation)
    requires xs != []
    ensures Eval(Joined(op, xs), v) == Combine(op, xs, v)
  {
    var n := |xs| - 1;
    CombineConcat(op, xs[..n], [xs[n]], v);
    assert xs[..n] + [xs[n]] == xs;
    assert Combine(op, [xs[n]], v) == Eval(xs[n], v) by { assert [xs[n]][0] == xs[n] && [xs[n]][1..] == []; }
    if n > 0 { JoinedValue(op, xs[..n], v); }
  }

  /** expr_extract_eq: each side is worth the common part together with what is left of it. */
  lemma ExtractMeans(op: Op, a: Expr, b: Expr, v: Valuation)
    requires Respects(v) && (IsOp(op, a) || IsOp(op, b))
    ensures var (common, a', b') := ExtractEq(op, a, b);
            var c := if common.Some? then Eval(common.value, v) else NeutralT(op);
            Eval(a, v) == Apply(op, c, Eval(a', v)) && Eval(b, v) == Apply(op, c, Eval(b', v))
  {
    var (a', b', matched) := MatchTrees(op, false, a, b);
    MatchTreesBalanced(op, false, a, b, v);
    if matched != [] {
      JoinedValue(op, matched, v);
      EliminateYnKeepsValue(a', v);
      EliminateYnKeepsValue(b', v);
    }
  }
}
