/**
 How far expr_eliminate_dups keeps the value (scripts/config/expr.c:560-638): exactly where no leaf is m, and
 a level that is m for the excluded middle to decide wrongly. The example is followed through all pairs of operands
 the two passes compare, up to the fixed point: the pairs that join nothing are Quiet, and the one that fires does
 so once.
 */
module DuplicateLimits {
  import opened Options
  import opened Expressions
  import opened Levels
  import opened Equality
  import opened Normalise
  import opened Duplicates

  /** No symbol in value position is m. */
  predicate NoModLeaf(e: Expr, v: Valuation) {
    match e
    case Sym(s) => v(s).tri != Mod
    case Cmp(_, _, _) => true
    case Not(x) => NoModLeaf(x, v)
    case Bin(_, l, r) => NoModLeaf(l, v) && NoModLeaf(r, v)
  }

  lemma {:induction false} NoModLeafDecided(e: Expr, v: Valuation)
    requires NoModLeaf(e, v)
    ensures Eval(e, v) != Mod
  {
    match e
    case Sym(_) =>
    case Cmp(_, _, _) =>
    case Not(x) => NoModLeafDecided(x, v);
    case Bin(_, l, r) =>
      NoModLeafDecided(l, v);
      NoModLeafDecided(r, v);
  }

  /** Without m leaves expr_eliminate_dups keeps the value. */
  lemma {:induction false} EliminateDupsExact(e: Expr, v: Valuation)
    requires Respects(v) && NoModLeaf(e, v)
    ensures Eval(EliminateDups(e), v) == Eval(e, v)
  {
    EliminateDupsCorrect(e, v);
    NoModLeafDecided(e, v);
  }

  // ----- where nothing happens -----

  predicate NoJoins(op: Op, ls: seq<Expr>) {
    forall i, j :: 0 <= i < |ls| && 0 <= j < |ls| && i != j ==> Join(op, ls[i], ls[j]).None?
  }

  predicate Quiet1(x: Expr) {
    x.Bin? ==> Dups1(x) == (x, 0)
  }

  lemma {:induction false} RowQuiet(op: Op, ls: seq<Expr>, i: nat, j: nat, bound: nat)
    requires Slots(op, ls, bound) && i < |ls| && j <= |ls| && NoJoins(op, ls) && Quiet1(ls[i])
    ensures Dups1Row(op, ls, i, j, bound) == Pass(ls, 0)
    decreases |ls| - j
  {
    if j < |ls| {
      assert ls[i := ls[i]] == ls;
      RowQuiet(op, ls, i, j + 1, bound);
    }
  }

  lemma {:induction false} RowsQuiet(op: Op, ls: seq<Expr>, i: nat, bound: nat)
    requires Slots(op, ls, bound) && i <= |ls| && NoJoins(op, ls) && forall k :: 0 <= k < |ls| ==> Quiet1(ls[k])
    ensures Dups1Rows(op, ls, i, bound) == Pass(ls, 0)
    decreases |ls| - i
  {
    if i < |ls| {
      RowQuiet(op, ls, i, 0, bound);
      RowsQuiet(op, ls, i + 1, bound);
    }
  }

  /** A level without joins is passed unchanged. */
  lemma NoJoinsQuiet(e: Expr)
    requires e.Bin? && NoJoins(e.op, Leaves(e.op, e))
    requires forall k :: 0 <= k < |Leaves(e.op, e)| ==> Quiet1(Leaves(e.op, e)[k])
    ensures Dups1(e) == (e, 0)
  {
    LevelSlots(e);
    RowsQuiet(e.op, Leaves(e.op, e), 0, Size(e));
    RefillLeaves(e.op, e);
  }

  lemma {:induction false} Row2Flat(op: Op, spans: seq<Span>, ls: seq<Expr>, i: nat, k: nat, bound: nat)
    requires Slots(op, ls, bound) && i < |ls| && Inside(op, spans, |ls|) && k <= |spans| && !ls[i].Bin?
    ensures Dups2Row(op, spans, ls, i, k, bound) == Pass(ls, 0)
    decreases |spans| - k
  {
    if k < |spans| {
      Row2Flat(op, spans, ls, i, k + 1, bound);
      assert Dups2Step(op, spans[k], ls, i, bound) == Pass(ls, 0);
    }
  }

  lemma {:induction false} Rows2Flat(op: Op, spans: seq<Span>, ls: seq<Expr>, i: nat, bound: nat)
    requires Slots(op, ls, bound) && i <= |ls| && Inside(op, spans, |ls|) && forall k :: i <= k < |ls| ==> !ls[k].Bin?
    ensures Dups2Rows(op, spans, ls, i, bound) == Pass(ls, 0)
    decreases |ls| - i
  {
    if i < |ls| {
      Row2Flat(op, spans, ls, i, 0, bound);
      Rows2Flat(op, spans, ls, i + 1, bound);
    }
  }

  /** One level of single operands without joins: expr_eliminate_dups leaves it alone. */
  lemma FlatQuiet(e: Expr)
    requires e.Bin? && NoJoins(e.op, Leaves(e.op, e))
    requires forall k :: 0 <= k < |Leaves(e.op, e)| ==> !Leaves(e.op, e)[k].Bin?
    ensures Dups1(e) == (e, 0) && Dups2(e) == (e, 0) && EliminateDups(e) == e
  {
    NoJoinsQuiet(e);
    LevelSlots(e);
    Rows2Flat(e.op, Spans(e.op, e, 0), Leaves(e.op, e), 0, Size(e));
    RefillLeaves(e.op, e);
  }

  // ----- one firing -----

  /** If the excluded middle applies to a slot against some span, the slot is replaced. */
  lemma {:induction false} RowFiresOnce(op: Op, spans: seq<Span>, ls: seq<Expr>, i: nat, k: nat, bound: nat, f: nat)
    requires Slots(op, ls, bound) && i < |ls| && Inside(op, spans, |ls|) && k <= f < |spans|
    requires ls[i].Bin? && Dups2(ls[i]) == (ls[i], 0) && !Itself(op, spans[f], i)
    requires Residue(op, ls[i], Part(op, spans[f].shape, spans[f].lo, ls)) == Sym(NeutralSym(op))
    ensures var p := Dups2Row(op, spans, ls, i, k, bound); p.ls == ls[i := Sym(AbsorbingSym(op))] && p.count > 0
    decreases |spans| - k
  {
    var p := Dups2Step(op, spans[k], ls, i, bound);
    StepFires(op, spans[k], ls, i, bound);
    if p == Pass(ls, 0) {
      RowFiresOnce(op, spans, ls, i, k + 1, bound, f);
    } else {
      Row2Flat(op, spans, p.ls, i, k + 1, bound);
    }
  }

  lemma StepFires(op: Op, s: Span, ls: seq<Expr>, i: nat, bound: nat)
    requires Slots(op, ls, bound) && i < |ls| && s.lo + |Leaves(op, s.shape)| <= |ls|
    requires ls[i].Bin? && Dups2(ls[i]) == (ls[i], 0)
    ensures Dups2Step(op, s, ls, i, bound)
         == if !Itself(op, s, i) && Residue(op, ls[i], Part(op, s.shape, s.lo, ls)) == Sym(NeutralSym(op))
            then Pass(ls[i := Sym(AbsorbingSym(op))], 1) else Pass(ls, 0)
  {
    assert ls[i := ls[i]] == ls;
  }

  // ----- (FOO || BAR) && (!FOO && !BAR) -----

  lemma RowFires(op: Op, m: Match, i: nat, j: nat, bound: nat, m': Match)
    requires i < |m.ls1| && j < |m.ls2| && Bounded(m, bound) && Bounded(m', bound)
    requires ExprEq(m.ls1[i], m.ls2[j])
    requires var y := Sym(NeutralSym(op)); m' == Match(m.ls1[i := y], m.ls2[j := y], m.matched + [m.ls1[i]])
    ensures MatchRow(op, false, m, i, j, bound) == MatchRow(op, false, m', i, j + 1, bound)
  {}

  lemma MatchBoth(op: Op, a: Expr, b: Expr, y: Expr, n: nat)
    requires y == Sym(NeutralSym(op)) && ExprEq(a, a) && ExprEq(b, b) && !ExprEq(y, b) && !ExprEq(b, y)
    requires Bounded(Match([a, b], [a, b], []), n) && Bounded(Match([y, b], [y, b], [a]), n)
    requires Bounded(Match([y, y], [y, y], [a, b]), n)
    ensures MatchRows(op, false, Match([a, b], [a, b], []), 0, n) == Match([y, y], [y, y], [a, b])
  {
    var m0 := Match([a, b], [a, b], []);
    var m1 := Match([y, b], [y, b], [a]);
    var m2 := Match([y, y], [y, y], [a, b]);
    RowFires(op, m0, 0, 0, n, m1);
    RowFires(op, m1, 1, 1, n, m2);
    assert MatchRow(op, false, m0, 0, 0, n) == m1 && MatchRow(op, false, m1, 1, 0, n) == m2;
    assert MatchRows(op, false, m2, 2, n) == m2;
    assert MatchRows(op, false, m1, 1, n) == m2;
  }

  lemma TransformOr(a: Symbol, b: Symbol)
    requires a.Var? && b.Var?
    ensures Transform(Not(Bin(OrOp, Sym(a), Sym(b)))) == Bin(AndOp, Not(Sym(a)), Not(Sym(b)))
  {
    var d := Bin(AndOp, Not(Sym(a)), Not(Sym(b)));
    assert Transform(Bin(OrOp, Sym(a), Sym(b))) == Bin(OrOp, Sym(a), Sym(b));
    assert Transform(Not(Sym(a))) == Not(Sym(a)) && Transform(Not(Sym(b))) == Not(Sym(b));
    assert Transform(d) == d;
  }

  lemma PairLevel(op: Op, p: Expr, q: Expr)
    requires !IsOp(op, p) && !IsOp(op, q)
    ensures Leaves(op, p) == [p] && Leaves(op, q) == [q] && Leaves(op, Bin(op, p, q)) == [p, q]
  {
  }

  lemma PairRefill(op: Op, p: Expr, q: Expr, x: Expr, y: Expr)
    requires !IsOp(op, p) && !IsOp(op, q)
    ensures |Leaves(op, Bin(op, p, q))| == 2 && Refill(op, Bin(op, p, q), [x, y]) == Bin(op, x, y)
  {
    PairLevel(op, p, q);
    assert [x, y][..1] == [x] && [x, y][1..] == [y];
  }

  lemma LevelsMatch(p: Expr, q: Expr, y: Expr)
    requires !p.Bin? && !q.Bin? && y == Sym(SymY)
    requires ExprEq(p, p) && ExprEq(q, q) && !ExprEq(y, q) && !ExprEq(q, y)
    ensures var d := Bin(AndOp, p, q); MatchLevels(AndOp, false, d, d) == Match([y, y], [y, y], [p, q])
  {
    var d := Bin(AndOp, p, q);
    PairLevel(AndOp, p, q);
    var n := Size(d) + Size(d);
    PairBounded(p, q, y, n);
    MatchBoth(AndOp, p, q, y, n);
    assert MatchLevels(AndOp, false, d, d) == MatchRows(AndOp, false, Match([p, q], [p, q], []), 0, n);
  }

  lemma PairBounded(p: Expr, q: Expr, y: Expr, n: nat)
    requires Size(y) == 1 && n > 2 * Size(p) + 2 * Size(q)
    ensures Bounded(Match([p, q], [p, q], []), n) && Bounded(Match([y, q], [y, q], [p]), n)
    ensures Bounded(Match([y, y], [y, y], [p, q]), n)
  {
    TwoBounded(p, q, [], n);
    TwoBounded(y, q, [p], n);
    TwoBounded(y, y, [p, q], n);
  }

  lemma TwoBounded(a: Expr, b: Expr, matched: seq<Expr>, n: nat)
    requires 2 * Size(a) < n && Size(a) + Size(b) < n && 2 * Size(b) < n
    ensures Bounded(Match([a, b], [a, b], matched), n)
  {
    var ls := [a, b];
    forall i, j | 0 <= i < 2 && 0 <= j < 2 ensures Size(ls[i]) + Size(ls[j]) < n {
      assert (ls[i] == a || ls[i] == b) && (ls[j] == a || ls[j] == b);
    }
  }

  /** Two equal levels of two operands match completely. */
  lemma TreesMatch(p: Expr, q: Expr, y: Expr)
    requires !p.Bin? && !q.Bin? && y == Sym(SymY)
    requires ExprEq(p, p) && ExprEq(q, q) && !ExprEq(y, q) && !ExprEq(q, y)
    ensures var d := Bin(AndOp, p, q); MatchTrees(AndOp, false, d, d) == (Bin(AndOp, y, y), Bin(AndOp, y, y), [p, q])
  {
    LevelsMatch(p, q, y);
    PairRefill(AndOp, p, q, y, y);
  }

  lemma ExtractBoth(a: Symbol, b: Symbol)
    requires a.Var? && b.Var?
    ensures var d := Bin(AndOp, Not(Sym(a)), Not(Sym(b))); ExtractEq(AndOp, d, d).1 == Sym(SymY)
  {
    TreesMatch(Not(Sym(a)), Not(Sym(b)), Sym(SymY));
  }

  /**
   The rewriting (FOO || BAR) && (!FOO && !BAR) -> n applies, and changes the value when both symbols are m.
   */
  lemma FiringDecidesM(a: Symbol, b: Symbol, v: Valuation)
    requires Respects(v) && a.Var? && b.Var? && v(a).tri == Mod && v(b).tri == Mod
    ensures var x, d := Bin(OrOp, Sym(a), Sym(b)), Bin(AndOp, Not(Sym(a)), Not(Sym(b)));
            && Residue(AndOp, x, d) == Sym(SymY)
            && Eval(Bin(AndOp, x, d), v) == Mod && Eval(Bin(AndOp, Sym(SymN), d), v) == No
  {
    ExcludedResidue(a, b);
    assert RightValue(SymN, v(SymN));
    var p, q := Not(Sym(a)), Not(Sym(b));
    assert Eval(Sym(a), v) == Mod && Eval(Sym(b), v) == Mod;
    assert Eval(p, v) == Mod && Eval(q, v) == Mod && Eval(Bin(AndOp, p, q), v) == Mod;
    assert Eval(Bin(OrOp, Sym(a), Sym(b)), v) == Mod;
  }

  /** (FOO || BAR) && (!FOO && !BAR) */
  function Excluded(a: Symbol, b: Symbol): Expr {
    Bin(AndOp, Bin(OrOp, Sym(a), Sym(b)), Bin(AndOp, Not(Sym(a)), Not(Sym(b))))
  }

  lemma ExcludedLeaves(a: Symbol, b: Symbol)
    requires a.Var? && b.Var?
    ensures Leaves(AndOp, Excluded(a, b)) == [Bin(OrOp, Sym(a), Sym(b)), Not(Sym(a)), Not(Sym(b))]
  {
    var e := Excluded(a, b);
    PairLevel(AndOp, e.r.l, e.r.r);
    assert Leaves(AndOp, e.l) == [e.l];
  }

  lemma ExcludedJoins(a: Symbol, b: Symbol)
    requires a.Var? && b.Var? && a != b
    ensures NoJoins(AndOp, [Bin(OrOp, Sym(a), Sym(b)), Not(Sym(a)), Not(Sym(b))])
  {
    var x, p, q := Bin(OrOp, Sym(a), Sym(b)), Not(Sym(a)), Not(Sym(b));
    assert Join(AndOp, x, p).None? && Join(AndOp, p, x).None?;
    assert Join(AndOp, x, q).None? && Join(AndOp, q, x).None?;
    assert !ExprEq(Sym(a), Sym(b)) && !ExprEq(Sym(b), Sym(a));
    assert !ExprEq(p, q) && !ExprEq(q, p);
    assert Subject1(p) == Some(a) == Subject2(p) && Subject1(q) == Some(b) == Subject2(q);
    assert Join(AndOp, p, q).None? && Join(AndOp, q, p).None?;
  }

  lemma EitherQuiet(a: Symbol, b: Symbol)
    requires a.Var? && b.Var? && a != b
    ensures var x := Bin(OrOp, Sym(a), Sym(b)); Dups1(x) == (x, 0) && Dups2(x) == (x, 0)
  {
    PairLevel(OrOp, Sym(a), Sym(b));
    FlatQuiet(Bin(OrOp, Sym(a), Sym(b)));
  }

  lemma ExcludedSpans(a: Symbol, b: Symbol)
    requires a.Var? && b.Var?
    ensures var e := Excluded(a, b); |Spans(AndOp, e, 0)| == 5 && Spans(AndOp, e, 0)[3] == Span(e.r, 1)
  {
    var e := Excluded(a, b);
    assert Leaves(AndOp, e.l) == [e.l] && Leaves(AndOp, e.r.l) == [e.r.l];
    assert Spans(AndOp, e.l, 0) == [Span(e.l, 0)];
    assert Spans(AndOp, e.r.l, 1) == [Span(e.r.l, 1)] && Spans(AndOp, e.r.r, 2) == [Span(e.r.r, 2)];
    assert Spans(AndOp, e.r, 1) == [Span(e.r.l, 1), Span(e.r.r, 2), Span(e.r, 1)];
  }

  lemma ExcludedPart(a: Symbol, b: Symbol)
    requires a.Var? && b.Var?
    ensures var e := Excluded(a, b);
            |Leaves(AndOp, e)| == 3 && |Leaves(AndOp, e.r)| == 2 && Part(AndOp, e.r, 1, Leaves(AndOp, e)) == e.r
  {
    var e := Excluded(a, b);
    ExcludedLeaves(a, b);
    PairLevel(AndOp, e.r.l, e.r.r);
    PairRefill(AndOp, e.r.l, e.r.r, e.r.l, e.r.r);
    assert Leaves(AndOp, e)[1..3] == [e.r.l, e.r.r];
  }

  lemma ExcludedRefill(a: Symbol, b: Symbol)
    requires a.Var? && b.Var?
    ensures var e := Excluded(a, b);
            |Leaves(AndOp, e)| == 3 && Refill(AndOp, e, [Sym(SymN), e.r.l, e.r.r]) == Bin(AndOp, Sym(SymN), e.r)
  {
    var e := Excluded(a, b);
    ExcludedLeaves(a, b);
    var ls := [Sym(SymN), e.r.l, e.r.r];
    assert ls[..1] == [Sym(SymN)] && ls[1..] == [e.r.l, e.r.r];
    PairRefill(AndOp, e.r.l, e.r.r, e.r.l, e.r.r);
    assert Leaves(AndOp, e.l) == [e.l];
  }

  lemma ExcludedRows(a: Symbol, b: Symbol)
    requires a.Var? && b.Var? && a != b
    ensures var e := Excluded(a, b);
            var (ls, spans) := (Leaves(AndOp, e), Spans(AndOp, e, 0));
            && Slots(AndOp, ls, Size(e)) && Inside(AndOp, spans, |ls|)
            && var p := Dups2Rows(AndOp, spans, ls, 0, Size(e));
               p.ls == [Sym(SymN), e.r.l, e.r.r] && p.count > 0
  {
    var e := Excluded(a, b);
    var ls, spans := Leaves(AndOp, e), Spans(AndOp, e, 0);
    LevelSlots(e);
    ExcludedLeaves(a, b);
    EitherQuiet(a, b);
    ExcludedSpans(a, b);
    ExcludedPart(a, b);
    ExcludedResidue(a, b);
    RowFiresOnce(AndOp, spans, ls, 0, 0, Size(e), 3);
    var ls' := ls[0 := Sym(SymN)];
    assert ls' == [Sym(SymN), e.r.l, e.r.r];
    Rows2Flat(AndOp, spans, ls', 1, Size(e));
  }

  lemma ExcludedResidue(a: Symbol, b: Symbol)
    requires a.Var? && b.Var?
    ensures Residue(AndOp, Excluded(a, b).l, Excluded(a, b).r) == Sym(SymY)
  {
    TransformOr(a, b);
    ExtractBoth(a, b);
  }

  /** The second pass turns the disjunction into n. */
  lemma ExcludedFires(a: Symbol, b: Symbol)
    requires a.Var? && b.Var? && a != b
    ensures var e := Excluded(a, b); Dups2(e).0 == Bin(AndOp, Sym(SymN), e.r) && Dups2(e).1 > 0
  {
    ExcludedRows(a, b);
    ExcludedRefill(a, b);
  }

  /** On the whole expression expr_eliminate_dups returns n, also where both symbols and the expression are m. */
  lemma EliminateDupsDecidesM(a: Symbol, b: Symbol, v: Valuation)
    requires Respects(v) && a.Var? && b.Var? && a != b && v(a).tri == Mod && v(b).tri == Mod
    ensures Eval(Excluded(a, b), v) == Mod
    ensures EliminateDups(Excluded(a, b)) == Sym(SymN) && Eval(EliminateDups(Excluded(a, b)), v) == No
  {
    var e := Excluded(a, b);
    FiringDecidesM(a, b, v);
    ExcludedLeaves(a, b);
    ExcludedJoins(a, b);
    EitherQuiet(a, b);
    NoJoinsQuiet(e);
    ExcludedFires(a, b);
    assert EliminateYn(Round(e).0) == Sym(SymN);
    assert Round(Sym(SymN)) == (Sym(SymN), 0);
    assert RightValue(SymN, v(SymN));
  }
}
