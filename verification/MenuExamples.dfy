/**
 An entry that menu_finalize absorbs (scripts/config/menu.c:257-281) although it is visible where neither the
 symbol nor the prompt it is put under is: the comparison with n of its condition is wrong there.
 */
module MenuExamples {
  import opened Options
  import opened Expressions
  import opened Levels
  import opened Equality
  import opened Normalise
  import opened Duplicates
  import opened DuplicateLimits
  import opened MenuTree
  import opened MenuMeaning

  predicate Tristates(foo: Symbol, a: Symbol) {
    foo.Var? && a.Var? && foo != a && TypeOf(foo) == STristate && TypeOf(a) == STristate
  }

  /** `A=n` */
  function BaseCond(a: Symbol): Expr {
    Cmp(true, a, SymN)
  }

  /** `!A && FOO!=m` */
  function SiblingCond(foo: Symbol, a: Symbol): Expr {
    Bin(AndOp, Not(Sym(a)), Cmp(false, foo, SymM))
  }

  /** config FOO, its prompt if A=n */
  function BaseEntry(foo: Symbol, a: Symbol): Entry {
    Entry(Some(foo), false, None, Some(Prompt(Some(BaseCond(a)), true)), [])
  }

  function SiblingEntry(foo: Symbol, a: Symbol): Entry {
    Entry(None, false, None, Some(Prompt(Some(SiblingCond(foo, a)), true)), [])
  }

  lemma BaseNotNo(a: Symbol)
    requires TypeOf(a) == STristate
    ensures NotNo(Some(BaseCond(a))) == BaseCond(a)
  {
    var b := BaseCond(a);
    assert TransCompareOpt(Some(b), false, SymN) == b && Transform(b) == b && Round(b) == (b, 0);
  }

  lemma SiblingTransformed(foo: Symbol, a: Symbol)
    requires Tristates(foo, a)
    ensures Transform(TransCompareOpt(Some(SiblingCond(foo, a)), false, SymN))
         == Bin(AndOp, BaseCond(a), Cmp(false, foo, SymM))
  {
    var p, q := Cmp(false, a, SymN), Cmp(false, foo, SymM);
    var x := Bin(OrOp, p, Not(q));
    assert TransCompare(Not(Sym(a)), true, SymN) == TransCompare(Sym(a), false, SymN) == p;
    assert TransCompare(q, true, SymN) == Not(q);
    assert TransCompare(SiblingCond(foo, a), false, SymN) == Not(x);
    assert Transform(p) == p && Transform(q) == q && Transform(Not(q)) == Cmp(true, foo, SymM);
    assert Transform(x) == Bin(OrOp, p, Cmp(true, foo, SymM));
    var y := Cmp(true, foo, SymM);
    assert Transform(y) == y;
    assert Transform(Not(p)) == BaseCond(a) && Transform(Not(y)) == q;
    assert Transform(Not(x)) == Transform(DeMorgan(OrOp, p, y));
  }

  lemma SiblingNotNo(foo: Symbol, a: Symbol)
    requires Tristates(foo, a)
    ensures NotNo(Some(SiblingCond(foo, a))) == Bin(AndOp, BaseCond(a), Cmp(false, foo, SymM))
  {
    var b, q := BaseCond(a), Cmp(false, foo, SymM);
    SiblingTransformed(foo, a);
    PairLevel(AndOp, b, q);
    assert Join(AndOp, b, q).None? && Join(AndOp, q, b).None?;
    FlatQuiet(Bin(AndOp, b, q));
  }

  lemma FirstMatches(b: Expr, q: Expr, n: nat)
    requires b.Cmp? && q.Cmp?
    requires Bounded(Match([b, q], [b], []), n) && Bounded(Match([Sym(SymY), q], [Sym(SymY)], [b]), n)
    ensures MatchRows(AndOp, true, Match([b, q], [b], []), 0, n) == Match([Sym(SymY), q], [Sym(SymY)], [b])
  {
    var y := Sym(SymY);
    var m0, m1 := Match([b, q], [b], []), Match([y, q], [y], [b]);
    assert [b, q][0 := y] == [y, q] && [b][0 := y] == [y] && [] + [b] == [b];
    assert MatchRow(AndOp, true, m1, 0, 1, n) == m1 && MatchRow(AndOp, true, m1, 1, 1, n) == m1;
    assert MatchRow(AndOp, true, m0, 0, 0, n) == m1 by { assert ExprEq(b, b); }
    assert MatchRow(AndOp, true, m1, 1, 0, n) == m1 by { assert !ExprEq(q, y); }
    assert MatchRows(AndOp, true, m1, 2, n) == m1;
    assert MatchRows(AndOp, true, m1, 1, n) == m1;
  }

  lemma TreesUsedUp(b: Expr, q: Expr)
    requires b.Cmp? && q.Cmp?
    ensures MatchTrees(AndOp, true, Bin(AndOp, b, q), b).1 == Sym(SymY)
  {
    var e := Bin(AndOp, b, q);
    PairLevel(AndOp, b, q);
    FirstMatches(b, q, Size(e) + Size(b));
    assert MatchLevels(AndOp, true, e, b).ls2 == [Sym(SymY)];
  }

  /** The base condition is used up by the first operand. */
  lemma UsedUp(b: Expr, q: Expr)
    requires b.Cmp? && q.Cmp?
    ensures EliminateEq(Bin(AndOp, b, q), b).1 == Sym(SymY)
  {
    TreesUsedUp(b, q);
  }

  lemma CondsFinished(foo: Symbol, a: Symbol)
    requires Tristates(foo, a)
    ensures Finished(Some(BaseCond(a))) && Finished(Some(SiblingCond(foo, a)))
  {
    assert Normal(Not(Sym(a))) && ValueSymbols(Not(Sym(a))) by { assert ValueSymbols(Sym(a)); }
  }

  lemma CondValues(foo: Symbol, a: Symbol, v: Valuation)
    requires Respects(v) && Tristates(foo, a) && v(a).tri == Mod && v(foo).tri == No
    ensures Eval(SiblingCond(foo, a), v) == Mod && Eval(BaseCond(a), v) == No
  {
    assert RightValue(a, v(a)) && RightValue(foo, v(foo)) && RightValue(SymN, v(SymN)) && RightValue(SymM, v(SymM));
    TriStrInjective(Mod, No);
    assert Eval(Not(Sym(a)), v) == Mod by { assert Eval(Sym(a), v) == Mod; }
    assert Eval(Cmp(false, foo, SymM), v) == Yes;
  }

  lemma AbsorbedByResidue(foo: Symbol, a: Symbol)
    requires Tristates(foo, a)
    ensures Absorbs(BaseEntry(foo, a), SiblingEntry(foo, a))
  {
    BaseNotNo(a);
    SiblingNotNo(foo, a);
    UsedUp(BaseCond(a), Cmp(false, foo, SymM));
    assert Contains(SiblingCond(foo, a), foo);
  }

  /** With A at m and FOO at n the absorbed entry is visible and what it was put under is not. */
  lemma AbsorbedWithoutBase(foo: Symbol, a: Symbol, v: Valuation)
    requires Respects(v) && Tristates(foo, a) && v(a).tri == Mod && v(foo).tri == No
    ensures var (base, sibling) := (BaseEntry(foo, a), SiblingEntry(foo, a));
            && Absorbs(base, sibling) && Finished(BaseDep(base)) && Finished(OwnDep(sibling))
            && EvalOpt(OwnDep(sibling), v) == Mod && v(foo).tri == No && EvalOpt(BaseDep(base), v) == No
            && !Comparable(OwnDep(sibling), v)
  {
    AbsorbedByResidue(foo, a);
    CondsFinished(foo, a);
    CondValues(foo, a, v);
    if Comparable(OwnDep(SiblingEntry(foo, a)), v) {
      AbsorbedNeedsBase(BaseEntry(foo, a), SiblingEntry(foo, a), v);
      assert false;
    }
  }
}
