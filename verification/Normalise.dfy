/**
 The normalising rewrites expr_transform, expr_trans_bool and
 expr_trans_compare (scripts/config/expr.c).
 */
module Normalise {
  import opened Options
  import opened Expressions

  /** Drops at every De Morgan push, which Size does not. */
  function Weight(e: Expr): nat {
    match e
    case Sym(_) => 1
    case Cmp(_, _, _) => 3
    case Not(x) => 2 * Weight(x) + 1
    case Bin(_, l, r) => Weight(l) + Weight(r) + 2
  }

  function Dual(op: Op): Op {
    if op == AndOp then OrOp else AndOp
  }

  /** The comparison cases: a boolean symbol compared with y, m or n. */
  function TransformCmp(eq: bool, a: Symbol, b: Symbol): (r: Expr)
    ensures Weight(r) <= 3
  {
    if TypeOf(a) != SBoolean then Cmp(eq, a, b)
    else if b == SymN then (if eq then Not(Sym(a)) else Sym(a))
    else if b == SymM then (if eq then Sym(SymN) else Sym(SymY))
    else if b == SymY then (if eq then Sym(a) else Not(Sym(a)))
    else Cmp(eq, a, b)
  }

  /** !(l op r) with the negation pushed inside. */
  function DeMorgan(op: Op, l: Expr, r: Expr): (x: Expr)
    ensures Weight(x) < Weight(Not(Bin(op, l, r)))
  {
    assert Weight(Not(l)) + Weight(Not(r)) == 2 * Weight(l) + 2 * Weight(r) + 2;
    Bin(Dual(op), Not(l), Not(r))
  }

  /** expr_transform. The rewritten tree is transformed again after a double negation or a De Morgan push. */
  function Transform(e: Expr): (r: Expr)
    ensures Weight(r) <= Weight(e)
    decreases Weight(e)
  {
    match e
    case Sym(_) => e
    case Cmp(eq, a, b) => TransformCmp(eq, a, b)
    case Bin(op, l, r) => Bin(op, Transform(l), Transform(r))
    case Not(x) =>
      var x' := Transform(x);
      match x'
      case Not(y) => Transform(y)
      case Cmp(eq, a, b) => Cmp(!eq, a, b)
      case Bin(op, l, r) => Transform(DeMorgan(op, l, r))
      case Sym(s) =>
        if s == SymY then Sym(SymN)
        else if s == SymM then Sym(SymM)
        else if s == SymN then Sym(SymY)
        else Not(x')
  }

  /**
   Negation normal form: NOT stands only directly over a symbol other than
   y, m, n, and no boolean symbol is compared with one of these.
   */
  predicate Normal(e: Expr) {
    match e
    case Sym(_) => true
    case Cmp(_, a, b) => TypeOf(a) == SBoolean ==> b != SymN && b != SymM && b != SymY
    case Not(x) => x.Sym? && x.s != SymN && x.s != SymM && x.s != SymY
    case Bin(_, l, r) => Normal(l) && Normal(r)
  }

  lemma {:induction false} TransformNormal(e: Expr)
    ensures Normal(Transform(e))
    decreases Weight(e)
  {
    match e
    case Bin(op, l, r) =>
      TransformNormal(l);
      TransformNormal(r);
    case Not(x) =>
      TransformNormal(x);
      match Transform(x) {
        case Not(y) => TransformNormal(y);
        case Bin(op, l, r) => TransformNormal(DeMorgan(op, l, r));
        case _ =>
      }
    case _ =>
  }

  lemma {:induction false} NormalIsFixed(e: Expr)
    requires Normal(e)
    ensures Transform(e) == e
  {
    if e.Bin? {
      NormalIsFixed(e.l);
      NormalIsFixed(e.r);
    }
  }

  /** Normal forms are exactly the fixed points, and one application reaches one. */
  lemma TransformIdempotent(e: Expr)
    ensures Transform(Transform(e)) == Transform(e)
    ensures Transform(e) == e <==> Normal(e)
  {
    TransformNormal(e);
    NormalIsFixed(Transform(e));
    if Normal(e) { NormalIsFixed(e); }
  }

  lemma TransformCmpKeepsValue(eq: bool, a: Symbol, b: Symbol, v: Valuation)
    requires Respects(v)
    ensures Eval(TransformCmp(eq, a, b), v) == Eval(Cmp(eq, a, b), v)
  {
    assert RightValue(a, v(a)) && RightValue(SymY, v(SymY)) && RightValue(SymM, v(SymM)) && RightValue(SymN, v(SymN));
    TriStrInjective(v(a).tri, Yes);
    TriStrInjective(v(a).tri, Mod);
    TriStrInjective(v(a).tri, No);
  }

  /** expr_transform keeps the value under every valuation that respects the types. */
  lemma {:induction false} TransformKeepsValue(e: Expr, v: Valuation)
    requires Respects(v)
    ensures Eval(Transform(e), v) == Eval(e, v)
    decreases Weight(e)
  {
    match e
    case Sym(_) =>
    case Cmp(eq, a, b) => TransformCmpKeepsValue(eq, a, b, v);
    case Bin(op, l, r) =>
      TransformKeepsValue(l, v);
      TransformKeepsValue(r, v);
    case Not(x) =>
      TransformKeepsValue(x, v);
      match Transform(x) {
        case Not(y) => TransformKeepsValue(y, v);
        case Bin(op, l, r) => TransformKeepsValue(DeMorgan(op, l, r), v);
        case Cmp(_, _, _) =>
        case Sym(s) => assert RightValue(SymY, v(SymY)) && RightValue(SymM, v(SymM)) && RightValue(SymN, v(SymN));
      }
  }

  /** expr_trans_bool */
  function TransBool(e: Expr): Expr {
    match e
    case Bin(op, l, r) => Bin(op, TransBool(l), TransBool(r))
    case Not(x) => Not(TransBool(x))
    case Cmp(eq, a, b) => if !eq && TypeOf(a) == STristate && b == SymN then Sym(a) else e
    case Sym(_) => e
  }

  /** On a normal form the test "is it n?" is kept, so the visibility promoted for a non-tristate symbol is. */
  lemma {:induction false} TransBoolKeepsNo(e: Expr, v: Valuation)
    requires Respects(v)
    requires Normal(e)
    ensures Eval(TransBool(e), v) == No <==> Eval(e, v) == No
    ensures Promote(Eval(TransBool(e), v)) == Promote(Eval(e, v))
    ensures Normal(TransBool(e))
  {
    match e
    case Bin(_, l, r) =>
      TransBoolKeepsNo(l, v);
      TransBoolKeepsNo(r, v);
    case Cmp(_, a, b) =>
      assert RightValue(a, v(a)) && RightValue(SymN, v(SymN));
      TriStrInjective(v(a).tri, No);
    case _ =>
  }

  /** No configuration symbol is m. */
  ghost predicate TwoValued(v: Valuation) {
    forall s: Symbol :: s != SymM ==> v(s).tri != Mod
  }

  /** Where no symbol is m the value itself is kept, normal form or not. */
  lemma {:induction false} TransBoolExact(e: Expr, v: Valuation)
    requires Respects(v) && TwoValued(v)
    ensures Eval(TransBool(e), v) == Eval(e, v)
  {
    match e
    case Bin(_, l, r) =>
      TransBoolExact(l, v);
      TransBoolExact(r, v);
    case Not(x) => TransBoolExact(x, v);
    case Cmp(_, a, _) =>
      assert RightValue(a, v(a)) && RightValue(SymN, v(SymN));
      TriStrInjective(v(a).tri, No);
    case Sym(_) =>
  }

  /** No tristate symbol is tested against n. */
  predicate NoTest(e: Expr) {
    match e
    case Sym(_) => true
    case Cmp(eq, a, b) => eq || TypeOf(a) != STristate || b != SymN
    case Not(x) => NoTest(x)
    case Bin(_, l, r) => NoTest(l) && NoTest(r)
  }

  /** expr_trans_bool leaves no such test, at any depth, and where there is none it changes nothing. */
  lemma {:induction false} TransBoolComplete(e: Expr)
    ensures NoTest(TransBool(e))
    ensures TransBool(e) == e <==> NoTest(e)
  {
    match e
    case Not(x) => TransBoolComplete(x);
    case Bin(_, l, r) =>
      TransBoolComplete(l);
      TransBoolComplete(r);
    case _ =>
  }

  /** `if (tri == mod && sym->type != S_TRISTATE) tri = yes` (symbol.c:208-209). */
  function Promote(t: Tristate): Tristate {
    if t == Mod then Yes else t
  }

  /** The exact value is not kept: a!='n' is y where a is m. */
  lemma TransBoolChangesValue(v: Valuation)
    requires Respects(v) && v(Var(0, STristate)).tri == Mod
    ensures Eval(Cmp(false, Var(0, STristate), SymN), v) == Yes
    ensures Eval(TransBool(Cmp(false, Var(0, STristate), SymN)), v) == Mod
    ensures Normal(Cmp(false, Var(0, STristate), SymN))
  {
    assert RightValue(SymN, v(SymN)) && RightValue(Var(0, STristate), v(Var(0, STristate)));
    TriStrInjective(Mod, No);
  }

  /** The constant an expression is compared with; menu.c only asks for n. */
  type Target = s: Symbol | s == SymY || s == SymM || s == SymN witness SymY

  function TargetT(c: Target): Tristate {
    if c == SymY then Yes else if c == SymM then Mod else No
  }

  /** expr_trans_compare with E_EQUAL (eq) or E_UNEQUAL. */
  function TransCompare(e: Expr, eq: bool, c: Target): Expr {
    match e
    case Bin(op, l, r) =>
      var l' := TransCompare(l, true, c);
      var r' := TransCompare(r, true, c);
      var x := if c == SymY then Bin(op, l', r') else if c == SymN then Bin(Dual(op), l', r') else e;
      if eq then x else Not(x)
    case Not(x) => TransCompare(x, !eq, c)
    case Cmp(_, _, _) =>
      if c == SymM then Sym(if eq then SymN else SymY)
      else if eq == (c == SymY) then e
      else Not(e)
    case Sym(s) => Cmp(eq, s, c)
  }

  /** With the NULL case: no expression is worth y. */
  function TransCompareOpt(e: Option<Expr>, eq: bool, c: Target): Expr {
    if e.Some? then TransCompare(e.value, eq, c) else if eq then Sym(c) else Not(Sym(c))
  }

  /** The symbol's string shows its tristate value. */
  predicate Shows(s: Symbol) {
    s == SymY || s == SymM || s == SymN || TypeOf(s) == SBoolean || TypeOf(s) == STristate
  }

  /** Every symbol standing for its own value is bool, tristate or one of y, m, n. */
  predicate ValueSymbols(e: Expr) {
    match e
    case Sym(s) => Shows(s)
    case Cmp(_, _, _) => true
    case Not(x) => ValueSymbols(x)
    case Bin(_, l, r) => ValueSymbols(l) && ValueSymbols(r)
  }

  predicate NoNegatedMod(e: Expr, v: Valuation) {
    match e
    case Sym(_) => true
    case Cmp(_, _, _) => true
    case Not(x) => Eval(x, v) != Mod && NoNegatedMod(x, v)
    case Bin(_, l, r) => NoNegatedMod(l, v) && NoNegatedMod(r, v)
  }

  /** The rewritten expression says whether e equals (differs from) y or n. */
  lemma {:induction false} TransCompareCorrect(e: Expr, eq: bool, c: Target, v: Valuation)
    requires Respects(v)
    requires c != SymM
    requires ValueSymbols(e) && NoNegatedMod(e, v)
    ensures Eval(TransCompare(e, eq, c), v) == BoolT((Eval(e, v) == TargetT(c)) == eq)
  {
    match e
    case Sym(s) =>
    case Cmp(_, _, _) =>
    case Not(x) => TransCompareCorrect(x, !eq, c, v);
    case Bin(op, l, r) =>
      TransCompareCorrect(l, true, c, v);
      TransCompareCorrect(r, true, c, v);
  }

  /**
   Whether the rewritten expression takes e to equal y or n: every symbol is compared by itself, and NOT turns
   the answer around.
   */
  predicate Taken(e: Expr, c: Target, v: Valuation) {
    match e
    case Sym(s) => v(s).str == v(c).str
    case Cmp(_, _, _) => Eval(e, v) == TargetT(c)
    case Not(x) => !Taken(x, c, v)
    case Bin(op, l, r) =>
      if (op == AndOp) == (c == SymY) then Taken(l, c, v) && Taken(r, c, v) else Taken(l, c, v) || Taken(r, c, v)
  }

  /** What expr_trans_compare builds for y and n, of any expression and under any valuation. */
  lemma {:induction false} TransCompareMeans(e: Expr, eq: bool, c: Target, v: Valuation)
    requires Respects(v) && c != SymM
    ensures Eval(TransCompare(e, eq, c), v) == BoolT(Taken(e, c, v) == eq)
  {
    match e
    case Sym(s) =>
    case Cmp(_, _, _) =>
    case Not(x) => TransCompareMeans(x, !eq, c, v);
    case Bin(op, l, r) =>
      TransCompareMeans(l, true, c, v);
      TransCompareMeans(r, true, c, v);
  }

  /** So the comparison is right if and only if e is taken to equal the target exactly when it does. */
  lemma TransCompareExact(e: Expr, eq: bool, c: Target, v: Valuation)
    requires Respects(v) && c != SymM
    ensures Eval(TransCompare(e, eq, c), v) == BoolT((Eval(e, v) == TargetT(c)) == eq)
       <==> (Taken(e, c, v) <==> Eval(e, v) == TargetT(c))
  {
    TransCompareMeans(e, eq, c, v);
  }

  /** The value of e when a negated m is read as x. */
  function ReadAs(e: Expr, x: Tristate, v: Valuation): Tristate {
    match e
    case Not(y) => if Eval(y, v) == Mod then x else Eval(e, v)
    case Bin(op, l, r) => Apply(op, ReadAs(l, x, v), ReadAs(r, x, v))
    case _ => Eval(e, v)
  }

  /** On normal forms the comparison takes every negated m for the target. */
  lemma {:induction false} TakenReads(e: Expr, c: Target, v: Valuation)
    requires Respects(v) && c != SymM && Normal(e) && ValueSymbols(e)
    ensures Taken(e, c, v) <==> ReadAs(e, TargetT(c), v) == TargetT(c)
  {
    match e
    case Sym(s) => SymTaken(s, c, v);
    case Cmp(_, _, _) =>
    case Not(x) => SymTaken(x.s, c, v);
    case Bin(_, l, r) =>
      TakenReads(l, c, v);
      TakenReads(r, c, v);
  }

  lemma SymTaken(s: Symbol, c: Target, v: Valuation)
    requires Respects(v) && c != SymM && Shows(s)
    ensures v(s).str == v(c).str <==> v(s).tri == TargetT(c)
  {
    assert RightValue(s, v(s)) && RightValue(c, v(c));
    TriStrInjective(v(s).tri, TargetT(c));
  }

  /**
   So the comparison of a normal form with y or n is right if and only if reading every negated m as this value does
   not change whether the expression has it.
   */
  lemma TransCompareReads(e: Expr, eq: bool, c: Target, v: Valuation)
    requires Respects(v) && c != SymM && Normal(e) && ValueSymbols(e)
    ensures Eval(TransCompare(e, eq, c), v) == BoolT((Eval(e, v) == TargetT(c)) == eq)
       <==> (ReadAs(e, TargetT(c), v) == TargetT(c) <==> Eval(e, v) == TargetT(c))
  {
    TransCompareExact(e, eq, c, v);
    TakenReads(e, c, v);
  }

  /** Over a single negated symbol this is the case exactly where the symbol is not m. */
  lemma TransCompareNegation(s: Symbol, eq: bool, c: Target, v: Valuation)
    requires Respects(v) && Shows(s) && c != SymM
    ensures Eval(TransCompare(Not(Sym(s)), eq, c), v) == BoolT((Eval(Not(Sym(s)), v) == TargetT(c)) == eq)
       <==> v(s).tri != Mod
  {
    TransCompareExact(Not(Sym(s)), eq, c, v);
  }

  /** On normal forms the comparison errs in one direction only: an equality that holds is never missed. */
  lemma {:induction false} NormalTaken(e: Expr, c: Target, v: Valuation)
    requires Respects(v) && c != SymM && Normal(e) && ValueSymbols(e)
    ensures Eval(e, v) == TargetT(c) ==> Taken(e, c, v)
  {
    match e
    case Bin(_, l, r) =>
      NormalTaken(l, c, v);
      NormalTaken(r, c, v);
    case Not(x) =>
      var s := x.s;
      assert RightValue(s, v(s)) && RightValue(c, v(c));
      assert v(s).str == TriStr(v(s).tri) && v(c).str == TriStr(TargetT(c));
      TriStrInjective(v(s).tri, TargetT(c));
      assert Eval(e, v) == NotT(v(s).tri) by { assert Eval(x, v) == v(s).tri; }
    case _ =>
  }

  /** What expr_trans_compare builds is two-valued even where e is not. */
  lemma {:induction false} TransCompareTwoValued(e: Expr, eq: bool, c: Target, v: Valuation)
    requires Respects(v) && c != SymM
    ensures Eval(TransCompare(e, eq, c), v) != Mod
  {
    match e
    case Not(x) => TransCompareTwoValued(x, !eq, c, v);
    case Bin(_, l, r) =>
      TransCompareTwoValued(l, true, c, v);
      TransCompareTwoValued(r, true, c, v);
    case _ =>
  }

  /** Against m, which menu.c does not ask for: symbols and comparisons are compared right. */
  lemma AtomAgainstMod(e: Expr, eq: bool, v: Valuation)
    requires Respects(v) && (e.Cmp? || (e.Sym? && Shows(e.s)))
    ensures Eval(TransCompare(e, eq, SymM), v) == BoolT((Eval(e, v) == Mod) == eq)
  {
    assert RightValue(SymM, v(SymM)) && RightValue(SymY, v(SymY)) && RightValue(SymN, v(SymN));
    if e.Sym? {
      assert RightValue(e.s, v(e.s));
      TriStrInjective(v(e.s).tri, Mod);
    }
  }

  /** But an AND or OR stands for its own comparison, which is right if and only if it is n. */
  lemma NestAgainstMod(e: Expr, eq: bool, v: Valuation)
    requires e.Bin?
    ensures Eval(TransCompare(e, eq, SymM), v) == BoolT((Eval(e, v) == Mod) == eq) <==> Eval(e, v) == No
  {
  }

  /** And through NOT over a symbol or comparison the answer is turned around: it is always wrong. */
  lemma NegationAgainstMod(e: Expr, eq: bool, v: Valuation)
    requires Respects(v) && (e.Cmp? || (e.Sym? && Shows(e.s)))
    ensures Eval(TransCompare(Not(e), eq, SymM), v) != BoolT((Eval(Not(e), v) == Mod) == eq)
  {
    AtomAgainstMod(e, !eq, v);
  }
}
