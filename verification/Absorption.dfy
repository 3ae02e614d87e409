/**
 Which siblings menu_finalize takes in (scripts/config/menu.c:257-281): exactly those that mention the symbol and
 either have a conjunct that needs it or contain every conjunct of the condition of its prompt.
 */
module Absorption {
  import opened Options
  import opened Expressions
  import opened Levels
  import opened Equality
  import opened Normalise
  import opened Duplicates
  import opened NormalForms
  import opened ExprShapes
  import opened MenuTree
  import opened MenuMeaning

  // ----- the short cut: expr_depends_symbol -----

  /** The symbol itself, or a comparison that only holds where it is not n. */
  predicate Needs(x: Expr, s: Symbol) {
    x == Sym(s) || x == Cmp(true, s, SymY) || x == Cmp(true, s, SymM) || x == Cmp(false, s, SymN)
  }

  predicate NeedsAmong(ls: seq<Expr>, s: Symbol) {
    exists k :: 0 <= k < |ls| && Needs(ls[k], s)
  }

  lemma NeedsConcat(a: seq<Expr>, b: seq<Expr>, s: Symbol)
    ensures NeedsAmong(a + b, s) <==> NeedsAmong(a, s) || NeedsAmong(b, s)
  {
    if k :| 0 <= k < |a| && Needs(a[k], s) { assert (a + b)[k] == a[k]; }
    if k :| 0 <= k < |b| && Needs(b[k], s) { assert (a + b)[|a| + k] == b[k]; }
  }

  /** expr_depends_symbol holds if and only if some operand of the conjunction needs the symbol. */
  lemma {:induction false} DependsExact(e: Expr, s: Symbol)
    ensures Depends(e, s) <==> exists k :: 0 <= k < |Leaves(AndOp, e)| && Needs(Leaves(AndOp, e)[k], s)
  {
    DependsAmong(e, s);
    assert NeedsAmong(Leaves(AndOp, e), s) <==>
           exists k :: 0 <= k < |Leaves(AndOp, e)| && Needs(Leaves(AndOp, e)[k], s);
  }

  lemma {:induction false} DependsAmong(e: Expr, s: Symbol)
    ensures Depends(e, s) <==> NeedsAmong(Leaves(AndOp, e), s)
  {
    if IsOp(AndOp, e) {
      DependsAmong(e.l, s);
      DependsAmong(e.r, s);
      NeedsConcat(Leaves(AndOp, e.l), Leaves(AndOp, e.r), s);
    } else {
      assert Leaves(AndOp, e)[0] == e;
    }
  }

  // ----- the residue path -----

  ghost predicate UsedUp(a: Expr, b: Expr) {
    EliminateEq(a, b).1 == Sym(SymY)
  }

  lemma {:induction false} RowsOnlyTake(op: Op, keepConst: bool, m: Match, i: nat)
    requires i <= |m.ls1|
    ensures OnlyTaken(op, m, RowsBy(op, keepConst, m, i))
    decreases |m.ls1| - i
  {
    if i < |m.ls1| {
      var m' := RowBy(op, keepConst, m, i, 0);
      RowOnlyTakes(op, keepConst, m, i, 0);
      RowsOnlyTake(op, keepConst, m', i + 1);
      OnlyTakenTrans(op, m, m', RowsBy(op, keepConst, m', i + 1));
    }
  }

  /** The second level after a pass. */
  function Second(op: Op, a: Expr, b: Expr): seq<Expr>
    requires IsOp(op, a) || IsOp(op, b)
    ensures |Second(op, a, b)| == |Leaves(op, b)|
  {
    MatchLevels(op, true, a, b).ls2
  }

  lemma SecondTaken(op: Op, a: Expr, b: Expr)
    requires IsOp(op, a) || IsOp(op, b)
    ensures forall k :: 0 <= k < |Second(op, a, b)| ==>
              Second(op, a, b)[k] == Leaves(op, b)[k] || Second(op, a, b)[k] == Sym(NeutralSym(op))
    ensures Operands(Leaves(op, b)) ==> Slotted(op, Second(op, a, b))
  {
    LevelsAre(op, true, a, b);
    RowsOnlyTake(op, true, Match(Leaves(op, a), Leaves(op, b), []), 0);
  }

  /** A row takes out at most one slot of the other side. */
  lemma {:induction false} RowTakesOne(op: Op, m: Match, i: nat, j: nat, p: nat, q: nat)
    requires i < |m.ls1| && j <= |m.ls2| && p < q < |m.ls2|
    ensures var r := RowBy(op, true, m, i, j); r.ls2[p] == m.ls2[p] || r.ls2[q] == m.ls2[q]
    decreases |m.ls2| - j
  {
    if j < |m.ls2| {
      var m' := AfterPair(op, true, m, i, j);
      if m' == m { RowTakesOne(op, m, i, j + 1, p, q); } else { TakenIsLiteral(op, m, i, j); }
    }
  }

  lemma TakenIsLiteral(op: Op, m: Match, i: nat, j: nat)
    requires i < |m.ls1| && j < |m.ls2| && AfterPair(op, true, m, i, j) != m
    ensures RowBy(op, true, m, i, j) == TakenOut(op, m, i, j)
  {
    LiteralRow(op, TakenOut(op, m, i, j), i, j + 1);
  }

  lemma {:induction false} KeptMember(op: Op, ls: seq<Expr>, k: nat)
    requires k < |ls| && ls[k] != Sym(NeutralSym(op))
    ensures Kept(op, ls) != []
  {
    if k > 0 { KeptMember(op, ls[1..], k - 1); }
  }

  /** One operand cannot use up a conjunction. */
  lemma AloneLeaves(a: Expr, b: Expr)
    requires !IsOp(AndOp, a) && IsOp(AndOp, b) && Operands(Leaves(AndOp, b))
    ensures EliminateYn(Refill(AndOp, b, Second(AndOp, a, b))) != Sym(SymY)
  {
    var lb, r := Leaves(AndOp, b), Second(AndOp, a, b);
    var m := Match([a], lb, []);
    LevelsAre(AndOp, true, a, b);
    Leaf(AndOp, a);
    assert RowsBy(AndOp, true, RowBy(AndOp, true, m, 0, 0), 1) == RowBy(AndOp, true, m, 0, 0);
    RowTakesOne(AndOp, m, 0, 0, 0, 1);
    SecondTaken(AndOp, a, b);
    KeptMember(AndOp, r, if r[0] == lb[0] then 0 else 1);
    NotYes(AndOp, b, r);
  }

  /** What is left of operands is y only if nothing is left of a conjunction. */
  lemma NotYes(op: Op, b: Expr, r: seq<Expr>)
    requires |r| == |Leaves(op, b)| && Slotted(op, r)
    ensures EliminateYn(Refill(op, b, r)) == Sym(SymY) <==> op == AndOp && Kept(op, r) == []
  {
    ResidueIs(op, b, r);
    KeptOk(op, r);
  }

  // ----- three kinds of first sides -----

  /** Nothing is left of the second level if and only if all of it is in the first. */
  lemma NothingLeft(a: Expr, b: Expr)
    requires NoLiterals(a) && NoLiterals(b) && IsOp(AndOp, a) && !IsYn(b)
    ensures Kept(AndOp, Second(AndOp, a, b)) == [] <==> AllIn(true, Leaves(AndOp, b), Leaves(AndOp, a))
  {
    PlainLevels(AndOp, a, b);
    PassRuns(AndOp, true, a, b);
    PassSides(AndOp, true, Leaves(AndOp, a), Leaves(AndOp, b), MatchLevels(AndOp, true, a, b));
    if !IsOp(AndOp, b) { Leaf(AndOp, b); }
    SecondTaken(AndOp, a, b);
    NoneKept(AndOp, true, Leaves(AndOp, b), Leaves(AndOp, a), Second(AndOp, a, b));
  }

  /** expr_eliminate_eq as its at most two passes. */
  lemma TwoPasses(a: Expr, b: Expr)
    ensures !a.Bin? && !b.Bin? ==> EliminateEq(a, b).1 == b
    ensures !a.Bin? && b.Bin? ==> EliminateEq(a, b).1 == EliminateYn(Refill(b.op, b, Second(b.op, a, b)))
    ensures a.Bin? ==> IsOp(a.op, FirstSide(a, b))
    ensures a.Bin? ==> var b1 := Refill(a.op, b, Second(a.op, a, b));
              EliminateEq(a, b).1 == EliminateYn(if b1.Bin? && b1.op != a.op
                                                 then Refill(b1.op, b1, Second(b1.op, FirstSide(a, b), b1)) else b1)
  {
  }

  function FirstSide(a: Expr, b: Expr): Expr
    requires a.Bin?
  {
    Refill(a.op, a, MatchLevels(a.op, true, a, b).ls1)
  }

  lemma UsedUpAnd(a: Expr, b: Expr)
    requires NoLiterals(a) && NoLiterals(b) && IsOp(AndOp, a) && !IsYn(b)
    ensures UsedUp(a, b) <==> AllIn(true, Leaves(AndOp, b), Leaves(AndOp, a))
  {
    var r := Second(AndOp, a, b);
    NothingLeft(a, b);
    TwoPasses(a, b);
    PlainLevels(AndOp, a, b);
    SecondTaken(AndOp, a, b);
    if IsOp(AndOp, b) {
      NotYes(AndOp, b, r);
    } else {
      Leaf(AndOp, b);
      assert Kept(AndOp, r[1..]) == [];
      if r[0] == b && b.Bin? { OrLeaves(FirstSide(a, b), b); }
      NoLiteralsFixed(b);
    }
  }

  /** A disjunction never leaves y. */
  lemma OrLeaves(a: Expr, b: Expr)
    requires IsOp(OrOp, b) && NoLiterals(b)
    ensures EliminateYn(Refill(OrOp, b, Second(OrOp, a, b))) != Sym(SymY)
  {
    LeavesNoLiterals(OrOp, b);
    SecondTaken(OrOp, a, b);
    NotYes(OrOp, b, Second(OrOp, a, b));
  }

  lemma UsedUpOr(a: Expr, b: Expr)
    requires NoLiterals(b) && IsOp(OrOp, a) && !IsYn(b)
    ensures !UsedUp(a, b)
  {
    TwoPasses(a, b);
    if IsOp(OrOp, b) {
      OrLeaves(a, b);
    } else {
      Leaf(OrOp, b);
      SecondTaken(OrOp, a, b);
      if IsOp(AndOp, b) {
        LeavesNoLiterals(AndOp, b);
        AloneLeaves(FirstSide(a, b), b);
      }
    }
  }

  lemma UsedUpAtom(a: Expr, b: Expr)
    requires NoLiterals(b) && !a.Bin? && !IsYn(b)
    ensures !UsedUp(a, b)
  {
    TwoPasses(a, b);
    if IsOp(OrOp, b) { OrLeaves(a, b); }
    if IsOp(AndOp, b) {
      LeavesNoLiterals(AndOp, b);
      AloneLeaves(a, b);
    }
  }

  // ----- literals are never taken out -----

  lemma {:induction false} RowKeepsLiteral(op: Op, m: Match, i: nat, j: nat, k: nat)
    requires i < |m.ls1| && j <= |m.ls2| && k < |m.ls2| && IsYn(m.ls2[k])
    ensures RowBy(op, true, m, i, j).ls2[k] == m.ls2[k]
    decreases |m.ls2| - j
  {
    if j < |m.ls2| {
      PairKeepsLiteral(op, m, i, j, k);
      RowKeepsLiteral(op, AfterPair(op, true, m, i, j), i, j + 1, k);
    }
  }

  lemma PairKeepsLiteral(op: Op, m: Match, i: nat, j: nat, k: nat)
    requires i < |m.ls1| && j < |m.ls2| && k < |m.ls2| && IsYn(m.ls2[k])
    ensures AfterPair(op, true, m, i, j).ls2[k] == m.ls2[k]
  {
  }

  lemma {:induction false} RowsKeepLiteral(op: Op, m: Match, i: nat, k: nat)
    requires i <= |m.ls1| && k < |m.ls2| && IsYn(m.ls2[k])
    ensures |RowsBy(op, true, m, i).ls2| == |m.ls2| && RowsBy(op, true, m, i).ls2[k] == m.ls2[k]
    decreases |m.ls1| - i
  {
    if i < |m.ls1| {
      RowKeepsLiteral(op, m, i, 0, k);
      RowsKeepLiteral(op, RowBy(op, true, m, i, 0), i + 1, k);
    }
  }

  lemma LiteralLeft(a: Expr, b: Expr)
    requires IsYn(b)
    ensures EliminateEq(a, b).1 == b
  {
    TwoPasses(a, b);
    if a.Bin? {
      Leaf(a.op, b);
      LevelsAre(a.op, true, a, b);
      RowsKeepLiteral(a.op, Match(Leaves(a.op, a), [b], []), 0, 0);
    }
  }

  lemma NotIncluded(a: Expr, b: Expr)
    requires NoLiterals(a) && IsOp(AndOp, a) && IsYn(b)
    ensures !AllIn(true, Leaves(AndOp, b), Leaves(AndOp, a))
  {
    LeavesNoLiterals(AndOp, a);
    Leaf(AndOp, b);
    InBag([b], ShapeOf(b));
    assert [b][0] == b;
    if ShapeOf(b) in Bag(Leaves(AndOp, a)) { OperandShape(Leaves(AndOp, a), ShapeOf(b)); }
  }

  /**
   expr_eliminate_eq leaves y of b if and only if b is y, or a is a conjunction that has every conjunct of b as
   often as b. That a is b itself is not enough: of two equal operands that are no conjunctions nothing is taken.
   */
  lemma UsedUpExact(a: Expr, b: Expr)
    requires NoLiterals(a) && NoLiterals(b)
    ensures UsedUp(a, b) <==> b == Sym(SymY) || (IsOp(AndOp, a) && AllIn(true, Leaves(AndOp, b), Leaves(AndOp, a)))
  {
    if IsYn(b) {
      LiteralLeft(a, b);
      if IsOp(AndOp, a) { NotIncluded(a, b); }
    } else if IsOp(AndOp, a) {
      UsedUpAnd(a, b);
    } else if a.Bin? {
      UsedUpOr(a, b);
    } else {
      UsedUpAtom(a, b);
    }
  }

  // ----- the form in which conditions are compared -----

  /** Over symbols, negated symbols and comparisons. */
  predicate Tame(e: Expr) {
    match e
    case Sym(s) => s.Var?
    case Cmp(_, _, _) => Normal(e)
    case Not(x) => x.Sym? && x.s.Var?
    case Bin(_, l, r) => Tame(l) && Tame(r)
  }

  lemma {:induction false} TameIs(e: Expr)
    requires Tame(e)
    ensures Normal(e) && NoForeign(e) && NoLiterals(e) && !IsYn(e) && !HasYn(e)
  {
    if e.Bin? {
      TameIs(e.l);
      TameIs(e.r);
    }
  }

  lemma {:induction false} TameNegated(e: Expr)
    requires Tame(e)
    ensures Tame(Transform(Not(e)))
  {
    TameIs(e);
    NormalIsFixed(e);
    if e.Bin? {
      TameNegated(e.l);
      TameNegated(e.r);
      assert Transform(Not(e)) == Transform(DeMorgan(e.op, e.l, e.r));
    }
  }

  lemma {:induction false} ComparedTame(e: Expr, eq: bool)
    requires Normal(e)
    ensures Tame(Transform(TransCompare(e, eq, SymN)))
  {
    match e
    case Sym(s) =>
    case Cmp(_, _, _) => assert Transform(e) == e;
    case Not(x) => ComparedTame(x, !eq);
    case Bin(op, l, r) =>
      var x := Bin(Dual(op), TransCompare(l, true, SymN), TransCompare(r, true, SymN));
      ComparedTame(l, true);
      ComparedTame(r, true);
      if !eq { NegatedAgain(x); }
  }

  lemma NegatedAgain(x: Expr)
    requires x.Bin? && Tame(Transform(x))
    ensures Tame(Transform(Not(x)))
  {
    var y := Transform(x);
    TameNegated(y);
    TameIs(y);
    NormalIsFixed(y);
    assert Transform(Not(y)) == Transform(DeMorgan(y.op, y.l, y.r));
  }

  lemma {:induction false} EliminateDupsNoYn(e: Expr)
    requires !HasYn(e)
    ensures !HasYn(EliminateDups(e))
    decreases Size(e)
  {
    RoundOk(e, s => Default(s));
    if Round(e).1 != 0 {
      EliminateYnShrinks(Round(e).0);
      EliminateDupsNoYn(EliminateYn(Round(e).0));
    }
  }

  lemma {:induction false} NormalNoLiterals(e: Expr)
    requires Normal(e) && !HasYn(e)
    ensures NoLiterals(e)
  {
    if e.Bin? {
      NormalNoLiterals(e.l);
      NormalNoLiterals(e.r);
    }
  }

  /** No literals are operands of what is compared, and no foreign constants. */
  lemma NotNoPlain(e: Option<Expr>)
    requires NormalOpt(e)
    ensures NoLiterals(NotNo(e)) && NoForeign(NotNo(e)) && Settled(NotNo(e))
  {
    var c := Transform(TransCompareOpt(e, false, SymN));
    if e.Some? {
      ComparedTame(e.value, false);
      TameIs(c);
    } else {
      assert c == Sym(SymY);
    }
    EliminateDupsNoYn(c);
    EliminateDupsTidy(true, c);
    EliminateDupsCorrect(c, s => Default(s));
    NormalNoLiterals(EliminateDups(c));
  }

  lemma {:induction false} NoForeignSparse(e: Expr)
    requires NoForeign(e)
    ensures Sparse(ShapeOf(e)) && !Foreign(ShapeOf(e))
    decreases Size(e), 1
  {
    match e
    case Not(x) => NoForeignSparse(x);
    case Bin(op, _, _) =>
      ShapeOfNest(e);
      SparseBag(op, e);
    case _ =>
  }

  lemma {:induction false} SparseBag(op: Op, e: Expr)
    requires NoForeign(e)
    ensures forall t :: t in Bag(Leaves(op, e)) ==> Sparse(t) && !Foreign(t)
    decreases Size(e), if IsOp(op, e) then 0 else 2
  {
    var ls := Leaves(op, e);
    LeavesNoForeign(op, e);
    forall t | t in Bag(ls) ensures Sparse(t) && !Foreign(t) {
      InBag(ls, t);
      var k :| 0 <= k < |ls| && ShapeOf(ls[k]) == t;
      NoForeignSparse(ls[k]);
    }
  }

  /** Every conjunct of the second is one of the first, as often. */
  ghost predicate ConjunctsIn(b: Expr, a: Expr) {
    Bag(Leaves(AndOp, b)) <= Bag(Leaves(AndOp, a))
  }

  lemma IncludedIs(a: Expr, b: Expr)
    requires NoForeign(b)
    ensures AllIn(true, Leaves(AndOp, b), Leaves(AndOp, a)) <==> ConjunctsIn(b, a)
  {
    SparseBag(AndOp, b);
  }

  /** The residue path, exactly. */
  lemma CoversExact(base: Option<Expr>, dep: Option<Expr>)
    requires NormalOpt(base) && NormalOpt(dep)
    ensures Covers(base, dep) <==>
            NotNo(base) == Sym(SymY) || (IsOp(AndOp, NotNo(dep)) && ConjunctsIn(NotNo(base), NotNo(dep)))
  {
    NotNoPlain(base);
    NotNoPlain(dep);
    UsedUpExact(NotNo(dep), NotNo(base));
    IncludedIs(NotNo(dep), NotNo(base));
  }

  /**
   Exactly which siblings are absorbed. What counts of the sibling is the condition of its prompt, or its dependency
   without one, and of the base the condition of its prompt only. It must mention the symbol, and have a conjunct that
   needs it or, in the form they are compared in, all conjuncts of the condition of the base.
   */
  lemma AbsorbsExact(base: Entry, sibling: Entry, limit: Option<Expr>, own: Option<Expr>)
    requires limit == if base.prompt.Some? then base.prompt.value.visible else None
    requires own == if sibling.prompt.Some? then sibling.prompt.value.visible else sibling.dep
    requires NormalOpt(limit) && NormalOpt(own)
    ensures Absorbs(base, sibling) <==>
            && base.sym.Some? && own.Some?
            && base.sym.value in Mentions(own.value)
            && (NeedsAmong(Leaves(AndOp, own.value), base.sym.value) || NotNo(limit) == Sym(SymY)
                || (IsOp(AndOp, NotNo(own)) && ConjunctsIn(NotNo(limit), NotNo(own))))
  {
    if base.sym.Some? && own.Some? {
      ContainsIsMentions(own.value, base.sym.value);
      DependsAmong(own.value, base.sym.value);
      CoversExact(limit, own);
    }
  }

  /** Behind an entry without a prompt condition every sibling that mentions its symbol is absorbed. */
  lemma AbsorbsUnlimited(base: Entry, sibling: Entry, own: Expr)
    requires base.sym.Some? && (base.prompt.None? || base.prompt.value.visible.None?)
    requires Some(own) == if sibling.prompt.Some? then sibling.prompt.value.visible else sibling.dep
    ensures Absorbs(base, sibling) <==> base.sym.value in Mentions(own)
  {
    ContainsIsMentions(own, base.sym.value);
    UnlimitedIsYes();
    LiteralLeft(NotNo(Some(own)), Sym(SymY));
  }

  lemma UnlimitedIsYes()
    ensures NotNo(None) == Sym(SymY)
  {
    assert Transform(TransCompareOpt(None, false, SymN)) == Sym(SymY);
    RoundOk(Sym(SymY), s => Default(s));
  }

  // ----- what is taken in, and what is not -----

  /**
   menu_finalize takes in the entry behind an entry with a symbol and no list if and only if that is absorbed, goes
   on until the next one is not, and takes in nothing in any other case.
   */
  lemma FinalizeTakes(t: Tree, rest: seq<Tree>)
    ensures t.kids != [] || t.info.sym.None? || rest == [] || !Absorbs(t.info, rest[0].info) ==>
              Finalize(t, rest).rest == rest
    ensures t.kids == [] && t.info.sym.Some? && rest != [] && Absorbs(t.info, rest[0].info) ==>
              var r := Finalize(t, rest);
              && |Preorder([r.tree])| >= 2 && Preorder([r.tree])[1] == rest[0].id
              && (r.rest == [] || !Absorbs(t.info, r.rest[0].info))
  {
    var r := Finalize(t, rest);
    PreorderCons(t, rest);
    PreorderCons(r.tree, []);
    assert [r.tree] + [] == [r.tree];
    if t.kids == [] && t.info.sym.Some? && rest != [] && Absorbs(t.info, rest[0].info) {
      FirstTaken(t.info, rest);
      HoistPreorder(Absorb(t.info, rest).list);
    }
  }

  lemma FirstTaken(base: Entry, ts: seq<Tree>)
    requires ts != [] && Absorbs(base, ts[0].info)
    ensures var l := Preorder(Absorb(base, ts).list); l != [] && l[0] == ts[0].id
  {
    assert [ts[0]] + ts[1..] == ts;
    var f := Finalize(ts[0], ts[1..]);
    PreorderCons(f.tree, f.rest);
    var l := Absorb(base, f.rest);
    assert Absorb(base, ts).list == [f.tree] + l.list;
    PreorderCons(f.tree, l.list);
  }

  /** Hoisting leaves an entry with a prompt text, or without children, as it is. */
  lemma {:induction false} HoistLeaves(ts: seq<Tree>, k: nat)
    requires k < |ts| && (ts[k].kids == [] || (ts[k].info.prompt.Some? && ts[k].info.prompt.value.text))
    ensures ts[k] in Hoist(ts)
    decreases |Preorder(ts)|
  {
    if MovesUp(ts[0]) {
      PreorderConcat(ts[0].kids, ts[1..]);
      var up := ts[0].kids + ts[1..];
      assert up[|ts[0].kids| + k - 1] == ts[k];
      HoistLeaves(up, |ts[0].kids| + k - 1);
    } else if k > 0 {
      assert ts[1..][k - 1] == ts[k];
      HoistLeaves(ts[1..], k - 1);
    }
  }
}
