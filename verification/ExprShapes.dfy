/**
 When expr_eq answers yes (scripts/config/expr.c:135-233). An expression up to the order of the operands of its AND
 and OR is its shape; where no literal y or n is an operand, expr_eq holds exactly for equal shapes, but for one
 weakness: of two foreign constants on one level both are left over.
 */
module ExprShapes {
  import opened Options
  import opened Expressions
  import opened Levels
  import opened Equality

  /** A tree in which the operands of a nest have no order. */
  datatype Shape = Atom(e: Expr) | Neg(x: Shape) | Nest(op: Op, operands: multiset<Shape>)

  ghost function ShapeOf(e: Expr): Shape
    decreases Size(e)
  {
    match e
    case Sym(_) => Atom(e)
    case Cmp(_, _, _) => Atom(e)
    case Not(x) => Neg(ShapeOf(x))
    case Bin(op, _, _) =>
      var ls := Leaves(op, e);
      assert IsOp(op, e);
      Nest(op, multiset(seq(|ls|, k requires 0 <= k < |ls| => ShapeOf(ls[k]))))
  }

  ghost function Shapes(ls: seq<Expr>): (r: seq<Shape>)
    ensures |r| == |ls| && forall k :: 0 <= k < |ls| ==> r[k] == ShapeOf(ls[k])
  {
    seq(|ls|, k requires 0 <= k < |ls| => ShapeOf(ls[k]))
  }

  /** The operands of a level without their order. */
  ghost function Bag(ls: seq<Expr>): multiset<Shape> {
    multiset(Shapes(ls))
  }

  lemma ShapeOfNest(e: Expr)
    requires e.Bin?
    ensures ShapeOf(e) == Nest(e.op, Bag(Leaves(e.op, e)))
  {
    var ls := Leaves(e.op, e);
    assert Shapes(ls) == seq(|ls|, k requires 0 <= k < |ls| => ShapeOf(ls[k]));
  }

  lemma BagUpdate(ls: seq<Expr>, i: nat, x: Expr)
    requires i < |ls|
    ensures Bag(ls[i := x]) == Bag(ls) - multiset{ShapeOf(ls[i])} + multiset{ShapeOf(x)}
    ensures ShapeOf(ls[i]) in Bag(ls)
  {
    assert Shapes(ls[i := x]) == Shapes(ls)[i := ShapeOf(x)];
    assert Shapes(ls)[i] == ShapeOf(ls[i]);
  }

  lemma InBag(ls: seq<Expr>, t: Shape)
    ensures t in Bag(ls) <==> exists k :: 0 <= k < |ls| && ShapeOf(ls[k]) == t
  {
    if t in Bag(ls) {
      var k :| 0 <= k < |Shapes(ls)| && Shapes(ls)[k] == t;
      assert ShapeOf(ls[k]) == t;
    }
    if k :| 0 <= k < |ls| && ShapeOf(ls[k]) == t { assert Shapes(ls)[k] == t; }
  }

  /** No operand of an AND or OR is a literal y or n, at any depth. */
  predicate NoLiterals(e: Expr) {
    match e
    case Sym(_) => true
    case Cmp(_, _, _) => true
    case Not(x) => NoLiterals(x)
    case Bin(_, l, r) => !IsYn(l) && !IsYn(r) && NoLiterals(l) && NoLiterals(r)
  }

  lemma {:induction false} LeavesNoLiterals(op: Op, e: Expr)
    requires NoLiterals(e)
    ensures forall k :: 0 <= k < |Leaves(op, e)| ==> NoLiterals(Leaves(op, e)[k])
    ensures IsOp(op, e) ==> forall k :: 0 <= k < |Leaves(op, e)| ==> !IsYn(Leaves(op, e)[k])
  {
    if IsOp(op, e) {
      LeavesNoLiterals(op, e.l);
      LeavesNoLiterals(op, e.r);
    }
  }

  lemma {:induction false} NoLiteralsFixed(e: Expr)
    requires NoLiterals(e)
    ensures EliminateYn(e) == e
  {
    NoYn(e);
    EliminateYnShrinks(e);
  }

  lemma {:induction false} NoYn(e: Expr)
    requires NoLiterals(e)
    ensures !HasYn(e)
  {
    if e.Bin? {
      NoYn(e.l);
      NoYn(e.r);
    }
  }

  /** A constant other than y, m and n in the place of a value. */
  predicate Foreign(t: Shape) {
    t.Atom? && t.e.Sym? && t.e.s.Const?
  }

  /** On no level stand two such constants. */
  ghost predicate Sparse(t: Shape) {
    match t
    case Atom(_) => true
    case Neg(x) => Sparse(x)
    case Nest(_, ts) =>
      && (forall x :: x in ts ==> Sparse(x))
      && (forall x, y :: x in ts && y in ts && Foreign(x) && Foreign(y) ==> x == y && ts[x] == 1)
  }

  // ----- one pass over two levels -----

  /** What a pass can take out: the guard of __expr_eliminate_eq leaves constants alone. */
  ghost predicate Matchable(keepConst: bool, t: Shape) {
    Sparse(t) && !(keepConst && Foreign(t))
  }

  /** expr_eq of the two is what their shapes say. */
  ghost predicate Exact(a: Expr, b: Expr) {
    ExprEq(a, b) <==> ShapeOf(a) == ShapeOf(b) && Sparse(ShapeOf(a))
  }

  /** The two levels of a pass: no literals, and expr_eq is exact between them. */
  ghost predicate Plain(la: seq<Expr>, lb: seq<Expr>) {
    && (forall i :: 0 <= i < |la| ==> NoLiterals(la[i]) && !IsYn(la[i]))
    && (forall j :: 0 <= j < |lb| ==> NoLiterals(lb[j]))
    && (forall i, j {:trigger Exact(la[i], lb[j])} :: 0 <= i < |la| && 0 <= j < |lb| ==> Exact(la[i], lb[j]))
  }

  /** Every slot is as it was or was taken out, which only matchable ones are. */
  ghost predicate TakenFrom(op: Op, keepConst: bool, ls: seq<Expr>, now: seq<Expr>) {
    |now| == |ls| && forall k {:trigger now[k]} :: 0 <= k < |ls| ==>
      now[k] == ls[k] || (now[k] == Sym(NeutralSym(op)) && Matchable(keepConst, ShapeOf(ls[k])))
  }

  ghost predicate Passing(op: Op, keepConst: bool, la: seq<Expr>, lb: seq<Expr>, m: Match) {
    && TakenFrom(op, keepConst, la, m.ls1) && TakenFrom(op, keepConst, lb, m.ls2)
    && Bag(m.ls1) + Bag(lb) == Bag(m.ls2) + Bag(la)
  }

  /** Slot i of the first side finds no partner any more. */
  ghost predicate Alone(keepConst: bool, m: Match, i: nat, j: nat)
    requires i < |m.ls1| && j < |m.ls2|
  {
    IsYn(m.ls1[i]) || ShapeOf(m.ls1[i]) != ShapeOf(m.ls2[j]) || !Matchable(keepConst, ShapeOf(m.ls1[i]))
  }

  lemma PairMatches(op: Op, keepConst: bool, la: seq<Expr>, lb: seq<Expr>, m: Match, i: nat, j: nat)
    requires Plain(la, lb) && Passing(op, keepConst, la, lb, m) && i < |la| && j < |lb|
    ensures !(keepConst && Guarded(m.ls1[i], m.ls2[j])) && ExprEq(m.ls1[i], m.ls2[j]) && !IsYn(m.ls1[i])
       <==> !Alone(keepConst, m, i, j)
  {
    var p, q := m.ls1[i], m.ls2[j];
    if p == la[i] && q == lb[j] {
      assert Exact(p, q);
    }
  }

  /** Later matches leave a slot without partner alone. */
  ghost predicate OnlyTaken(op: Op, m: Match, r: Match) {
    && |r.ls1| == |m.ls1| && |r.ls2| == |m.ls2|
    && (forall k :: 0 <= k < |m.ls1| ==> r.ls1[k] == m.ls1[k] || r.ls1[k] == Sym(NeutralSym(op)))
    && (forall k :: 0 <= k < |m.ls2| ==> r.ls2[k] == m.ls2[k] || r.ls2[k] == Sym(NeutralSym(op)))
  }

  lemma AloneStays(op: Op, keepConst: bool, m: Match, r: Match, k: nat, t: nat)
    requires OnlyTaken(op, m, r) && k < |m.ls1| && t < |m.ls2| && Alone(keepConst, m, k, t)
    ensures Alone(keepConst, r, k, t)
  {
    if r.ls1[k] == m.ls1[k] && !IsYn(m.ls1[k]) && r.ls2[t] != m.ls2[t] {
      assert ShapeOf(r.ls2[t]) == Atom(Sym(NeutralSym(op)));
    }
  }

  function TakenOut(op: Op, m: Match, i: nat, j: nat): Match
    requires i < |m.ls1| && j < |m.ls2|
  {
    var one := Sym(NeutralSym(op));
    Match(m.ls1[i := one], m.ls2[j := one], m.matched + [m.ls1[i]])
  }

  lemma TakePair(op: Op, keepConst: bool, la: seq<Expr>, lb: seq<Expr>, m: Match, i: nat, j: nat)
    requires Plain(la, lb) && Passing(op, keepConst, la, lb, m) && i < |la| && j < |lb|
    requires !(keepConst && Guarded(m.ls1[i], m.ls2[j])) && ExprEq(m.ls1[i], m.ls2[j])
    ensures Passing(op, keepConst, la, lb, TakenOut(op, m, i, j)) && OnlyTaken(op, m, TakenOut(op, m, i, j))
  {
    var one := Sym(NeutralSym(op));
    if IsYn(m.ls1[i]) {
      assert m.ls1[i := one] == m.ls1 && m.ls2[j := one] == m.ls2;
    } else {
      PairMatches(op, keepConst, la, lb, m, i, j);
      TakeNew(op, keepConst, la, lb, m, i, j);
    }
  }

  lemma TakeNew(op: Op, keepConst: bool, la: seq<Expr>, lb: seq<Expr>, m: Match, i: nat, j: nat)
    requires Passing(op, keepConst, la, lb, m) && i < |la| && j < |lb| && !Alone(keepConst, m, i, j)
    ensures Passing(op, keepConst, la, lb, TakenOut(op, m, i, j))
  {
    var one := Sym(NeutralSym(op));
    BagUpdate(m.ls1, i, one);
    BagUpdate(m.ls2, j, one);
    BagsMove(Bag(m.ls1), Bag(m.ls2), Bag(la), Bag(lb), ShapeOf(m.ls1[i]), ShapeOf(one));
    SlotTaken(op, keepConst, la, m.ls1, i);
    assert Matchable(keepConst, ShapeOf(m.ls2[j]));
    SlotTaken(op, keepConst, lb, m.ls2, j);
  }

  lemma SlotTaken(op: Op, keepConst: bool, ls: seq<Expr>, now: seq<Expr>, i: nat)
    requires TakenFrom(op, keepConst, ls, now) && i < |ls| && Matchable(keepConst, ShapeOf(now[i]))
    ensures TakenFrom(op, keepConst, ls, now[i := Sym(NeutralSym(op))])
  {
  }

  lemma BagsMove(a: multiset<Shape>, b: multiset<Shape>, la: multiset<Shape>, lb: multiset<Shape>, x: Shape, y: Shape)
    requires a + lb == b + la && x in a && x in b
    ensures (a - multiset{x} + multiset{y}) + lb == (b - multiset{x} + multiset{y}) + la
  {
    var a', b' := a - multiset{x} + multiset{y}, b - multiset{x} + multiset{y};
    forall s ensures (a' + lb)[s] == (b' + la)[s] { assert (a + lb)[s] == (b + la)[s]; }
  }

  lemma StillBounded(op: Op, m: Match, i: nat, j: nat, bound: nat)
    requires i < |m.ls1| && j < |m.ls2| && Bounded(m, bound)
    ensures Bounded(TakenOut(op, m, i, j), bound)
  {
    var r := TakenOut(op, m, i, j);
    forall p, q | 0 <= p < |r.ls1| && 0 <= q < |r.ls2| ensures Size(r.ls1[p]) + Size(r.ls2[q]) < bound {
      assert Size(r.ls1[p]) <= Size(m.ls1[p]) && Size(r.ls2[q]) <= Size(m.ls2[q]);
    }
  }

  /** Slot i is alone among the slots from j on. */
  ghost predicate RowAlone(keepConst: bool, m: Match, i: nat, j: nat)
    requires i < |m.ls1|
  {
    forall t :: j <= t < |m.ls2| ==> Alone(keepConst, m, i, t)
  }

  lemma OnlyTakenTrans(op: Op, a: Match, b: Match, c: Match)
    requires OnlyTaken(op, a, b) && OnlyTaken(op, b, c)
    ensures OnlyTaken(op, a, c)
  {
  }

  lemma RowGoesOn(op: Op, keepConst: bool, m: Match, r: Match, i: nat, j: nat)
    requires OnlyTaken(op, m, r) && i < |m.ls1| && j < |m.ls2| && RowAlone(keepConst, r, i, j + 1)
    requires IsYn(m.ls1[i]) || Alone(keepConst, m, i, j)
    ensures RowAlone(keepConst, r, i, j)
  {
    AloneStays(op, keepConst, m, r, i, j);
  }

  /** One pair of slots. */
  function AfterPair(op: Op, keepConst: bool, m: Match, i: nat, j: nat): Match
    requires i < |m.ls1| && j < |m.ls2|
  {
    if !(keepConst && Guarded(m.ls1[i], m.ls2[j])) && ExprEq(m.ls1[i], m.ls2[j]) then TakenOut(op, m, i, j) else m
  }

  /** A row, pair by pair. */
  function RowBy(op: Op, keepConst: bool, m: Match, i: nat, j: nat): (r: Match)
    requires i < |m.ls1| && j <= |m.ls2|
    ensures |r.ls1| == |m.ls1| && |r.ls2| == |m.ls2|
    decreases |m.ls2| - j
  {
    if j == |m.ls2| then m else RowBy(op, keepConst, AfterPair(op, keepConst, m, i, j), i, j + 1)
  }

  lemma {:induction false} RowIs(op: Op, keepConst: bool, m: Match, i: nat, j: nat, bound: nat)
    requires i < |m.ls1| && j <= |m.ls2| && Bounded(m, bound)
    ensures MatchRow(op, keepConst, m, i, j, bound) == RowBy(op, keepConst, m, i, j)
    decreases |m.ls2| - j
  {
    if j < |m.ls2| {
      StillBounded(op, m, i, j, bound);
      RowIs(op, keepConst, AfterPair(op, keepConst, m, i, j), i, j + 1, bound);
    }
  }

  lemma AfterPairOk(op: Op, keepConst: bool, la: seq<Expr>, lb: seq<Expr>, m: Match, i: nat, j: nat)
    requires Plain(la, lb) && Passing(op, keepConst, la, lb, m) && i < |la| && j < |lb|
    ensures var m' := AfterPair(op, keepConst, m, i, j);
            && Passing(op, keepConst, la, lb, m') && OnlyTaken(op, m, m')
            && (IsYn(m'.ls1[i]) || Alone(keepConst, m', i, j))
  {
    PairMatches(op, keepConst, la, lb, m, i, j);
    if AfterPair(op, keepConst, m, i, j) != m { TakePair(op, keepConst, la, lb, m, i, j); }
  }

  lemma {:induction false} RowPass(op: Op, keepConst: bool, la: seq<Expr>, lb: seq<Expr>, m: Match, i: nat, j: nat)
    requires Plain(la, lb) && Passing(op, keepConst, la, lb, m) && i < |la| && j <= |lb|
    ensures Passing(op, keepConst, la, lb, RowBy(op, keepConst, m, i, j))
    decreases |lb| - j
  {
    if j < |lb| {
      AfterPairOk(op, keepConst, la, lb, m, i, j);
      RowPass(op, keepConst, la, lb, AfterPair(op, keepConst, m, i, j), i, j + 1);
    }
  }

  lemma PairOnlyTakes(op: Op, keepConst: bool, m: Match, i: nat, j: nat)
    requires i < |m.ls1| && j < |m.ls2|
    ensures OnlyTaken(op, m, AfterPair(op, keepConst, m, i, j))
  {
  }

  lemma {:induction false} RowOnlyTakes(op: Op, keepConst: bool, m: Match, i: nat, j: nat)
    requires i < |m.ls1| && j <= |m.ls2|
    ensures OnlyTaken(op, m, RowBy(op, keepConst, m, i, j))
    decreases |m.ls2| - j
  {
    if j < |m.ls2| {
      var m' := AfterPair(op, keepConst, m, i, j);
      PairOnlyTakes(op, keepConst, m, i, j);
      RowOnlyTakes(op, keepConst, m', i, j + 1);
      OnlyTakenTrans(op, m, m', RowBy(op, keepConst, m', i, j + 1));
    }
  }

  lemma {:induction false} RowLeavesAlone(op: Op, keepConst: bool, la: seq<Expr>, lb: seq<Expr>, m: Match,
                                          i: nat, j: nat)
    requires Plain(la, lb) && Passing(op, keepConst, la, lb, m) && i < |la| && j <= |lb|
    ensures RowAlone(keepConst, RowBy(op, keepConst, m, i, j), i, j)
    decreases |lb| - j
  {
    if j < |lb| {
      var m' := AfterPair(op, keepConst, m, i, j);
      AfterPairOk(op, keepConst, la, lb, m, i, j);
      RowLeavesAlone(op, keepConst, la, lb, m', i, j + 1);
      RowOnlyTakes(op, keepConst, m', i, j + 1);
      RowGoesOn(op, keepConst, m', RowBy(op, keepConst, m', i, j + 1), i, j);
    }
  }

  /** The first n slots are alone. */
  ghost predicate RowsAlone(keepConst: bool, m: Match, n: nat)
    requires n <= |m.ls1|
  {
    forall k :: 0 <= k < n ==> RowAlone(keepConst, m, k, 0)
  }

  lemma RowAloneStays(op: Op, keepConst: bool, m: Match, r: Match, k: nat)
    requires OnlyTaken(op, m, r) && k < |m.ls1| && RowAlone(keepConst, m, k, 0)
    ensures RowAlone(keepConst, r, k, 0)
  {
    forall t | 0 <= t < |r.ls2| ensures Alone(keepConst, r, k, t) { AloneStays(op, keepConst, m, r, k, t); }
  }

  lemma RowsAloneMore(op: Op, keepConst: bool, m: Match, r: Match, i: nat)
    requires OnlyTaken(op, m, r) && i < |m.ls1| && RowsAlone(keepConst, m, i) && RowAlone(keepConst, r, i, 0)
    ensures RowsAlone(keepConst, r, i + 1)
  {
    forall k | 0 <= k < i + 1 ensures RowAlone(keepConst, r, k, 0) {
      if k < i { RowAloneStays(op, keepConst, m, r, k); }
    }
  }

  /** All rows, pair by pair. */
  function RowsBy(op: Op, keepConst: bool, m: Match, i: nat): Match
    requires i <= |m.ls1|
    decreases |m.ls1| - i
  {
    if i == |m.ls1| then m else RowsBy(op, keepConst, RowBy(op, keepConst, m, i, 0), i + 1)
  }

  lemma {:induction false} RowsAre(op: Op, keepConst: bool, m: Match, i: nat, bound: nat)
    requires i <= |m.ls1| && Bounded(m, bound)
    ensures MatchRows(op, keepConst, m, i, bound) == RowsBy(op, keepConst, m, i)
    decreases |m.ls1| - i
  {
    if i < |m.ls1| {
      RowIs(op, keepConst, m, i, 0, bound);
      RowsAre(op, keepConst, MatchRow(op, keepConst, m, i, 0, bound), i + 1, bound);
    }
  }

  lemma LevelsAre(op: Op, keepConst: bool, a: Expr, b: Expr)
    requires IsOp(op, a) || IsOp(op, b)
    ensures MatchLevels(op, keepConst, a, b) == RowsBy(op, keepConst, Match(Leaves(op, a), Leaves(op, b), []), 0)
  {
    LevelsBounded(op, a, b);
    RowsAre(op, keepConst, Match(Leaves(op, a), Leaves(op, b), []), 0, Size(a) + Size(b));
  }

  lemma RowDone(op: Op, keepConst: bool, la: seq<Expr>, lb: seq<Expr>, m: Match, i: nat)
    requires Plain(la, lb) && Passing(op, keepConst, la, lb, m) && i < |la| && RowsAlone(keepConst, m, i)
    ensures var r := RowBy(op, keepConst, m, i, 0);
            Passing(op, keepConst, la, lb, r) && RowsAlone(keepConst, r, i + 1)
  {
    RowPass(op, keepConst, la, lb, m, i, 0);
    RowLeavesAlone(op, keepConst, la, lb, m, i, 0);
    RowOnlyTakes(op, keepConst, m, i, 0);
    RowsAloneMore(op, keepConst, m, RowBy(op, keepConst, m, i, 0), i);
  }

  lemma {:induction false} RowsPass(op: Op, keepConst: bool, la: seq<Expr>, lb: seq<Expr>, m: Match, i: nat)
    requires Plain(la, lb) && Passing(op, keepConst, la, lb, m) && i <= |la| && RowsAlone(keepConst, m, i)
    ensures var r := RowsBy(op, keepConst, m, i); Passing(op, keepConst, la, lb, r) && RowsAlone(keepConst, r, |la|)
    decreases |la| - i
  {
    if i < |la| {
      RowDone(op, keepConst, la, lb, m, i);
      RowsPass(op, keepConst, la, lb, RowBy(op, keepConst, m, i, 0), i + 1);
    }
  }

  /** What is left of each shape: all of it if it cannot be taken out, else what the other side does not have. */
  ghost predicate LeftOver(keepConst: bool, ls: multiset<Shape>, other: multiset<Shape>, t: Shape, left: nat) {
    left == if !Matchable(keepConst, t) then ls[t] else if ls[t] <= other[t] then 0 else ls[t] - other[t]
  }

  lemma {:induction false} TakenBag(op: Op, keepConst: bool, ls: seq<Expr>, now: seq<Expr>, t: Shape)
    requires TakenFrom(op, keepConst, ls, now) && t != Atom(Sym(NeutralSym(op)))
    ensures Bag(now)[t] <= Bag(ls)[t] && (!Matchable(keepConst, t) ==> Bag(now)[t] == Bag(ls)[t])
  {
    if ls == [] {
      assert Shapes(ls) == Shapes(now) == [];
    } else {
      var n := |ls| - 1;
      TakenBag(op, keepConst, ls[..n], now[..n], t);
      BagLast(ls, t);
      BagLast(now, t);
    }
  }

  lemma BagLast(ls: seq<Expr>, t: Shape)
    requires ls != []
    ensures var n := |ls| - 1; Bag(ls)[t] == Bag(ls[..n])[t] + if ShapeOf(ls[n]) == t then 1 else 0
  {
    var n := |ls| - 1;
    BagSnoc(ls[..n], ls[n]);
    assert ls[..n] + [ls[n]] == ls;
  }

  lemma BagSnoc(ls: seq<Expr>, x: Expr)
    ensures Bag(ls + [x]) == Bag(ls) + multiset{ShapeOf(x)}
  {
    assert Shapes(ls + [x]) == Shapes(ls) + [ShapeOf(x)];
  }

  /** A pass leaves of each side exactly what the other has not. */
  lemma PassLeaves(op: Op, keepConst: bool, la: seq<Expr>, lb: seq<Expr>, r: Match, t: Shape)
    requires Plain(la, lb) && Passing(op, keepConst, la, lb, r) && t != Atom(Sym(SymY)) && t != Atom(Sym(SymN))
    requires RowsAlone(keepConst, r, |la|)
    ensures LeftOver(keepConst, Bag(la), Bag(lb), t, Bag(r.ls1)[t])
    ensures LeftOver(keepConst, Bag(lb), Bag(la), t, Bag(r.ls2)[t])
  {
    TakenBag(op, keepConst, la, r.ls1, t);
    TakenBag(op, keepConst, lb, r.ls2, t);
    assert Bag(r.ls1)[t] + Bag(lb)[t] == Bag(r.ls2)[t] + Bag(la)[t] by {
      assert (Bag(r.ls1) + Bag(lb))[t] == (Bag(r.ls2) + Bag(la))[t];
    }
    NotBoth(keepConst, r, t);
  }

  lemma NotBoth(keepConst: bool, r: Match, t: Shape)
    requires t != Atom(Sym(SymY)) && t != Atom(Sym(SymN)) && RowsAlone(keepConst, r, |r.ls1|)
    ensures !(Matchable(keepConst, t) && t in Bag(r.ls1) && t in Bag(r.ls2))
  {
    InBag(r.ls1, t);
    if Matchable(keepConst, t) && t in Bag(r.ls1) {
      var k :| 0 <= k < |r.ls1| && ShapeOf(r.ls1[k]) == t;
      assert RowAlone(keepConst, r, k, 0);
      forall s | 0 <= s < |r.ls2| ensures ShapeOf(r.ls2[s]) != t { assert Alone(keepConst, r, k, s); }
      InBag(r.ls2, t);
    }
  }

  // ----- what is left once y and n are eliminated -----

  /** The operands that were not taken out. */
  function Kept(op: Op, ls: seq<Expr>): seq<Expr> {
    if ls == [] then []
    else (if ls[0] == Sym(NeutralSym(op)) then [] else [ls[0]]) + Kept(op, ls[1..])
  }

  /** Slots with a taken out or a literal-free operand. */
  predicate Slotted(op: Op, ls: seq<Expr>) {
    forall k :: 0 <= k < |ls| ==> ls[k] == Sym(NeutralSym(op)) || (NoLiterals(ls[k]) && !IsYn(ls[k]))
  }

  lemma {:induction false} KeptConcat(op: Op, a: seq<Expr>, b: seq<Expr>)
    ensures Kept(op, a + b) == Kept(op, a) + Kept(op, b)
  {
    if a == [] {
      assert a + b == b;
    } else {
      var h := if a[0] == Sym(NeutralSym(op)) then [] else [a[0]];
      KeptConcat(op, a[1..], b);
      assert (a + b)[1..] == a[1..] + b;
      assert Kept(op, a + b) == h + Kept(op, a[1..] + b);
      assert h + (Kept(op, a[1..]) + Kept(op, b)) == h + Kept(op, a[1..]) + Kept(op, b);
    }
  }

  lemma {:induction false} KeptOk(op: Op, ls: seq<Expr>)
    requires Slotted(op, ls)
    ensures forall k :: 0 <= k < |Kept(op, ls)| ==> NoLiterals(Kept(op, ls)[k]) && !IsYn(Kept(op, ls)[k])
  {
    if ls != [] { KeptOk(op, ls[1..]); }
  }

  /** Nothing left gives the neutral constant, one operand itself, more an AND or OR. */
  ghost predicate Residual(op: Op, kept: seq<Expr>, r: Expr) {
    if kept == [] then r == Sym(NeutralSym(op)) else if |kept| == 1 then r == kept[0] else IsOp(op, r)
  }

  lemma ResidueOfBoth(op: Op, a: seq<Expr>, b: seq<Expr>, l: Expr, r: Expr)
    requires Residual(op, a, EliminateYn(l)) && Residual(op, b, EliminateYn(r))
    requires a != [] ==> !IsYn(a[0])
    requires b != [] ==> !IsYn(b[0])
    ensures Residual(op, a + b, EliminateYn(Bin(op, l, r)))
  {
    if a == [] {
      assert a + b == b;
    } else if b == [] {
      assert a + b == a;
    }
  }

  lemma {:induction false} ResidueIs(op: Op, e: Expr, ls: seq<Expr>)
    requires |ls| == |Leaves(op, e)| && Slotted(op, ls)
    ensures Residual(op, Kept(op, ls), EliminateYn(Refill(op, e, ls)))
  {
    if IsOp(op, e) {
      var n := |Leaves(op, e.l)|;
      ResidueIs(op, e.l, ls[..n]);
      ResidueIs(op, e.r, ls[n..]);
      KeptConcat(op, ls[..n], ls[n..]);
      KeptOk(op, ls[..n]);
      KeptOk(op, ls[n..]);
      assert ls[..n] + ls[n..] == ls;
      ResidueOfBoth(op, Kept(op, ls[..n]), Kept(op, ls[n..]), Refill(op, e.l, ls[..n]), Refill(op, e.r, ls[n..]));
    } else if ls[0] == Sym(NeutralSym(op)) {
      assert Kept(op, ls[1..]) == [];
    } else {
      assert Kept(op, ls[1..]) == [];
      NoLiteralsFixed(ls[0]);
    }
  }

  lemma {:induction false} KeptBag(op: Op, ls: seq<Expr>, t: Shape)
    requires t != Atom(Sym(NeutralSym(op)))
    ensures Bag(Kept(op, ls))[t] == Bag(ls)[t]
    decreases |ls|
  {
    if ls != [] {
      var n := |ls| - 1;
      KeptBag(op, ls[..n], t);
      KeptConcat(op, ls[..n], [ls[n]]);
      assert ls[..n] + [ls[n]] == ls;
      BagLast(ls, t);
      if ls[n] == Sym(NeutralSym(op)) {
        assert Kept(op, [ls[n]]) == [];
        assert Kept(op, ls) == Kept(op, ls[..n]);
      } else {
        assert Kept(op, [ls[n]]) == [ls[n]];
        BagSnoc(Kept(op, ls[..n]), ls[n]);
      }
    } else {
      assert Shapes(ls) == Shapes(Kept(op, ls)) == [];
    }
  }

  lemma KeptShape(op: Op, ls: seq<Expr>, k: nat)
    requires Slotted(op, ls) && k < |Kept(op, ls)|
    ensures var t := ShapeOf(Kept(op, ls)[k]); t != Atom(Sym(SymY)) && t != Atom(Sym(SymN)) && Bag(ls)[t] > 0
  {
    KeptOk(op, ls);
    var t := ShapeOf(Kept(op, ls)[k]);
    KeptBag(op, ls, t);
    InBag(Kept(op, ls), t);
  }

  /** Two slots of one shape. */
  lemma {:induction false} TwiceInBag(ls: seq<Expr>, i: nat, j: nat, t: Shape)
    requires i < j < |ls| && ShapeOf(ls[i]) == t == ShapeOf(ls[j])
    ensures Bag(ls)[t] >= 2
  {
    BagLast(ls, t);
    var n := |ls| - 1;
    if j < n { TwiceInBag(ls[..n], i, j, t); } else { InBag(ls[..n], t); assert ls[..n][i] == ls[i]; }
  }

  /** Every operand of the first level is in the second, as often, and can be taken out. */
  ghost predicate AllIn(keepConst: bool, la: seq<Expr>, lb: seq<Expr>) {
    forall t {:trigger Bag(la)[t]} :: t in Bag(la) ==> Bag(la)[t] <= Bag(lb)[t] && Matchable(keepConst, t)
  }

  /** Nothing is left of a level if and only if all of it is in the other. */
  lemma NoneKept(op: Op, keepConst: bool, la: seq<Expr>, lb: seq<Expr>, r: seq<Expr>)
    requires SideLeft(keepConst, Bag(la), Bag(lb), r) && Operands(la) && Slotted(op, r)
    ensures Kept(op, r) == [] <==> AllIn(keepConst, la, lb)
  {
    if Kept(op, r) == [] {
      forall t | t in Bag(la) ensures Bag(la)[t] <= Bag(lb)[t] && Matchable(keepConst, t) {
        AllFound(op, keepConst, la, lb, r, t);
      }
    }
    if Kept(op, r) != [] {
      KeptShape(op, r, 0);
      SomeMissing(op, keepConst, la, lb, r, ShapeOf(Kept(op, r)[0]));
    }
  }

  lemma AllFound(op: Op, keepConst: bool, la: seq<Expr>, lb: seq<Expr>, r: seq<Expr>, t: Shape)
    requires SideLeft(keepConst, Bag(la), Bag(lb), r) && Operands(la) && t in Bag(la) && Kept(op, r) == []
    ensures Bag(la)[t] <= Bag(lb)[t] && Matchable(keepConst, t)
  {
    OperandShape(la, t);
    KeptBag(op, r, t);
    assert Shapes(Kept(op, r)) == [];
    assert LeftOver(keepConst, Bag(la), Bag(lb), t, Bag(r)[t]);
  }

  lemma SomeMissing(op: Op, keepConst: bool, la: seq<Expr>, lb: seq<Expr>, r: seq<Expr>, t: Shape)
    requires SideLeft(keepConst, Bag(la), Bag(lb), r)
    requires t != Atom(Sym(SymY)) && t != Atom(Sym(SymN)) && Bag(r)[t] > 0
    ensures !AllIn(keepConst, la, lb)
  {
    assert LeftOver(keepConst, Bag(la), Bag(lb), t, Bag(r)[t]);
    if Matchable(keepConst, t) { assert Bag(la)[t] > Bag(lb)[t]; }
  }

  // ----- expr_eq -----

  /** What is left of two levels by expr_eliminate_eq. */
  ghost predicate LeftBehind(op: Op, la: seq<Expr>, lb: seq<Expr>, r: Match) {
    && Slotted(op, r.ls1) && Slotted(op, r.ls2) && |r.ls1| == |la| && |r.ls2| == |lb|
    && Bag(r.ls1) + Bag(lb) == Bag(r.ls2) + Bag(la)
    && SideLeft(true, Bag(la), Bag(lb), r.ls1) && SideLeft(true, Bag(lb), Bag(la), r.ls2)
  }

  ghost predicate SideLeft(keepConst: bool, bag: multiset<Shape>, other: multiset<Shape>, ls: seq<Expr>) {
    forall t {:trigger Bag(ls)[t]} :: t != Atom(Sym(SymY)) && t != Atom(Sym(SymN)) ==>
      LeftOver(keepConst, bag, other, t, Bag(ls)[t])
  }

  /** No literal among them. */
  predicate Operands(ls: seq<Expr>) {
    forall k :: 0 <= k < |ls| ==> NoLiterals(ls[k]) && !IsYn(ls[k])
  }

  lemma OperandShape(ls: seq<Expr>, t: Shape)
    requires Operands(ls) && t in Bag(ls)
    ensures t != Atom(Sym(SymY)) && t != Atom(Sym(SymN))
  {
    InBag(ls, t);
  }

  /** Equal levels leave behind at most one foreign constant, the same on both sides. */
  lemma EqualLeaves(op: Op, la: seq<Expr>, lb: seq<Expr>, r: Match)
    requires LeftBehind(op, la, lb, r) && Operands(la) && Operands(lb)
    requires Bag(la) == Bag(lb) && Sparse(Nest(op, Bag(la)))
    ensures Kept(op, r.ls1) == Kept(op, r.ls2) && |Kept(op, r.ls1)| <= 1
    ensures |Kept(op, r.ls1)| == 1 ==> Kept(op, r.ls1)[0].Sym?
  {
    SideForeign(op, Bag(la), r.ls1);
    SideForeign(op, Bag(la), r.ls2);
    KeptSame(op, Bag(la), r.ls1, r.ls2);
    KeptSame(op, Bag(la), r.ls2, r.ls1);
  }

  /** Of one side only a foreign constant is left. */
  lemma SideForeign(op: Op, bag: multiset<Shape>, ls: seq<Expr>)
    requires Slotted(op, ls) && SideLeft(true, bag, bag, ls) && Sparse(Nest(op, bag))
    ensures |Kept(op, ls)| <= 1
    ensures forall k :: 0 <= k < |Kept(op, ls)| ==> LeftForeign(op, bag, ls, ShapeOf(Kept(op, ls)[k]))
  {
    forall k | 0 <= k < |Kept(op, ls)| ensures LeftForeign(op, bag, ls, ShapeOf(Kept(op, ls)[k])) {
      KeptShape(op, ls, k);
      OneForeign(op, bag, ls, ShapeOf(Kept(op, ls)[k]));
    }
    AtMostOne(op, bag, ls);
  }

  lemma OneForeign(op: Op, bag: multiset<Shape>, ls: seq<Expr>, t: Shape)
    requires SideLeft(true, bag, bag, ls) && Sparse(Nest(op, bag))
    requires t != Atom(Sym(SymY)) && t != Atom(Sym(SymN)) && Bag(ls)[t] > 0
    ensures LeftForeign(op, bag, ls, t)
  {
    assert LeftOver(true, bag, bag, t, Bag(ls)[t]);
  }

  lemma KeptSame(op: Op, bag: multiset<Shape>, a: seq<Expr>, b: seq<Expr>)
    requires |Kept(op, a)| <= 1 && |Kept(op, b)| <= 1 && SideLeft(true, bag, bag, b)
    requires forall k :: 0 <= k < |Kept(op, a)| ==> LeftForeign(op, bag, a, ShapeOf(Kept(op, a)[k]))
    ensures Kept(op, a) != [] ==> Kept(op, a) == Kept(op, b) && Kept(op, a)[0].Sym?
  {
    if Kept(op, a) != [] {
      var x := Kept(op, a)[0];
      assert LeftForeign(op, bag, a, ShapeOf(x));
      assert LeftOver(true, bag, bag, ShapeOf(x), Bag(b)[ShapeOf(x)]);
      KeptBag(op, b, ShapeOf(x));
      InBag(Kept(op, b), ShapeOf(x));
      AtomBack(x, Kept(op, b)[0]);
    }
  }

  lemma AtomBack(x: Expr, y: Expr)
    requires ShapeOf(x) == ShapeOf(y) && Foreign(ShapeOf(x))
    ensures x == y && x.Sym?
  {
  }

  ghost predicate LeftForeign(op: Op, bag: multiset<Shape>, ls: seq<Expr>, t: Shape) {
    Foreign(t) && t in bag && Bag(ls)[t] == bag[t] && t != Atom(Sym(NeutralSym(op)))
  }

  lemma AtMostOne(op: Op, bag: multiset<Shape>, ls: seq<Expr>)
    requires Sparse(Nest(op, bag))
    requires forall k :: 0 <= k < |Kept(op, ls)| ==> LeftForeign(op, bag, ls, ShapeOf(Kept(op, ls)[k]))
    ensures |Kept(op, ls)| <= 1
  {
    var ks := Kept(op, ls);
    if |ks| > 1 {
      var t := ShapeOf(ks[0]);
      assert ShapeOf(ks[1]) == t;
      TwiceInBag(ks, 0, 1, t);
      KeptBag(op, ls, t);
      assert false;
    }
  }

  /** And the other way round: where the same operand or none is left, the levels were equal. */
  lemma LeavesEqual(op: Op, la: seq<Expr>, lb: seq<Expr>, r: Match)
    requires LeftBehind(op, la, lb, r) && Operands(la) && Operands(lb) && Kept(op, r.ls1) == Kept(op, r.ls2)
    requires Kept(op, r.ls1) == [] || (|Kept(op, r.ls1)| == 1 && Kept(op, r.ls1)[0].Sym?)
    ensures Bag(la) == Bag(lb) && Sparse(Nest(op, Bag(la)))
  {
    forall t ensures Bag(la)[t] == Bag(lb)[t] { SameCount(op, la, lb, r, t); }
    assert Bag(la) == Bag(lb);
    var ks := Kept(op, r.ls1);
    forall t | t in Bag(la) ensures Sparse(t) && (Foreign(t) ==> ks != [] && t == ShapeOf(ks[0]) && Bag(la)[t] == 1) {
      OperandShape(la, t);
      SideSparse(op, Bag(la), r.ls1, t);
    }
  }

  lemma SameCount(op: Op, la: seq<Expr>, lb: seq<Expr>, r: Match, t: Shape)
    requires LeftBehind(op, la, lb, r) && Operands(la) && Operands(lb) && Kept(op, r.ls1) == Kept(op, r.ls2)
    ensures Bag(la)[t] == Bag(lb)[t]
  {
    if t == Atom(Sym(SymY)) || t == Atom(Sym(SymN)) {
      if t in Bag(la) { OperandShape(la, t); }
      if t in Bag(lb) { OperandShape(lb, t); }
    } else {
      KeptBag(op, r.ls1, t);
      KeptBag(op, r.ls2, t);
      assert (Bag(r.ls1) + Bag(lb))[t] == (Bag(r.ls2) + Bag(la))[t];
    }
  }

  lemma SideSparse(op: Op, bag: multiset<Shape>, ls: seq<Expr>, t: Shape)
    requires SideLeft(true, bag, bag, ls) && t in bag && t != Atom(Sym(SymY)) && t != Atom(Sym(SymN))
    requires Kept(op, ls) == [] || (|Kept(op, ls)| == 1 && Kept(op, ls)[0].Sym?)
    ensures Sparse(t) && (Foreign(t) ==> Kept(op, ls) != [] && t == ShapeOf(Kept(op, ls)[0]) && bag[t] == 1)
  {
    assert LeftOver(true, bag, bag, t, Bag(ls)[t]);
    KeptBag(op, ls, t);
    InBag(Kept(op, ls), t);
    if Kept(op, ls) != [] {
      BagLast(Kept(op, ls), t);
      assert Shapes(Kept(op, ls)[..0]) == [];
    }
  }

  lemma PassSlotted(op: Op, keepConst: bool, la: seq<Expr>, now: seq<Expr>)
    requires TakenFrom(op, keepConst, la, now) && Operands(la)
    ensures Slotted(op, now)
  {
  }

  lemma PassSides(op: Op, keepConst: bool, la: seq<Expr>, lb: seq<Expr>, r: Match)
    requires Plain(la, lb) && Passing(op, keepConst, la, lb, r) && RowsAlone(keepConst, r, |la|)
    ensures SideLeft(keepConst, Bag(la), Bag(lb), r.ls1) && SideLeft(keepConst, Bag(lb), Bag(la), r.ls2)
  {
    forall t | t != Atom(Sym(SymY)) && t != Atom(Sym(SymN))
      ensures LeftOver(keepConst, Bag(la), Bag(lb), t, Bag(r.ls1)[t])
    {
      PassLeaves(op, keepConst, la, lb, r, t);
    }
    forall t | t != Atom(Sym(SymY)) && t != Atom(Sym(SymN))
      ensures LeftOver(keepConst, Bag(lb), Bag(la), t, Bag(r.ls2)[t])
    {
      PassLeaves(op, keepConst, la, lb, r, t);
    }
  }

  /** The whole pass over two levels. */
  lemma PassRuns(op: Op, keepConst: bool, a: Expr, b: Expr)
    requires IsOp(op, a) || IsOp(op, b)
    requires Plain(Leaves(op, a), Leaves(op, b))
    ensures var r := MatchLevels(op, keepConst, a, b);
            Passing(op, keepConst, Leaves(op, a), Leaves(op, b), r) && RowsAlone(keepConst, r, |r.ls1|)
  {
    LevelsAre(op, keepConst, a, b);
    RowsRun(op, keepConst, Leaves(op, a), Leaves(op, b));
  }

  lemma RowsRun(op: Op, keepConst: bool, la: seq<Expr>, lb: seq<Expr>)
    requires Plain(la, lb)
    ensures var r := RowsBy(op, keepConst, Match(la, lb, []), 0);
            Passing(op, keepConst, la, lb, r) && RowsAlone(keepConst, r, |r.ls1|)
  {
    PassStarts(op, keepConst, la, lb);
    RowsPass(op, keepConst, la, lb, Match(la, lb, []), 0);
  }

  lemma PassStarts(op: Op, keepConst: bool, la: seq<Expr>, lb: seq<Expr>)
    ensures Passing(op, keepConst, la, lb, Match(la, lb, []))
  {
  }

  lemma PassOf(op: Op, la: seq<Expr>, lb: seq<Expr>, r: Match)
    requires Plain(la, lb) && Passing(op, true, la, lb, r) && RowsAlone(true, r, |r.ls1|)
    requires Operands(la) && Operands(lb)
    ensures LeftBehind(op, la, lb, r)
  {
    PassSlotted(op, true, la, r.ls1);
    PassSlotted(op, true, lb, r.ls2);
    PassSides(op, true, la, lb, r);
  }

  lemma NestsExact(op: Op, a: Expr, b: Expr)
    requires IsOp(op, a) && IsOp(op, b) && Operands(Leaves(op, a)) && Operands(Leaves(op, b))
    requires Plain(Leaves(op, a), Leaves(op, b))
    ensures Exact(a, b)
  {
    var la, lb, m := Leaves(op, a), Leaves(op, b), MatchLevels(op, true, a, b);
    PassRuns(op, true, a, b);
    PassOf(op, la, lb, m);
    ShapeOfNest(a);
    ShapeOfNest(b);
    KeptCompared(op, a, b);
    if Bag(la) == Bag(lb) && Sparse(Nest(op, Bag(la))) { EqualLeaves(op, la, lb, m); }
    if ExprEq(a, b) { LeavesEqual(op, la, lb, m); }
  }

  /** expr_eq of two nests, in terms of the operands left. */
  lemma KeptCompared(op: Op, a: Expr, b: Expr)
    requires IsOp(op, a) && IsOp(op, b)
    requires Slotted(op, MatchLevels(op, true, a, b).ls1) && Slotted(op, MatchLevels(op, true, a, b).ls2)
    ensures var m := MatchLevels(op, true, a, b);
            var ka, kb := Kept(op, m.ls1), Kept(op, m.ls2);
            ExprEq(a, b) <==> ka == kb && (ka == [] || (|ka| == 1 && ka[0].Sym?))
  {
    var m := MatchLevels(op, true, a, b);
    ResidueIs(op, a, m.ls1);
    ResidueIs(op, b, m.ls2);
    KeptOk(op, m.ls1);
    KeptOk(op, m.ls2);
    NestsCompared(op, a, b);
    KeptNeutral(op, Kept(op, m.ls1), EliminateYn(Refill(op, a, m.ls1)), Kept(op, m.ls2),
                EliminateYn(Refill(op, b, m.ls2)));
  }

  lemma KeptNeutral(op: Op, ka: seq<Expr>, x: Expr, kb: seq<Expr>, y: Expr)
    requires Residual(op, ka, x) && Residual(op, kb, y)
    requires ka != [] ==> !IsYn(ka[0])
    requires kb != [] ==> !IsYn(kb[0])
    ensures x.Sym? && x == y <==> ka == kb && (ka == [] || (|ka| == 1 && ka[0].Sym?))
  {
  }

  /** expr_eq of two nests of one operator, in terms of the one pass that is made. */
  lemma NestsCompared(op: Op, a: Expr, b: Expr)
    requires IsOp(op, a) && IsOp(op, b)
    ensures var m := MatchLevels(op, true, a, b);
            var x, y := EliminateYn(Refill(op, a, m.ls1)), EliminateYn(Refill(op, b, m.ls2));
            ExprEq(a, b) <==> x.Sym? && x == y
  {
    MatchTreesKeepsOp(op, a, b);
  }

  /**
   Where no literal y or n is an operand, expr_eq answers yes if and only if the two are equal up to the order of
   operands, at every depth, and no level holds two foreign constants.
   */
  lemma {:induction false} ExprEqExact(a: Expr, b: Expr)
    requires NoLiterals(a) && NoLiterals(b)
    ensures ExprEq(a, b) <==> ShapeOf(a) == ShapeOf(b) && Sparse(ShapeOf(a))
    decreases Size(a) + Size(b)
  {
    match (a, b)
    case (Not(x), Not(y)) => ExprEqExact(x, y);
    case (Bin(op, _, _), Bin(op', _, _)) =>
      if op == op' {
        var la, lb := Leaves(op, a), Leaves(op, b);
        LeavesNoLiterals(op, a);
        LeavesNoLiterals(op, b);
        forall i, j | 0 <= i < |la| && 0 <= j < |lb| ensures Exact(la[i], lb[j]) { ExprEqExact(la[i], lb[j]); }
        NestsExact(op, a, b);
      }
    case _ =>
  }

  /** Two literal-free levels, of which the first is one of op. */
  lemma PlainLevels(op: Op, a: Expr, b: Expr)
    requires NoLiterals(a) && NoLiterals(b) && IsOp(op, a)
    ensures Plain(Leaves(op, a), Leaves(op, b)) && Operands(Leaves(op, a))
    ensures IsOp(op, b) ==> Operands(Leaves(op, b))
  {
    var la, lb := Leaves(op, a), Leaves(op, b);
    LeavesNoLiterals(op, a);
    LeavesNoLiterals(op, b);
    forall i, j | 0 <= i < |la| && 0 <= j < |lb| ensures Exact(la[i], lb[j]) { ExprEqExact(la[i], lb[j]); }
  }

  /** In particular: every permutation of the operands. */
  lemma PermutedEqual(op: Op, a: Expr, b: Expr)
    requires IsOp(op, a) && IsOp(op, b) && NoLiterals(a) && NoLiterals(b)
    requires multiset(Leaves(op, a)) == multiset(Leaves(op, b))
    ensures ExprEq(a, b) <==> Sparse(ShapeOf(a))
  {
    ExprEqExact(a, b);
    ShapeOfNest(a);
    ShapeOfNest(b);
    BagOfSame(Leaves(op, a), Leaves(op, b));
  }

  lemma {:induction false} BagOfSame(a: seq<Expr>, b: seq<Expr>)
    requires multiset(a) == multiset(b)
    ensures Bag(a) == Bag(b)
  {
    if a == [] {
      assert |b| == |multiset(b)| == 0;
      assert Shapes(a) == Shapes(b);
    } else {
      var n := |a| - 1;
      assert a[n] in multiset(b);
      var j :| 0 <= j < |b| && b[j] == a[n];
      var b' := b[..j] + b[j + 1..];
      WithoutOne(b, j);
      WithoutOne(a, n);
      assert a[..n] + a[n + 1..] == a[..n];
      Cancel(multiset(a[..n]), multiset(b'), a[n]);
      BagOfSame(a[..n], b');
      BagSplit(a, n);
      BagSplit(b, j);
    }
  }

  lemma WithoutOne(s: seq<Expr>, k: nat)
    requires k < |s|
    ensures multiset(s) == multiset(s[..k] + s[k + 1..]) + multiset{s[k]}
  {
    assert s == s[..k] + [s[k]] + s[k + 1..];
  }

  lemma Cancel(m: multiset<Expr>, n: multiset<Expr>, x: Expr)
    requires m + multiset{x} == n + multiset{x}
    ensures m == n
  {
    forall y ensures m[y] == n[y] { assert (m + multiset{x})[y] == (n + multiset{x})[y]; }
  }

  lemma BagSplit(b: seq<Expr>, j: nat)
    requires j < |b|
    ensures Bag(b) == Bag(b[..j] + b[j + 1..]) + multiset{ShapeOf(b[j])}
  {
    assert Shapes(b) == Shapes(b[..j]) + [ShapeOf(b[j])] + Shapes(b[j + 1..]);
    assert Shapes(b[..j] + b[j + 1..]) == Shapes(b[..j]) + Shapes(b[j + 1..]);
  }

  // ----- an expression and itself -----

  /** No constant other than y, m and n stands in the place of a value. */
  predicate NoForeign(e: Expr) {
    match e
    case Sym(s) => !s.Const?
    case Cmp(_, _, _) => true
    case Not(x) => NoForeign(x)
    case Bin(_, l, r) => NoForeign(l) && NoForeign(r)
  }

  lemma {:induction false} LeavesNoForeign(op: Op, e: Expr)
    requires NoForeign(e)
    ensures forall k :: 0 <= k < |Leaves(op, e)| ==> NoForeign(Leaves(op, e)[k])
  {
    if IsOp(op, e) {
      LeavesNoForeign(op, e.l);
      LeavesNoForeign(op, e.r);
    }
  }

  /** A literal y or n in slot i is matched with nothing. */
  lemma {:induction false} LiteralRow(op: Op, m: Match, i: nat, j: nat)
    requires i < |m.ls1| && j <= |m.ls2| && IsYn(m.ls1[i])
    ensures RowBy(op, true, m, i, j) == m
    decreases |m.ls2| - j
  {
    if j < |m.ls2| {
      assert ExprEq(m.ls1[i], m.ls2[j]) ==> Guarded(m.ls1[i], m.ls2[j]);
      LiteralRow(op, m, i, j + 1);
    }
  }

  /** With only literals before it, slot i is matched with its own copy. */
  lemma {:induction false} OwnRow(op: Op, m: Match, i: nat, j: nat)
    requires j <= i < |m.ls1| && i < |m.ls2| && !IsYn(m.ls1[i]) && NoForeign(m.ls1[i])
    requires m.ls2[i] == m.ls1[i] && ExprEq(m.ls1[i], m.ls1[i])
    requires forall t :: j <= t < i ==> IsYn(m.ls2[t])
    ensures RowBy(op, true, m, i, j) == TakenOut(op, m, i, i)
    decreases i - j
  {
    if j < i {
      assert !ExprEq(m.ls1[i], m.ls2[j]);
      OwnRow(op, m, i, j + 1);
    } else {
      OwnPair(op, m, i);
      LiteralRow(op, TakenOut(op, m, i, i), i, i + 1);
    }
  }

  lemma OwnPair(op: Op, m: Match, i: nat)
    requires i < |m.ls1| && i < |m.ls2| && !IsYn(m.ls1[i]) && NoForeign(m.ls1[i])
    requires m.ls2[i] == m.ls1[i] && ExprEq(m.ls1[i], m.ls1[i])
    ensures AfterPair(op, true, m, i, i) == TakenOut(op, m, i, i) && IsYn(TakenOut(op, m, i, i).ls1[i])
  {
  }

  /** Both sides alike: literals below i, the operands themselves from there on. */
  predicate Alike(la: seq<Expr>, m: Match, i: nat) {
    && m.ls1 == m.ls2 && |m.ls1| == |la| && i <= |la|
    && (forall k :: 0 <= k < i ==> IsYn(m.ls1[k]))
    && (forall k :: i <= k < |la| ==> m.ls1[k] == la[k])
  }

  lemma AlikeRow(op: Op, la: seq<Expr>, m: Match, i: nat)
    requires Alike(la, m, i) && i < |la| && NoForeign(la[i]) && ExprEq(la[i], la[i])
    ensures Alike(la, RowBy(op, true, m, i, 0), i + 1)
  {
    if IsYn(m.ls1[i]) { LiteralRow(op, m, i, 0); } else { OwnRow(op, m, i, 0); }
  }

  lemma {:induction false} AlikeRows(op: Op, la: seq<Expr>, m: Match, i: nat)
    requires Alike(la, m, i)
    requires forall k :: 0 <= k < |la| ==> NoForeign(la[k]) && ExprEq(la[k], la[k])
    ensures Alike(la, RowsBy(op, true, m, i), |la|)
    decreases |la| - i
  {
    if i < |la| {
      AlikeRow(op, la, m, i);
      AlikeRows(op, la, RowBy(op, true, m, i, 0), i + 1);
    }
  }

  lemma {:induction false} LiteralsOnly(op: Op, e: Expr, ls: seq<Expr>)
    requires |ls| == |Leaves(op, e)| && forall k :: 0 <= k < |ls| ==> IsYn(ls[k])
    ensures IsYn(EliminateYn(Refill(op, e, ls)))
  {
    if IsOp(op, e) {
      var n := |Leaves(op, e.l)|;
      LiteralsOnly(op, e.l, ls[..n]);
      LiteralsOnly(op, e.r, ls[n..]);
    }
  }

  /** Without foreign constants every expression is equal to itself, literals or not. */
  lemma {:induction false} ExprEqReflexive(e: Expr)
    requires NoForeign(e)
    ensures ExprEq(e, e)
    decreases Size(e)
  {
    match e
    case Not(x) => ExprEqReflexive(x);
    case Bin(op, _, _) =>
      var la := Leaves(op, e);
      LeavesNoForeign(op, e);
      forall k | 0 <= k < |la| ensures ExprEq(la[k], la[k]) { ExprEqReflexive(la[k]); }
      LevelReflexive(op, e);
    case _ =>
  }

  lemma LevelReflexive(op: Op, e: Expr)
    requires IsOp(op, e)
    requires forall k :: 0 <= k < |Leaves(op, e)| ==>
               NoForeign(Leaves(op, e)[k]) && ExprEq(Leaves(op, e)[k], Leaves(op, e)[k])
    ensures ExprEq(e, e)
  {
    var la := Leaves(op, e);
    LevelsAre(op, true, e, e);
    AlikeRows(op, la, Match(la, la, []), 0);
    LiteralsOnly(op, e, MatchLevels(op, true, e, e).ls1);
    NestsCompared(op, e, e);
  }

  // ----- literals under NOT -----

  /** A slot equal to none of the slots from j on. */
  lemma {:induction false} RowSkips(op: Op, m: Match, i: nat, j: nat)
    requires i < |m.ls1| && j <= |m.ls2|
    requires forall t :: j <= t < |m.ls2| ==> !ExprEq(m.ls1[i], m.ls2[t])
    ensures RowBy(op, true, m, i, j) == m
    decreases |m.ls2| - j
  {
    if j < |m.ls2| {
      assert !ExprEq(m.ls1[i], m.ls2[j]);
      RowSkips(op, m, i, j + 1);
    }
  }

  /** The first slot it is equal to. */
  lemma {:induction false} RowTakes(op: Op, m: Match, i: nat, j: nat, k: nat)
    requires i < |m.ls1| && j <= k < |m.ls2| && !m.ls1[i].Sym? && ExprEq(m.ls1[i], m.ls2[k])
    requires forall t :: j <= t < k ==> !ExprEq(m.ls1[i], m.ls2[t])
    ensures RowBy(op, true, m, i, j) == TakenOut(op, m, i, k)
    decreases k - j
  {
    if j < k {
      assert !ExprEq(m.ls1[i], m.ls2[j]);
      RowTakes(op, m, i, j + 1, k);
    } else {
      assert AfterPair(op, true, m, i, k) == TakenOut(op, m, i, k);
      LiteralRow(op, TakenOut(op, m, i, k), i, k + 1);
    }
  }

  lemma Leaf(op: Op, x: Expr)
    requires !IsOp(op, x)
    ensures Leaves(op, x) == [x]
  {
  }

  lemma TwoLeaves(op: Op, x: Expr, y: Expr)
    requires !IsOp(op, x) && !IsOp(op, y)
    ensures Leaves(op, Bin(op, x, y)) == [x, y]
  {
    Leaf(op, x);
    Leaf(op, y);
    assert [x] + [y] == [x, y];
  }

  lemma RefillTwo(op: Op, x: Expr, y: Expr, p: Expr, q: Expr)
    requires !IsOp(op, x) && !IsOp(op, y)
    ensures |Leaves(op, Bin(op, x, y))| == 2 && Refill(op, Bin(op, x, y), [p, q]) == Bin(op, p, q)
  {
    TwoLeaves(op, x, y);
    Leaf(op, x);
    Leaf(op, y);
    assert [p, q][..1] == [p] && [p, q][1..] == [q];
  }

  /** Two and two operands, in terms of what the rows leave. */
  lemma ComparedTwo(op: Op, x: Expr, y: Expr, p: Expr, q: Expr, x': Expr, y': Expr, p': Expr, q': Expr, ms: seq<Expr>)
    requires !IsOp(op, x) && !IsOp(op, y) && !IsOp(op, p) && !IsOp(op, q)
    requires RowsBy(op, true, Match([x, y], [p, q], []), 0) == Match([x', y'], [p', q'], ms)
    ensures var u, v := EliminateYn(Bin(op, x', y')), EliminateYn(Bin(op, p', q'));
            ExprEq(Bin(op, x, y), Bin(op, p, q)) <==> u.Sym? && u == v
  {
    TwoLeaves(op, x, y);
    TwoLeaves(op, p, q);
    LevelsAre(op, true, Bin(op, x, y), Bin(op, p, q));
    NestsCompared(op, Bin(op, x, y), Bin(op, p, q));
    RefillTwo(op, x, y, x', y');
    RefillTwo(op, p, q, p', q');
  }

  lemma RowsOfTwo(op: Op, m: Match, r: Match, q: Match)
    requires |m.ls1| == |r.ls1| == |q.ls1| == 2
    requires RowBy(op, true, m, 0, 0) == r && RowBy(op, true, r, 1, 0) == q
    ensures RowsBy(op, true, m, 0) == q
  {
    assert RowsBy(op, true, q, 2) == q;
    assert RowsBy(op, true, r, 1) == q;
  }

  /** `n || n`, `(n || n) && X` and `n && X` */
  const NN := Bin(OrOp, Sym(SymN), Sym(SymN))

  function Hidden(x: Symbol): Expr {
    Bin(AndOp, NN, Sym(x))
  }

  function Plainly(x: Symbol): Expr {
    Bin(AndOp, Sym(SymN), Sym(x))
  }

  predicate Differ(x: Symbol, y: Symbol) {
    x.Var? && y.Var? && x != y
  }

  lemma NoPair(x: Expr, y: Expr, p: Expr, q: Expr)
    requires !ExprEq(x, p) && !ExprEq(x, q) && !ExprEq(y, p) && !ExprEq(y, q)
    ensures var m := Match([x, y], [p, q], []); RowsBy(AndOp, true, m, 0) == m
  {
    var m := Match([x, y], [p, q], []);
    RowSkips(AndOp, m, 0, 0);
    RowSkips(AndOp, m, 1, 0);
    RowsOfTwo(AndOp, m, m, m);
  }

  lemma HiddenIsPlain(x: Symbol, y: Symbol)
    requires Differ(x, y)
    ensures ExprEq(Hidden(x), Plainly(y)) && ExprEq(Plainly(y), Hidden(x))
  {
    var (h, n, a, b) := (NN, Sym(SymN), Sym(x), Sym(y));
    NoPair(h, a, n, b);
    ComparedTwo(AndOp, h, a, n, b, h, a, n, b, []);
    NoPair(n, b, h, a);
    ComparedTwo(AndOp, n, b, h, a, n, b, h, a, []);
  }

  lemma HiddenIsNotHidden(x: Symbol, y: Symbol)
    requires Differ(x, y)
    ensures !ExprEq(Hidden(x), Hidden(y))
  {
    CommonLeft(NN, Sym(x), Sym(y));
  }

  lemma CommonLeft(h: Expr, a: Expr, b: Expr)
    requires !h.Sym? && !IsOp(AndOp, h) && NoForeign(h) && a.Sym? && b.Sym? && a != b && !IsYn(a) && !IsYn(b)
    ensures !ExprEq(Bin(AndOp, h, a), Bin(AndOp, h, b))
  {
    var one := Sym(SymY);
    ExprEqReflexive(h);
    CommonPart(h, a, b);
    ComparedTwo(AndOp, h, a, h, b, one, a, one, b, [h]);
  }

  lemma CommonPart(h: Expr, a: Expr, b: Expr)
    requires !h.Sym? && ExprEq(h, h) && a.Sym? && b.Sym? && a != b && !IsYn(a)
    ensures RowsBy(AndOp, true, Match([h, a], [h, b], []), 0) == Match([Sym(SymY), a], [Sym(SymY), b], [h])
  {
    var m, r := Match([h, a], [h, b], []), Match([Sym(SymY), a], [Sym(SymY), b], [h]);
    RowTakes(AndOp, m, 0, 0, 0);
    assert TakenOut(AndOp, m, 0, 0) == r;
    RowSkips(AndOp, r, 1, 0);
    RowsOfTwo(AndOp, m, r, r);
  }

  /** Of three operands the second equals both others, which do not equal each other; turned around, one is left. */
  lemma ThreeRows(op: Op, p: Expr, q: Expr, r: Expr)
    requires p.Not? && q.Not? && r.Not?
    requires ExprEq(p, q) && ExprEq(q, r) && !ExprEq(p, r) && !ExprEq(r, p)
    ensures var one := Sym(NeutralSym(op));
            RowsBy(op, true, Match([p, q, r], [r, q, p], []), 0) == Match([one, one, r], [one, one, p], [p, q])
  {
    var one := Sym(NeutralSym(op));
    var m0, m1 := Match([p, q, r], [r, q, p], []), Match([one, q, r], [r, one, p], [p]);
    var m2 := Match([one, one, r], [one, one, p], [p, q]);
    assert RowBy(op, true, m0, 0, 0) == m1 by {
      RowTakes(op, m0, 0, 0, 1);
      assert TakenOut(op, m0, 0, 1) == m1;
    }
    assert RowBy(op, true, m1, 1, 0) == m2 by {
      RowTakes(op, m1, 1, 0, 0);
      assert TakenOut(op, m1, 1, 0) == m2;
    }
    assert RowBy(op, true, m2, 2, 0) == m2 by { RowSkips(op, m2, 2, 0); }
    assert RowsBy(op, true, m2, 3) == m2;
    assert RowsBy(op, true, m2, 2) == m2;
    assert RowsBy(op, true, m1, 1) == m2;
  }

  function Three(op: Op, p: Expr, q: Expr, r: Expr): Expr {
    Bin(op, Bin(op, p, q), r)
  }

  lemma RefillThree(op: Op, p: Expr, q: Expr, r: Expr, p': Expr, q': Expr, r': Expr)
    requires p.Not? && q.Not? && r.Not?
    ensures Leaves(op, Three(op, p, q, r)) == [p, q, r]
    ensures Refill(op, Three(op, p, q, r), [p', q', r']) == Three(op, p', q', r')
  {
    TwoLeaves(op, p, q);
    Leaf(op, r);
    assert [p, q] + [r] == [p, q, r];
    RefillTwo(op, p, q, p', q');
    assert [p', q', r'][..2] == [p', q'] && [p', q', r'][2..] == [r'];
  }

  lemma ThreeTurned(op: Op, p: Expr, q: Expr, r: Expr)
    requires p.Not? && q.Not? && r.Not?
    requires ExprEq(p, q) && ExprEq(q, r) && !ExprEq(p, r) && !ExprEq(r, p)
    ensures !ExprEq(Three(op, p, q, r), Three(op, r, q, p))
  {
    var one := Sym(NeutralSym(op));
    ThreeRows(op, p, q, r);
    RefillThree(op, p, q, r, one, one, r);
    RefillThree(op, r, q, p, one, one, p);
    LevelsAre(op, true, Three(op, p, q, r), Three(op, r, q, p));
    NestsCompared(op, Three(op, p, q, r), Three(op, r, q, p));
    assert EliminateYn(Three(op, one, one, r)) == r;
  }

  lemma ThirdsDiffer(x: Symbol, y: Symbol, z: Symbol)
    requires Differ(x, y) && Differ(y, z) && Differ(x, z)
    ensures var p, q, r := Not(Hidden(x)), Not(Plainly(y)), Not(Hidden(z));
            && ExprEq(p, q) && ExprEq(q, r) && !ExprEq(p, r) && !ExprEq(r, p)
            && NoForeign(p) && NoForeign(q) && NoForeign(r)
  {
    HiddenIsPlain(x, y);
    HiddenIsPlain(z, y);
    HiddenIsNotHidden(x, z);
    HiddenIsNotHidden(z, x);
    NothingForeign(x, y);
    NothingForeign(z, y);
  }

  lemma NothingForeign(x: Symbol, y: Symbol)
    requires Differ(x, y)
    ensures NoForeign(Hidden(x)) && NoForeign(Plainly(y))
  {
    assert NoForeign(NN) && NoForeign(Sym(x)) && NoForeign(Sym(y));
  }

  /**
   With literals below a NOT the order of the operands can matter. Of the operands
   `!((n || n) && X)`, `!(n && Y)` and `!((n || n) && Z)` of an OR the second is taken for equal to the others, all
   being n below the NOT, but these are not for each other: their common part is taken out before that is seen.
   */
  lemma LiteralsMislead(x: Symbol, y: Symbol, z: Symbol)
    requires Differ(x, y) && Differ(y, z) && Differ(x, z)
    ensures var p, q, r := Not(Hidden(x)), Not(Plainly(y)), Not(Hidden(z));
            && !ExprEq(Three(OrOp, p, q, r), Three(OrOp, r, q, p))
            && Leaves(OrOp, Three(OrOp, p, q, r)) == [p, q, r] && Leaves(OrOp, Three(OrOp, r, q, p)) == [r, q, p]
            && NoForeign(p) && NoForeign(q) && NoForeign(r)
  {
    var p, q, r := Not(Hidden(x)), Not(Plainly(y)), Not(Hidden(z));
    ThirdsDiffer(x, y, z);
    ThreeTurned(OrOp, p, q, r);
    RefillThree(OrOp, p, q, r, p, q, r);
    RefillThree(OrOp, r, q, p, r, q, p);
  }
}
