/**
 expr_join_or, expr_join_and, the two passes of expr_eliminate_dups and its
 loop (scripts/config/expr.c:347-638).
 */
module Duplicates {
  import opened Options
  import opened Expressions
  import opened Levels
  import opened Equality
  import opened Normalise

  /** The symbol a first operand is about: NULL-returning shapes give None. */
  function Subject1(e: Expr): Option<Symbol> {
    match e
    case Sym(s) => Some(s)
    case Cmp(_, a, _) => Some(a)
    case Not(Sym(s)) => Some(s)
    case Not(Cmp(_, a, _)) => Some(a)
    case _ => None
  }

  /** For the second operand a negated comparison is refused as well. */
  function Subject2(e: Expr): Option<Symbol> {
    if e.Not? && e.e.Cmp? then None else Subject1(e)
  }

  /** {x, y} is {p, q} */
  predicate Same(x: Symbol, y: Symbol, p: Symbol, q: Symbol) {
    (x == p && y == q) || (x == q && y == p)
  }

  /** a || b as one expression about symbol s (expr_join_or after the checks). */
  function JoinOr(s: Symbol, a: Expr, b: Expr): Option<Expr> {
    if TypeOf(s) == STristate && a.Cmp? && b.Cmp? && a.eq && b.eq && Same(a.rhs, b.rhs, SymY, SymM) then
      Some(Cmp(false, s, SymN))
    else if TypeOf(s) == STristate && a.Cmp? && b.Cmp? && a.eq && b.eq && Same(a.rhs, b.rhs, SymY, SymN) then
      Some(Cmp(false, s, SymM))
    else if TypeOf(s) == STristate && a.Cmp? && b.Cmp? && a.eq && b.eq && Same(a.rhs, b.rhs, SymM, SymN) then
      Some(Cmp(false, s, SymY))
    else if TypeOf(s) == SBoolean &&
            ((a.Not? && a.e.Sym? && b.Sym?) || (b.Not? && b.e.Sym? && a.Sym?)) then
      Some(Sym(SymY))
    else
      None
  }

  /** One operand is the symbol itself, the other compares it with c. */
  predicate SymAndCmp(a: Expr, b: Expr, eq: bool, c: Symbol) {
    (a.Sym? && b.Cmp? && b.eq == eq && b.rhs == c) || (b.Sym? && a.Cmp? && a.eq == eq && a.rhs == c)
  }

  /** a && b as one expression about symbol s (expr_join_and after the checks). */
  function JoinAnd(s: Symbol, a: Expr, b: Expr): Option<Expr> {
    if SymAndCmp(a, b, true, SymY) then Some(Cmp(true, s, SymY))
    else if SymAndCmp(a, b, false, SymN) then Some(Sym(s))
    else if SymAndCmp(a, b, false, SymM) then Some(Cmp(true, s, SymY))
    else if TypeOf(s) == STristate && a.Cmp? && b.Cmp? then
      if a.eq && !b.eq && IsConst(a.rhs) && IsConst(b.rhs) then
        Some(if a.rhs != b.rhs then Cmp(true, s, a.rhs) else Sym(SymN))
      else if !a.eq && b.eq && IsConst(a.rhs) && IsConst(b.rhs) then
        Some(if a.rhs != b.rhs then Cmp(true, s, b.rhs) else Sym(SymN))
      else if !a.eq && !b.eq && Same(a.rhs, b.rhs, SymY, SymN) then Some(Cmp(true, s, SymM))
      else if !a.eq && !b.eq && Same(a.rhs, b.rhs, SymY, SymM) then Some(Cmp(true, s, SymN))
      else if !a.eq && !b.eq && Same(a.rhs, b.rhs, SymM, SymN) then Some(Cmp(true, s, SymY))
      else None
    else None
  }

  /** expr_join_or and expr_join_and */
  function Join(op: Op, a: Expr, b: Expr): (r: Option<Expr>)
    ensures r.Some? ==> Size(r.value) <= Size(a) && (r.value.Bin? ==> r.value == a)
  {
    if ExprEq(a, b) then Some(a)
    else if Subject1(a).None? || Subject1(a) != Subject2(b) then None
    else
      var s := Subject1(a).value;
      if TypeOf(s) != SBoolean && TypeOf(s) != STristate then None
      else if op == OrOp then JoinOr(s, a, b)
      else JoinAnd(s, a, b)
  }

  /** A joined pair is worth what the two operands were, under every valuation. */
  lemma JoinKeepsValue(op: Op, a: Expr, b: Expr, v: Valuation)
    requires Respects(v)
    requires Join(op, a, b).Some?
    ensures Eval(Join(op, a, b).value, v) == Apply(op, Eval(a, v), Eval(b, v))
  {
    if ExprEq(a, b) {
      ExprEqSound(a, b, v);
    } else {
      var s := Subject1(a).value;
      assert RightValue(s, v(s));
      BuiltIns(s, v);
      if op == AndOp { JoinAndKeepsValue(s, a, b, v); }
    }
  }

  lemma JoinAndKeepsValue(s: Symbol, a: Expr, b: Expr, v: Valuation)
    requires Respects(v)
    requires Subject1(a) == Subject2(b) == Some(s)
    requires TypeOf(s) == SBoolean || TypeOf(s) == STristate
    requires JoinAnd(s, a, b).Some?
    ensures Eval(JoinAnd(s, a, b).value, v) == Apply(AndOp, Eval(a, v), Eval(b, v))
  {
    if a.Cmp? && b.Cmp? { TwoComparisons(s, a, b, v); } else { BuiltIns(s, v); }
  }

  lemma TwoComparisons(s: Symbol, a: Expr, b: Expr, v: Valuation)
    requires Respects(v)
    requires a.Cmp? && b.Cmp? && a.lhs == b.lhs == s && TypeOf(s) == STristate
    requires JoinAnd(s, a, b).Some?
    ensures Eval(JoinAnd(s, a, b).value, v) == Apply(AndOp, Eval(a, v), Eval(b, v))
  {
    BuiltIns(s, v);
  }

  lemma BuiltIns(s: Symbol, v: Valuation)
    requires Respects(v)
    ensures v(SymY) == Value(Yes, "y") && v(SymM) == Value(Mod, "m") && v(SymN) == Value(No, "n")
    ensures TypeOf(s) == SBoolean || TypeOf(s) == STristate ==>
              (v(s).str == "y" <==> v(s).tri == Yes) && (v(s).str == "m" <==> v(s).tri == Mod) &&
              (v(s).str == "n" <==> v(s).tri == No)
  {
    assert RightValue(SymY, v(SymY)) && RightValue(SymM, v(SymM)) && RightValue(SymN, v(SymN));
    assert RightValue(s, v(s));
    TriStrInjective(v(s).tri, Yes);
    TriStrInjective(v(s).tri, Mod);
    TriStrInjective(v(s).tri, No);
  }

  // ----- first pass -----

  /** A pass returns the rewritten slots and the number of changes it counts in trans_count. */
  datatype Pass = Pass(ls: seq<Expr>, count: nat)

  /** What a pass over a level keeps. */
  predicate PassOk(op: Op, ls: seq<Expr>, r: Pass) {
    && |r.ls| == |ls|
    && Total(r.ls) <= Total(ls)
    && (forall k :: 0 <= k < |r.ls| ==> !IsOp(op, r.ls[k]))
  }

  /** The slots of a level inside a tree of size bound. */
  predicate Slots(op: Op, ls: seq<Expr>, bound: nat) {
    && |ls| >= 2
    && Total(ls) + |ls| - 1 <= bound
    && (forall k :: 0 <= k < |ls| ==> !IsOp(op, ls[k]))
  }

  lemma {:induction false} SlotSize(ls: seq<Expr>, i: nat)
    requires i < |ls|
    ensures Size(ls[i]) + |ls| - 1 <= Total(ls)
  {
    if i == 0 {
      TotalAtLeast(ls[1..]);
    } else {
      SlotSize(ls[1..], i - 1);
    }
  }

  lemma {:induction false} TotalAtLeast(ls: seq<Expr>)
    ensures |ls| <= Total(ls)
  {
    if ls != [] { TotalAtLeast(ls[1..]); }
  }

  /** expr_eliminate_dups1(e->type, &e, &e): every slot of e's level against every other one. */
  function Dups1(e: Expr): (r: (Expr, nat))
    requires e.Bin?
    ensures IsOp(e.op, r.0) && Size(r.0) <= Size(e)
    decreases Size(e), 2
  {
    var ls := Leaves(e.op, e);
    LevelSlots(e);
    var p := Dups1Rows(e.op, ls, 0, Size(e));
    SizeRefill(e.op, e, p.ls);
    (Refill(e.op, e, p.ls), p.count)
  }

  lemma LevelSlots(e: Expr)
    requires e.Bin?
    ensures Slots(e.op, Leaves(e.op, e), Size(e))
    ensures Size(e) == Total(Leaves(e.op, e)) + |Leaves(e.op, e)| - 1
  {
    RefillLeaves(e.op, e);
    SizeRefill(e.op, e, Leaves(e.op, e));
  }

  function Dups1Rows(op: Op, ls: seq<Expr>, i: nat, bound: nat): (r: Pass)
    requires Slots(op, ls, bound) && i <= |ls|
    ensures PassOk(op, ls, r)
    decreases bound, 1, |ls| - i
  {
    if i == |ls| then Pass(ls, 0)
    else
      var p := Dups1Row(op, ls, i, 0, bound);
      var q := Dups1Rows(op, p.ls, i + 1, bound);
      Pass(q.ls, p.count + q.count)
  }

  /** Slot i against the slots from j on. */
  function Dups1Row(op: Op, ls: seq<Expr>, i: nat, j: nat, bound: nat): (r: Pass)
    requires Slots(op, ls, bound) && i < |ls| && j <= |ls|
    ensures PassOk(op, ls, r)
    decreases bound, 0, |ls| - j
  {
    if j == |ls| then Pass(ls, 0)
    else
      var p := if i == j then Pass(ls, 0) else Dups1Cell(op, ls, i, j, bound);
      var q := Dups1Row(op, p.ls, i, j + 1, bound);
      Pass(q.ls, p.count + q.count)
  }

  /** One pair: first the level inside slot i, then the join of the two slots. */
  function Dups1Cell(op: Op, ls: seq<Expr>, i: nat, j: nat, bound: nat): (r: Pass)
    requires Slots(op, ls, bound) && i < |ls| && j < |ls| && i != j
    ensures PassOk(op, ls, r)
    decreases bound, 0, |ls| - j, 0
  {
    SlotSize(ls, i);
    var (x, c) := if ls[i].Bin? then Dups1(ls[i]) else (ls[i], 0);
    TotalUpdate(ls, i, x);
    var t := Join(op, x, ls[j]);
    if t.None? then
      Pass(ls[i := x], c)
    else
      var one := Sym(NeutralSym(op));
      TotalUpdate(ls, i, one);
      TotalUpdate(ls[i := one], j, t.value);
      Pass(ls[i := one][j := t.value], c + 1)
  }

  // ----- second pass -----

  /** expr_eliminate_dups2(e->type, &e, &e) */
  function Dups2(e: Expr): (r: (Expr, nat))
    requires e.Bin?
    ensures IsOp(e.op, r.0) && Size(r.0) <= Size(e)
    decreases Size(e), 2
  {
    var ls := Leaves(e.op, e);
    LevelSlots(e);
    var p := Dups2Rows(e.op, Spans(e.op, e, 0), ls, 0, Size(e));
    SizeRefill(e.op, e, p.ls);
    (Refill(e.op, e, p.ls), p.count)
  }

  function Dups2Rows(op: Op, spans: seq<Span>, ls: seq<Expr>, i: nat, bound: nat): (r: Pass)
    requires Slots(op, ls, bound) && i <= |ls| && Inside(op, spans, |ls|)
    ensures PassOk(op, ls, r)
    decreases bound, 1, |ls| - i
  {
    if i == |ls| then Pass(ls, 0)
    else
      var p := Dups2Row(op, spans, ls, i, 0, bound);
      var q := Dups2Rows(op, spans, p.ls, i + 1, bound);
      Pass(q.ls, p.count + q.count)
  }

  predicate Inside(op: Op, spans: seq<Span>, n: nat) {
    forall k :: 0 <= k < |spans| ==> spans[k].lo + |Leaves(op, spans[k].shape)| <= n
  }

  /** A part of a nest: its shape and its first slot. */
  datatype Span = Span(shape: Expr, lo: nat)

  /**
   The parts of a nest in the order they are tried: an inner node comes after
   both its sides, since the original does not return there.
   */
  function Spans(op: Op, e: Expr, lo: nat): (r: seq<Span>)
    ensures forall k :: 0 <= k < |r| ==> lo <= r[k].lo && r[k].lo + |Leaves(op, r[k].shape)| <= lo + |Leaves(op, e)|
    ensures |r| > 0 && r[|r| - 1] == Span(e, lo)
  {
    if IsOp(op, e) then Spans(op, e.l, lo) + Spans(op, e.r, lo + |Leaves(op, e.l)|) + [Span(e, lo)]
    else [Span(e, lo)]
  }

  /** The slot itself, which is not tried against itself. */
  predicate Itself(op: Op, s: Span, i: nat) {
    !IsOp(op, s.shape) && s.lo == i
  }

  /** Slot i against the parts of the nest from the k-th on. */
  function Dups2Row(op: Op, spans: seq<Span>, ls: seq<Expr>, i: nat, k: nat, bound: nat): (r: Pass)
    requires Slots(op, ls, bound) && i < |ls| && Inside(op, spans, |ls|) && k <= |spans|
    ensures PassOk(op, ls, r)
    decreases bound, 0, |spans| - k
  {
    if k == |spans| then Pass(ls, 0)
    else
      var p := Dups2Step(op, spans[k], ls, i, bound);
      var q := Dups2Row(op, spans, p.ls, i, k + 1, bound);
      Pass(q.ls, p.count + q.count)
  }

  function Dups2Step(op: Op, s: Span, ls: seq<Expr>, i: nat, bound: nat): (r: Pass)
    requires Slots(op, ls, bound) && i < |ls| && s.lo + |Leaves(op, s.shape)| <= |ls|
    ensures PassOk(op, ls, r)
    decreases bound, 0, 0, 1
  {
    if Itself(op, s, i) then Pass(ls, 0) else Dups2Cell(op, s.shape, s.lo, ls, i, bound)
  }

  /** The part of the nest with the given shape that starts at slot lo. */
  function Part(op: Op, shape: Expr, lo: nat, ls: seq<Expr>): Expr
    requires lo + |Leaves(op, shape)| <= |ls|
  {
    Refill(op, shape, ls[lo..lo + |Leaves(op, shape)|])
  }

  /** Slot i falls when every operand of its negation is found in the part. */
  function Dups2Cell(op: Op, shape: Expr, lo: nat, ls: seq<Expr>, i: nat, bound: nat): (r: Pass)
    requires Slots(op, ls, bound) && i < |ls| && lo + |Leaves(op, shape)| <= |ls|
    ensures PassOk(op, ls, r)
    decreases bound, 0, 0, 0
  {
    if !ls[i].Bin? then Pass(ls, 0)
    else
      SlotSize(ls, i);
      var (x, c) := Dups2(ls[i]);
      TotalUpdate(ls, i, x);
      NegationIsLevel(op, x);
      var (_, rest, _) := ExtractEq(op, Transform(Not(x)), Part(op, shape, lo, ls[i := x]));
      if rest == Sym(NeutralSym(op)) then
        TotalUpdate(ls, i, Sym(AbsorbingSym(op)));
        Pass(ls[i := Sym(AbsorbingSym(op))], c + 1)
      else
        Pass(ls[i := x], c)
  }

  lemma {:induction false} NegationIsLevel(op: Op, x: Expr)
    requires x.Bin? && !IsOp(op, x)
    ensures IsOp(op, Transform(Not(x)))
  {
    assert Transform(x).Bin? && Transform(x).op == x.op;
    assert Transform(Not(x)) == Transform(DeMorgan(x.op, Transform(x).l, Transform(x).r));
  }

  // ----- the loop -----

  /** The body of the loop up to the test of trans_count. */
  function Round(e: Expr): (r: (Expr, nat))
    ensures Size(r.0) <= Size(e)
  {
    if e.Bin? then
      var (e1, c1) := Dups1(e);
      var (e2, c2) := Dups2(e1);
      (e2, c1 + c2)
    else
      (e, 0)
  }

  // ----- what the passes keep -----

  predicate YnSlots(ls: seq<Expr>) {
    exists k :: 0 <= k < |ls| && (IsYn(ls[k]) || HasYn(ls[k]))
  }

  /** A counted change leaves a literal y or n behind, and no later step takes the last one away. */
  predicate Progress(ls: seq<Expr>, r: Pass) {
    && (r.count > 0 || YnSlots(ls) ==> YnSlots(r.ls))
    && (r.count == 0 ==> r.ls == ls)
  }

  lemma {:induction false} YnRefill(op: Op, e: Expr, ls: seq<Expr>)
    requires |ls| == |Leaves(op, e)|
    ensures var r := Refill(op, e, ls); IsYn(r) || HasYn(r) <==> YnSlots(ls)
    ensures IsOp(op, e) ==> !IsYn(Refill(op, e, ls))
  {
    if IsOp(op, e) {
      var n := |Leaves(op, e.l)|;
      YnRefill(op, e.l, ls[..n]);
      YnRefill(op, e.r, ls[n..]);
      assert forall k :: 0 <= k < |ls| ==> ls[k] == if k < n then ls[..n][k] else ls[n..][k - n];
      assert forall k :: 0 <= k < |ls| - n ==> ls[n..][k] == ls[n + k];
    } else {
      assert Refill(op, e, ls) == ls[0];
    }
  }

  lemma {:induction false} CombineSlot(op: Op, ls: seq<Expr>, i: nat, x: Expr, v: Valuation)
    requires i < |ls|
    ensures Eval(x, v) == Eval(ls[i], v) ==> Combine(op, ls[i := x], v) == Combine(op, ls, v)
    ensures Eval(ls[i], v) == Mod ==> Sharper(Combine(op, ls, v), Combine(op, ls[i := x], v))
  {
    var ls' := ls[i := x];
    CombineIs(op, ls, v);
    CombineIs(op, ls', v);
    assert forall k :: 0 <= k < |ls| && k != i ==> ls'[k] == ls[k];
    assert ls'[i] == x;
  }

  lemma {:induction false} CombineTwoSlots(op: Op, ls: seq<Expr>, i: nat, j: nat, x: Expr, y: Expr, v: Valuation)
    requires i < |ls| && j < |ls| && i != j
    requires Apply(op, Eval(x, v), Eval(y, v)) == Apply(op, Eval(ls[i], v), Eval(ls[j], v))
    ensures Combine(op, ls[i := x][j := y], v) == Combine(op, ls, v)
  {
    var ls' := ls[i := x][j := y];
    CombineIs(op, ls, v);
    CombineIs(op, ls', v);
    assert forall k :: 0 <= k < |ls| && k != i && k != j ==> ls'[k] == ls[k];
    assert ls'[i] == x && ls'[j] == y;
  }

  /** Two slots, and the level inside the first, that the first pass leaves alone. */
  predicate Unjoined(op: Op, ls: seq<Expr>, i: nat, j: nat)
    requires i < |ls| && j < |ls|
  {
    Join(op, ls[i], ls[j]).None? && (ls[i].Bin? ==> Dups1(ls[i]).1 == 0)
  }

  ghost predicate ExactStep(op: Op, ls: seq<Expr>, r: Pass, v: Valuation) {
    Combine(op, r.ls, v) == Combine(op, ls, v) && Progress(ls, r)
  }

  lemma ExactSteps(op: Op, ls: seq<Expr>, p: Pass, q: Pass, v: Valuation)
    requires ExactStep(op, ls, p, v) && ExactStep(op, p.ls, q, v)
    ensures ExactStep(op, ls, Pass(q.ls, p.count + q.count), v)
  {
  }

  lemma {:induction false} Dups1CellOk(op: Op, ls: seq<Expr>, i: nat, j: nat, bound: nat, v: Valuation)
    requires Respects(v)
    requires Slots(op, ls, bound) && i < |ls| && j < |ls| && i != j
    ensures var r := Dups1Cell(op, ls, i, j, bound);
            ExactStep(op, ls, r, v) && (r.count == 0 ==> Unjoined(op, ls, i, j))
    decreases bound, 0, |ls| - j, 0
  {
    SlotSize(ls, i);
    if ls[i].Bin? { Dups1Ok(ls[i], v); }
    var (x, c) := if ls[i].Bin? then Dups1(ls[i]) else (ls[i], 0);
    CombineSlot(op, ls, i, x, v);
    var t := Join(op, x, ls[j]);
    if t.None? {
      YnSlot(ls, i, x);
    } else {
      JoinKeepsValue(op, x, ls[j], v);
      var one := Sym(NeutralSym(op));
      BuiltIns(SymY, v);
      CombineTwoSlots(op, ls, i, j, one, t.value, v);
      assert IsYn(ls[i := one][j := t.value][i]);
    }
  }

  lemma {:induction false} YnSlot(ls: seq<Expr>, i: nat, x: Expr)
    requires i < |ls|
    requires HasYn(ls[i]) ==> HasYn(x)
    requires IsYn(ls[i]) ==> IsYn(x)
    ensures YnSlots(ls) ==> YnSlots(ls[i := x])
    ensures HasYn(x) || IsYn(x) ==> YnSlots(ls[i := x])
  {
    assert ls[i := x][i] == x;
    assert forall k :: 0 <= k < |ls| && k != i ==> ls[i := x][k] == ls[k];
  }

  lemma {:induction false} Dups1RowOk(op: Op, ls: seq<Expr>, i: nat, j: nat, bound: nat, v: Valuation)
    requires Respects(v)
    requires Slots(op, ls, bound) && i < |ls| && j <= |ls|
    ensures var r := Dups1Row(op, ls, i, j, bound);
            ExactStep(op, ls, r, v)
    decreases bound, 0, |ls| - j
  {
    if j < |ls| {
      var p := if i == j then Pass(ls, 0) else Dups1Cell(op, ls, i, j, bound);
      if i != j { Dups1CellOk(op, ls, i, j, bound, v); }
      Dups1RowOk(op, p.ls, i, j + 1, bound, v);
      ExactSteps(op, ls, p, Dups1Row(op, p.ls, i, j + 1, bound), v);
    }
  }

  lemma {:induction false} Dups1RowsOk(op: Op, ls: seq<Expr>, i: nat, bound: nat, v: Valuation)
    requires Respects(v)
    requires Slots(op, ls, bound) && i <= |ls|
    ensures var r := Dups1Rows(op, ls, i, bound);
            ExactStep(op, ls, r, v)
    decreases bound, 1, |ls| - i
  {
    if i < |ls| {
      Dups1RowOk(op, ls, i, 0, bound, v);
      var p := Dups1Row(op, ls, i, 0, bound);
      Dups1RowsOk(op, p.ls, i + 1, bound, v);
      ExactSteps(op, ls, p, Dups1Rows(op, p.ls, i + 1, bound), v);
    }
  }

  /** The first pass is exact under every valuation. */
  lemma {:induction false} Dups1Ok(e: Expr, v: Valuation)
    requires Respects(v) && e.Bin?
    ensures Eval(Dups1(e).0, v) == Eval(e, v)
    ensures Dups1(e).1 > 0 || HasYn(e) ==> HasYn(Dups1(e).0)
    ensures Dups1(e).1 == 0 ==> Dups1(e).0 == e
    decreases Size(e), 2
  {
    var ls := Leaves(e.op, e);
    LevelSlots(e);
    Dups1RowsOk(e.op, ls, 0, Size(e), v);
    var p := Dups1Rows(e.op, ls, 0, Size(e));
    EvalLeaves(e.op, e, v);
    EvalRefill(e.op, e, p.ls, v);
    YnRefill(e.op, e, p.ls);
    RefillLeaves(e.op, e);
    YnRefill(e.op, e, ls);
  }

  /** A value that was y or n is kept; m may be decided. */
  predicate Sharper(before: Tristate, after: Tristate) {
    before == after || before == Mod
  }

  /** What is left of the negation of x after its operands found in the part are taken out. */
  function Residue(op: Op, x: Expr, part: Expr): Expr
    requires x.Bin? && !IsOp(op, x)
  {
    NegationIsLevel(op, x);
    ExtractEq(op, Transform(Not(x)), part).1
  }

  /** With the whole negation of slot i inside the level, the level cannot have its neutral value. */
  lemma {:induction false} FiringExcludesNeutral(op: Op, shape: Expr, lo: nat, ls: seq<Expr>, i: nat, v: Valuation)
    requires Respects(v)
    requires i < |ls| && lo + |Leaves(op, shape)| <= |ls|
    requires ls[i].Bin? && !IsOp(op, ls[i])
    requires Residue(op, ls[i], Part(op, shape, lo, ls)) == Sym(NeutralSym(op))
    ensures Combine(op, ls, v) != NeutralT(op)
  {
    var x, part := ls[i], Part(op, shape, lo, ls);
    var neg := Transform(Not(x));
    NegationIsLevel(op, x);
    TransformKeepsValue(Not(x), v);
    MatchTreesBalanced(op, false, neg, part, v);
    var m := MatchTrees(op, false, neg, part);
    EliminateYnKeepsValue(m.0, v);
    BuiltIns(SymY, v);
    assert Eval(m.0, v) == NeutralT(op);
    if Combine(op, ls, v) == NeutralT(op) {
      CombineIs(op, ls, v);
      var slice := ls[lo..lo + |Leaves(op, shape)|];
      CombineIs(op, slice, v);
      EvalRefill(op, shape, slice, v);
    }
  }

  /** Replacing the slot by the absorbing constant is exact except where the level was m. */
  lemma {:induction false} FiringExact(op: Op, shape: Expr, lo: nat, ls: seq<Expr>, i: nat, v: Valuation)
    requires Respects(v)
    requires i < |ls| && lo + |Leaves(op, shape)| <= |ls|
    requires ls[i].Bin? && !IsOp(op, ls[i])
    requires Residue(op, ls[i], Part(op, shape, lo, ls)) == Sym(NeutralSym(op))
    ensures var after := Combine(op, ls[i := Sym(AbsorbingSym(op))], v);
            && after == AbsorbingT(op)
            && (after == Combine(op, ls, v) <==> Combine(op, ls, v) != Mod)
  {
    FiringExcludesNeutral(op, shape, lo, ls, i, v);
    var ls' := ls[i := Sym(AbsorbingSym(op))];
    BuiltIns(SymY, v);
    CombineIs(op, ls', v);
    assert Eval(ls'[i], v) == AbsorbingT(op);
  }

  ghost predicate SharpStep(op: Op, ls: seq<Expr>, r: Pass, v: Valuation) {
    Sharper(Combine(op, ls, v), Combine(op, r.ls, v)) && Progress(ls, r)
  }

  lemma SharpSteps(op: Op, ls: seq<Expr>, p: Pass, q: Pass, v: Valuation)
    requires SharpStep(op, ls, p, v) && SharpStep(op, p.ls, q, v)
    ensures SharpStep(op, ls, Pass(q.ls, p.count + q.count), v)
  {
  }

  /** Slot i was tried in vain against the part. */
  predicate Tried(op: Op, shape: Expr, lo: nat, ls: seq<Expr>, i: nat)
    requires i < |ls| && lo + |Leaves(op, shape)| <= |ls| && !IsOp(op, ls[i])
  {
    ls[i].Bin? ==> Dups2(ls[i]).1 == 0 && Residue(op, ls[i], Part(op, shape, lo, ls)) != Sym(NeutralSym(op))
  }

  lemma {:induction false} Dups2CellOk(op: Op, shape: Expr, lo: nat, ls: seq<Expr>, i: nat, bound: nat, v: Valuation)
    requires Respects(v)
    requires Slots(op, ls, bound) && i < |ls| && lo + |Leaves(op, shape)| <= |ls|
    ensures var r := Dups2Cell(op, shape, lo, ls, i, bound);
            && SharpStep(op, ls, r, v)
            && (r.count == 0 ==> Tried(op, shape, lo, ls, i))
    decreases bound, 0, 0, 0
  {
    if ls[i].Bin? {
      SlotSize(ls, i);
      Dups2Ok(ls[i], v);
      var (x, c) := Dups2(ls[i]);
      var ls' := ls[i := x];
      assert ls'[i] == x;
      CombineSlot(op, ls, i, x, v);
      YnSlot(ls, i, x);
      if Residue(op, x, Part(op, shape, lo, ls')) == Sym(NeutralSym(op)) {
        FiringExact(op, shape, lo, ls', i, v);
        var yn := Sym(AbsorbingSym(op));
        assert ls'[i := yn] == ls[i := yn];
        assert IsYn(ls[i := yn][i]);
      }
    }
  }

  /** A part is the slot itself or was tried in vain. */
  predicate Passed(op: Op, s: Span, ls: seq<Expr>, i: nat)
    requires i < |ls| && s.lo + |Leaves(op, s.shape)| <= |ls| && !IsOp(op, ls[i])
  {
    Itself(op, s, i) || Tried(op, s.shape, s.lo, ls, i)
  }

  lemma {:induction false} Dups2StepOk(op: Op, s: Span, ls: seq<Expr>, i: nat, bound: nat, v: Valuation)
    requires Respects(v)
    requires Slots(op, ls, bound) && i < |ls| && s.lo + |Leaves(op, s.shape)| <= |ls|
    ensures var r := Dups2Step(op, s, ls, i, bound);
            SharpStep(op, ls, r, v) && (r.count == 0 ==> Passed(op, s, ls, i))
    decreases bound, 0, 0, 1
  {
    if !Itself(op, s, i) { Dups2CellOk(op, s.shape, s.lo, ls, i, bound, v); }
  }

  lemma {:induction false} Dups2RowOk(op: Op, spans: seq<Span>, ls: seq<Expr>, i: nat, k: nat, bound: nat, v: Valuation)
    requires Respects(v)
    requires Slots(op, ls, bound) && i < |ls| && Inside(op, spans, |ls|) && k <= |spans|
    ensures var r := Dups2Row(op, spans, ls, i, k, bound);
            SharpStep(op, ls, r, v)
    decreases bound, 0, |spans| - k
  {
    if k < |spans| {
      Dups2StepOk(op, spans[k], ls, i, bound, v);
      var p := Dups2Step(op, spans[k], ls, i, bound);
      Dups2RowOk(op, spans, p.ls, i, k + 1, bound, v);
      SharpSteps(op, ls, p, Dups2Row(op, spans, p.ls, i, k + 1, bound), v);
    }
  }

  lemma {:induction false} Dups2RowsOk(op: Op, spans: seq<Span>, ls: seq<Expr>, i: nat, bound: nat, v: Valuation)
    requires Respects(v)
    requires Slots(op, ls, bound) && i <= |ls| && Inside(op, spans, |ls|)
    ensures var r := Dups2Rows(op, spans, ls, i, bound);
            SharpStep(op, ls, r, v)
    decreases bound, 1, |ls| - i
  {
    if i < |ls| {
      var p := Dups2Row(op, spans, ls, i, 0, bound);
      Dups2RowOk(op, spans, ls, i, 0, bound, v);
      Dups2RowsOk(op, spans, p.ls, i + 1, bound, v);
      SharpSteps(op, ls, p, Dups2Rows(op, spans, p.ls, i + 1, bound), v);
    }
  }

  /** The second pass keeps every y and n; it decides some m. */
  lemma {:induction false} Dups2Ok(e: Expr, v: Valuation)
    requires Respects(v) && e.Bin?
    ensures Sharper(Eval(e, v), Eval(Dups2(e).0, v))
    ensures Dups2(e).1 > 0 || HasYn(e) ==> HasYn(Dups2(e).0)
    ensures Dups2(e).1 == 0 ==> Dups2(e).0 == e
    decreases Size(e), 2
  {
    var ls := Leaves(e.op, e);
    LevelSlots(e);
    Dups2RowsOk(e.op, Spans(e.op, e, 0), ls, 0, Size(e), v);
    var p := Dups2Rows(e.op, Spans(e.op, e, 0), ls, 0, Size(e));
    EvalLeaves(e.op, e, v);
    EvalRefill(e.op, e, p.ls, v);
    YnRefill(e.op, e, p.ls);
    RefillLeaves(e.op, e);
    YnRefill(e.op, e, ls);
  }

  // ----- quiet rounds -----

  /**
   Nothing is left to do: on every level no two operands join, and no operand
   has its whole negation in the level.
   */
  predicate Settled(e: Expr)
    decreases Size(e)
  {
    e.Bin? ==>
      var ls := Leaves(e.op, e);
      && (forall i, j :: 0 <= i < |ls| && 0 <= j < |ls| && i != j ==> Join(e.op, ls[i], ls[j]).None?)
      && (forall i :: 0 <= i < |ls| && ls[i].Bin? ==>
            Settled(ls[i]) && Residue(e.op, ls[i], e) != Sym(NeutralSym(e.op)))
  }

  lemma {:induction false} QuietRow1(op: Op, ls: seq<Expr>, i: nat, j: nat, t: nat, bound: nat, v: Valuation)
    requires Respects(v)
    requires Slots(op, ls, bound) && i < |ls| && j <= t < |ls| && t != i
    requires Dups1Row(op, ls, i, j, bound).count == 0
    ensures Unjoined(op, ls, i, t)
    decreases |ls| - j
  {
    if i != j { Dups1CellOk(op, ls, i, j, bound, v); }
    if j < t { QuietRow1(op, ls, i, j + 1, t, bound, v); }
  }

  lemma {:induction false} QuietRows1(op: Op, ls: seq<Expr>, i: nat, s: nat, t: nat, bound: nat, v: Valuation)
    requires Respects(v)
    requires Slots(op, ls, bound) && i <= s < |ls| && t < |ls| && t != s
    requires Dups1Rows(op, ls, i, bound).count == 0
    ensures Unjoined(op, ls, s, t)
    decreases |ls| - i
  {
    Dups1RowOk(op, ls, i, 0, bound, v);
    if i < s { QuietRows1(op, ls, i + 1, s, t, bound, v); } else { QuietRow1(op, ls, i, 0, t, bound, v); }
  }

  lemma {:induction false} QuietRow2(op: Op, spans: seq<Span>, ls: seq<Expr>, i: nat, k: nat, t: nat, bound: nat,
                                     v: Valuation)
    requires Respects(v)
    requires Slots(op, ls, bound) && i < |ls| && Inside(op, spans, |ls|) && k <= t < |spans|
    requires Dups2Row(op, spans, ls, i, k, bound).count == 0
    ensures Passed(op, spans[t], ls, i)
    decreases |spans| - k
  {
    Dups2StepOk(op, spans[k], ls, i, bound, v);
    if k < t { QuietRow2(op, spans, ls, i, k + 1, t, bound, v); }
  }

  lemma {:induction false} QuietRows2(op: Op, spans: seq<Span>, ls: seq<Expr>, i: nat, s: nat, t: nat, bound: nat,
                                      v: Valuation)
    requires Respects(v)
    requires Slots(op, ls, bound) && i <= s < |ls| && Inside(op, spans, |ls|) && t < |spans|
    requires Dups2Rows(op, spans, ls, i, bound).count == 0
    ensures Passed(op, spans[t], ls, s)
    decreases |ls| - i
  {
    Dups2RowOk(op, spans, ls, i, 0, bound, v);
    if i < s { QuietRows2(op, spans, ls, i + 1, s, t, bound, v); } else { QuietRow2(op, spans, ls, i, 0, t, bound, v); }
  }

  lemma {:induction false} QuietSlot(e: Expr, i: nat, v: Valuation)
    requires Respects(v) && e.Bin?
    requires Dups1(e).1 == 0 && Dups2(e).1 == 0
    requires i < |Leaves(e.op, e)|
    ensures forall j :: 0 <= j < |Leaves(e.op, e)| && i != j ==> Unjoined(e.op, Leaves(e.op, e), i, j)
    ensures Tried(e.op, e, 0, Leaves(e.op, e), i)
  {
    var op, ls := e.op, Leaves(e.op, e);
    LevelSlots(e);
    forall j | 0 <= j < |ls| && i != j ensures Unjoined(op, ls, i, j) {
      QuietRows1(op, ls, 0, i, j, Size(e), v);
    }
    var spans := Spans(op, e, 0);
    QuietRows2(op, spans, ls, 0, i, |spans| - 1, Size(e), v);
  }

  lemma {:induction false} QuietMeansSettled(e: Expr, v: Valuation)
    requires Respects(v)
    requires e.Bin? ==> Dups1(e).1 == 0 && Dups2(e).1 == 0
    ensures Settled(e)
    decreases Size(e)
  {
    if e.Bin? {
      var op, ls := e.op, Leaves(e.op, e);
      RefillLeaves(op, e);
      assert ls[0..|ls|] == ls;
      forall i | 0 <= i < |ls|
        ensures forall j :: 0 <= j < |ls| && i != j ==> Unjoined(op, ls, i, j)
        ensures ls[i].Bin? ==> Settled(ls[i]) && Residue(op, ls[i], e) != Sym(NeutralSym(op))
      {
        QuietSlot(e, i, v);
        if ls[i].Bin? {
          assert Unjoined(op, ls, i, if i == 0 then 1 else 0);
          QuietMeansSettled(ls[i], v);
        }
      }
      forall i, j | 0 <= i < |ls| && 0 <= j < |ls| && i != j ensures Join(op, ls[i], ls[j]).None? {
        assert Unjoined(op, ls, i, j);
      }
    }
  }

  /** A round that counts a change leaves a strictly smaller tree once y and n are eliminated. */
  lemma RoundOk(e: Expr, v: Valuation)
    requires Respects(v)
    ensures Sharper(Eval(e, v), Eval(Round(e).0, v))
    ensures Round(e).1 > 0 ==> Size(EliminateYn(Round(e).0)) < Size(e)
    ensures Round(e).1 == 0 ==> Round(e).0 == e && Settled(e)
  {
    if e.Bin? {
      Dups1Ok(e, v);
      Dups2Ok(Dups1(e).0, v);
      EliminateYnShrinks(Round(e).0);
      if Round(e).1 == 0 { QuietMeansSettled(e, v); }
    } else {
      assert Settled(e);
    }
  }

  /** A valuation: every symbol at the first value of its type. */
  ghost function Default(s: Symbol): (x: Value)
    ensures RightValue(s, x)
  {
    match s
    case SymY => Value(Yes, "y")
    case SymM => Value(Mod, "m")
    case SymN => Value(No, "n")
    case Const(text) => Value(No, text)
    case Var(_, _) => Value(No, "n")
  }

  /** expr_eliminate_dups */
  function EliminateDups(e: Expr): Expr
    decreases Size(e)
  {
    RoundOk(e, s => Default(s));
    var (e', c) := Round(e);
    if c == 0 then e' else EliminateDups(EliminateYn(e'))
  }

  /** The loop: trans_count is reset, both passes run, and a quiet round ends it. */
  method EliminateDupsLoop(e: Expr) returns (r: Expr)
    ensures r == EliminateDups(e)
    ensures Settled(r) && Size(r) <= Size(e)
  {
    r := e;
    var transCount := 1;
    while transCount != 0
      invariant Size(r) <= Size(e)
      invariant transCount != 0 ==> EliminateDups(r) == EliminateDups(e)
      invariant transCount == 0 ==> r == EliminateDups(e) && Settled(r)
      decreases Size(r), transCount
    {
      RoundOk(r, s => Default(s));
      var (r', c) := Round(r);
      transCount := c;
      r := if c == 0 then r' else EliminateYn(r');
    }
  }

  /**
   The result has the value of e wherever that is y or n, under every
   valuation that respects the types, and nothing is left to eliminate.
   */
  lemma {:induction false} EliminateDupsCorrect(e: Expr, v: Valuation)
    requires Respects(v)
    ensures Sharper(Eval(e, v), Eval(EliminateDups(e), v))
    ensures Settled(EliminateDups(e))
    ensures Size(EliminateDups(e)) <= Size(e)
    decreases Size(e)
  {
    RoundOk(e, v);
    RoundOk(e, s => Default(s));
    var (e', c) := Round(e);
    if c != 0 {
      EliminateYnKeepsValue(e', v);
      EliminateDupsCorrect(EliminateYn(e'), v);
    }
  }
}
