/**
 expr_eliminate_dups keeps normal forms normal, so the expressions that
 menu_finalize hands to expr_trans_bool are ones it is right for. Joining and
 rewriting only drop operands, put n or y in their place or join two symbols,
 and all of these are normal where the operands were; the rest carries this
 through leaves, rows and rounds.
 */
module NormalForms {
  import opened Options
  import opened Expressions
  import opened Levels
  import opened Equality
  import opened Normalise
  import opened Duplicates
  import opened ExprShapes

  /** Normal, and if asked for without foreign constants in the place of values. */
  predicate Tidy(strict: bool, e: Expr) {
    Normal(e) && (strict ==> NoForeign(e))
  }

  predicate AllTidy(strict: bool, ls: seq<Expr>) {
    forall k :: 0 <= k < |ls| ==> Tidy(strict, ls[k])
  }

  lemma {:induction false} TidyRefill(strict: bool, op: Op, e: Expr, ls: seq<Expr>)
    requires |ls| == |Leaves(op, e)|
    ensures Tidy(strict, Refill(op, e, ls)) <==> AllTidy(strict, ls)
  {
    if IsOp(op, e) {
      var n := |Leaves(op, e.l)|;
      TidyRefill(strict, op, e.l, ls[..n]);
      TidyRefill(strict, op, e.r, ls[n..]);
      assert forall k :: 0 <= k < |ls| ==> ls[k] == if k < n then ls[..n][k] else ls[n..][k - n];
      assert forall k :: 0 <= k < |ls| - n ==> ls[n..][k] == ls[n + k];
    }
  }

  lemma {:induction false} EliminateYnTidy(strict: bool, e: Expr)
    requires Tidy(strict, e)
    ensures Tidy(strict, EliminateYn(e))
  {
    if e.Bin? {
      EliminateYnTidy(strict, e.l);
      EliminateYnTidy(strict, e.r);
    }
  }

  lemma JoinTidy(strict: bool, op: Op, a: Expr, b: Expr)
    requires Tidy(strict, a) && Tidy(strict, b) && Join(op, a, b).Some?
    ensures Tidy(strict, Join(op, a, b).value)
  {
  }

  lemma {:induction false} Dups1CellTidy(strict: bool, op: Op, ls: seq<Expr>, i: nat, j: nat, bound: nat)
    requires Slots(op, ls, bound) && i < |ls| && j < |ls| && i != j && AllTidy(strict, ls)
    ensures AllTidy(strict, Dups1Cell(op, ls, i, j, bound).ls)
    decreases bound, 0, |ls| - j, 0
  {
    SlotSize(ls, i);
    if ls[i].Bin? { Dups1Tidy(strict, ls[i]); }
    var x := if ls[i].Bin? then Dups1(ls[i]).0 else ls[i];
    if Join(op, x, ls[j]).Some? { JoinTidy(strict, op, x, ls[j]); }
  }

  lemma {:induction false} Dups1RowTidy(strict: bool, op: Op, ls: seq<Expr>, i: nat, j: nat, bound: nat)
    requires Slots(op, ls, bound) && i < |ls| && j <= |ls| && AllTidy(strict, ls)
    ensures AllTidy(strict, Dups1Row(op, ls, i, j, bound).ls)
    decreases bound, 0, |ls| - j
  {
    if j < |ls| {
      if i != j { Dups1CellTidy(strict, op, ls, i, j, bound); }
      var p := if i == j then Pass(ls, 0) else Dups1Cell(op, ls, i, j, bound);
      Dups1RowTidy(strict, op, p.ls, i, j + 1, bound);
    }
  }

  lemma {:induction false} Dups1RowsTidy(strict: bool, op: Op, ls: seq<Expr>, i: nat, bound: nat)
    requires Slots(op, ls, bound) && i <= |ls| && AllTidy(strict, ls)
    ensures AllTidy(strict, Dups1Rows(op, ls, i, bound).ls)
    decreases bound, 1, |ls| - i
  {
    if i < |ls| {
      Dups1RowTidy(strict, op, ls, i, 0, bound);
      Dups1RowsTidy(strict, op, Dups1Row(op, ls, i, 0, bound).ls, i + 1, bound);
    }
  }

  lemma {:induction false} Dups1Tidy(strict: bool, e: Expr)
    requires e.Bin? && Tidy(strict, e)
    ensures Tidy(strict, Dups1(e).0)
    decreases Size(e), 2
  {
    var ls := Leaves(e.op, e);
    LevelSlots(e);
    RefillLeaves(e.op, e);
    TidyRefill(strict, e.op, e, ls);
    Dups1RowsTidy(strict, e.op, ls, 0, Size(e));
    TidyRefill(strict, e.op, e, Dups1Rows(e.op, ls, 0, Size(e)).ls);
  }

  lemma {:induction false} Dups2StepTidy(strict: bool, op: Op, s: Span, ls: seq<Expr>, i: nat, bound: nat)
    requires Slots(op, ls, bound) && i < |ls| && s.lo + |Leaves(op, s.shape)| <= |ls| && AllTidy(strict, ls)
    ensures AllTidy(strict, Dups2Step(op, s, ls, i, bound).ls)
    decreases bound, 0, 0, 1
  {
    if ls[i].Bin? && !Itself(op, s, i) {
      SlotSize(ls, i);
      Dups2Tidy(strict, ls[i]);
      var r := Dups2Cell(op, s.shape, s.lo, ls, i, bound).ls;
      assert r == ls[i := Dups2(ls[i]).0] || r == ls[i := Sym(AbsorbingSym(op))];
    }
  }

  lemma {:induction false} Dups2RowTidy(strict: bool, op: Op, spans: seq<Span>, ls: seq<Expr>, i: nat, k: nat,
                                        bound: nat)
    requires Slots(op, ls, bound) && i < |ls| && Inside(op, spans, |ls|) && k <= |spans| && AllTidy(strict, ls)
    ensures AllTidy(strict, Dups2Row(op, spans, ls, i, k, bound).ls)
    decreases bound, 0, |spans| - k
  {
    if k < |spans| {
      Dups2StepTidy(strict, op, spans[k], ls, i, bound);
      Dups2RowTidy(strict, op, spans, Dups2Step(op, spans[k], ls, i, bound).ls, i, k + 1, bound);
    }
  }

  lemma {:induction false} Dups2RowsTidy(strict: bool, op: Op, spans: seq<Span>, ls: seq<Expr>, i: nat, bound: nat)
    requires Slots(op, ls, bound) && i <= |ls| && Inside(op, spans, |ls|) && AllTidy(strict, ls)
    ensures AllTidy(strict, Dups2Rows(op, spans, ls, i, bound).ls)
    decreases bound, 1, |ls| - i
  {
    if i < |ls| {
      Dups2RowTidy(strict, op, spans, ls, i, 0, bound);
      Dups2RowsTidy(strict, op, spans, Dups2Row(op, spans, ls, i, 0, bound).ls, i + 1, bound);
    }
  }

  lemma {:induction false} Dups2Tidy(strict: bool, e: Expr)
    requires e.Bin? && Tidy(strict, e)
    ensures Tidy(strict, Dups2(e).0)
    decreases Size(e), 2
  {
    var ls := Leaves(e.op, e);
    LevelSlots(e);
    RefillLeaves(e.op, e);
    TidyRefill(strict, e.op, e, ls);
    Dups2RowsTidy(strict, e.op, Spans(e.op, e, 0), ls, 0, Size(e));
    TidyRefill(strict, e.op, e, Dups2Rows(e.op, Spans(e.op, e, 0), ls, 0, Size(e)).ls);
  }

  lemma {:induction false} EliminateDupsTidy(strict: bool, e: Expr)
    requires Tidy(strict, e)
    ensures Tidy(strict, EliminateDups(e))
    decreases Size(e)
  {
    RoundOk(e, s => Default(s));
    if e.Bin? {
      Dups1Tidy(strict, e);
      Dups2Tidy(strict, Dups1(e).0);
    }
    if Round(e).1 != 0 {
      EliminateYnTidy(strict, Round(e).0);
      EliminateDupsTidy(strict, EliminateYn(Round(e).0));
    }
  }

  /** The result of expr_eliminate_dups is in normal form if its argument is. */
  lemma EliminateDupsNormal(e: Expr)
    requires Normal(e)
    ensures Normal(EliminateDups(e))
  {
    EliminateDupsTidy(false, e);
  }
}
