/**
 The operands of a nest of one operator. The optimiser walks `a && (b && c)`
 slot by slot; the slots are the leaves of the nest, its level.
 */
module Levels {
  import opened Expressions

  predicate IsOp(op: Op, e: Expr) {
    e.Bin? && e.op == op
  }

  function Leaves(op: Op, e: Expr): (ls: seq<Expr>)
    ensures |ls| >= 1
    ensures IsOp(op, e) ==> |ls| >= 2
    ensures forall k :: 0 <= k < |ls| ==> !IsOp(op, ls[k]) && Size(ls[k]) <= Size(e)
    ensures IsOp(op, e) ==> forall k :: 0 <= k < |ls| ==> Size(ls[k]) < Size(e)
  {
    if IsOp(op, e) then Leaves(op, e.l) + Leaves(op, e.r) else [e]
  }

  /** The nest of e with its slots refilled. */
  function Refill(op: Op, e: Expr, ls: seq<Expr>): (r: Expr)
    requires |ls| == |Leaves(op, e)|
    ensures IsOp(op, e) ==> IsOp(op, r)
  {
    if IsOp(op, e) then
      var n := |Leaves(op, e.l)|;
      Bin(op, Refill(op, e.l, ls[..n]), Refill(op, e.r, ls[n..]))
    else
      ls[0]
  }

  lemma {:induction false} RefillLeaves(op: Op, e: Expr)
    ensures Refill(op, e, Leaves(op, e)) == e
  {
    if IsOp(op, e) {
      RefillLeaves(op, e.l);
      RefillLeaves(op, e.r);
      assert Leaves(op, e)[..|Leaves(op, e.l)|] == Leaves(op, e.l);
      assert Leaves(op, e)[|Leaves(op, e.l)|..] == Leaves(op, e.r);
    }
  }

  /** Refilling with operands of other kinds leaves the nest as it was: the slots stay the slots. */
  lemma {:induction false} LeavesRefill(op: Op, e: Expr, ls: seq<Expr>)
    requires |ls| == |Leaves(op, e)|
    requires forall k :: 0 <= k < |ls| ==> !IsOp(op, ls[k])
    ensures Leaves(op, Refill(op, e, ls)) == ls
  {
    if IsOp(op, e) {
      var n := |Leaves(op, e.l)|;
      LeavesRefill(op, e.l, ls[..n]);
      LeavesRefill(op, e.r, ls[n..]);
      assert Leaves(op, Refill(op, e, ls)) == ls[..n] + ls[n..];
      assert ls[..n] + ls[n..] == ls;
    }
  }

  function Total(ls: seq<Expr>): nat {
    if ls == [] then 0 else Size(ls[0]) + Total(ls[1..])
  }

  lemma {:induction false} TotalConcat(a: seq<Expr>, b: seq<Expr>)
    ensures Total(a + b) == Total(a) + Total(b)
  {
    if a == [] {
      assert a + b == b;
    } else {
      TotalConcat(a[1..], b);
      assert (a + b)[1..] == a[1..] + b;
    }
  }

  lemma {:induction false} TotalUpdate(ls: seq<Expr>, i: nat, x: Expr)
    requires i < |ls|
    ensures Total(ls[i := x]) == Total(ls) - Size(ls[i]) + Size(x)
  {
    if i == 0 {
      assert ls[0 := x][1..] == ls[1..];
    } else {
      TotalUpdate(ls[1..], i - 1, x);
      assert ls[i := x][1..] == ls[1..][i - 1 := x];
    }
  }

  lemma {:induction false} SizeRefill(op: Op, e: Expr, ls: seq<Expr>)
    requires |ls| == |Leaves(op, e)|
    ensures Size(Refill(op, e, ls)) == Total(ls) + |ls| - 1
  {
    if IsOp(op, e) {
      var n := |Leaves(op, e.l)|;
      SizeRefill(op, e.l, ls[..n]);
      SizeRefill(op, e.r, ls[n..]);
      TotalConcat(ls[..n], ls[n..]);
      assert ls[..n] + ls[n..] == ls;
    }
  }

  /** The value of a level. */
  ghost function Combine(op: Op, ls: seq<Expr>, v: Valuation): Tristate {
    if ls == [] then NeutralT(op) else Apply(op, Eval(ls[0], v), Combine(op, ls[1..], v))
  }

  /** The absorbing value if some operand has it, the neutral one if all have it, m otherwise. */
  lemma {:induction false} CombineIs(op: Op, ls: seq<Expr>, v: Valuation)
    ensures Combine(op, ls, v) == AbsorbingT(op) <==> exists k :: 0 <= k < |ls| && Eval(ls[k], v) == AbsorbingT(op)
    ensures Combine(op, ls, v) == NeutralT(op) <==> forall k :: 0 <= k < |ls| ==> Eval(ls[k], v) == NeutralT(op)
  {
    if ls != [] {
      CombineIs(op, ls[1..], v);
      assert forall k :: 1 <= k < |ls| ==> ls[k] == ls[1..][k - 1];
    }
  }

  lemma {:induction false} CombineConcat(op: Op, a: seq<Expr>, b: seq<Expr>, v: Valuation)
    ensures Combine(op, a + b, v) == Apply(op, Combine(op, a, v), Combine(op, b, v))
  {
    if a == [] {
      assert a + b == b;
    } else {
      CombineConcat(op, a[1..], b, v);
      assert (a + b)[1..] == a[1..] + b;
    }
  }

  lemma {:induction false} EvalRefill(op: Op, e: Expr, ls: seq<Expr>, v: Valuation)
    requires |ls| == |Leaves(op, e)|
    ensures Eval(Refill(op, e, ls), v) == Combine(op, ls, v)
  {
    if IsOp(op, e) {
      var n := |Leaves(op, e.l)|;
      EvalRefill(op, e.l, ls[..n], v);
      EvalRefill(op, e.r, ls[n..], v);
      CombineConcat(op, ls[..n], ls[n..], v);
      assert ls[..n] + ls[n..] == ls;
    } else {
      assert Eval(ls[0], v) == Combine(op, ls, v);
    }
  }

  lemma EvalLeaves(op: Op, e: Expr, v: Valuation)
    ensures Eval(e, v) == Combine(op, Leaves(op, e), v)
  {
    RefillLeaves(op, e);
    EvalRefill(op, e, Leaves(op, e), v);
  }
}
