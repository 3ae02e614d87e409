/**
 Declarations on which sym_calc_value (scripts/config/symbol.c:231-380) does less for choices than one expects.
 sym_check_deps finds nothing to warn about in them, since it does not follow P_CHOICE (819).
 */
module ChoiceExamples {
  import opened Options
  import opened Expressions
  import opened Normalise
  import opened SymbolValues
  import opened ValueMemo

  // ----- single steps -----

  /** One prompt, no deselection, no default, no user value. */
  predicate Simple(d: Def, p: Expr) {
    |d.prompts| == 1 && CondExpr(d.prompts[0]) == p && d.revDepInv == None && d.defaults == [] && d.user == None
  }

  lemma Seen(defs: Defs, st: State, s: Symbol)
    requires !IsNew(defs, st, s)
    ensures EvalIn(defs, st, Sym(s)) == (st, Known(st, s).tri)
  {
  }

  lemma Constants(defs: Defs, st: State)
    requires forall s :: s in defs ==> s.Var?
    ensures EvalIn(defs, st, Sym(SymY)) == (st, Yes)
    ensures EvalIn(defs, st, Sym(SymM)) == (st, Mod)
    ensures EvalIn(defs, st, Sym(SymN)) == (st, No)
  {
    Seen(defs, st, SymY);
    Seen(defs, st, SymM);
    Seen(defs, st, SymN);
  }

  lemma ShownStep(defs: Defs, st: State, s: Symbol, p: Expr, st1: State, t: Tristate)
    requires (forall x :: x in defs ==> x.Var?) && Simple(DefOf(defs, s), p) && TypeOf(s) == SBoolean
    requires EvalIn(defs, st, p) == (st1, t)
    ensures ShownIn(defs, st, s) == Shown(st1, false, Promote(t))
  {
    var ps := DefOf(defs, s).prompts;
    assert ps[1..] == [];
    assert PromptExpr(ps) == Bin(OrOp, p, Sym(SymN));
    Constants(defs, st1);
    assert EvalIn(defs, st, PromptExpr(ps)) == (st1, t);
  }

  lemma MemberShown(defs: Defs, st: State, m: Symbol, p: Expr, st1: State, t: Tristate)
    requires (forall x :: x in defs ==> x.Var?) && Simple(DefOf(defs, m), p) && TypeOf(m) == SBoolean
    requires DefOf(defs, m).role.Member? && EvalIn(defs, st, p) == (st1, t)
    ensures VisibleIn(defs, st, m) == Vis(st1, false, Promote(t), No)
  {
    ShownStep(defs, st, m, p, st1, t);
  }

  predicate NewMember(defs: Defs, st: State, m: Symbol, p: Expr) {
    && (forall x :: x in defs ==> x.Var?) && Simple(DefOf(defs, m), p) && TypeOf(m) == SBoolean
    && IsNew(defs, st, m) && DefOf(defs, m).role.Member? && DefOf(defs, m).role.choice != m
  }

  /** A visible member is calculated: it is y if it is the one picked. */
  lemma MemberStep(defs: Defs, st: State, m: Symbol, p: Expr, st1: State)
    requires NewMember(defs, st, m, p) && EvalIn(defs, Mark(st, m), p) == (st1, Yes)
    ensures var won := BoolT(PickAt(st1, DefOf(defs, m).role.choice) == Some(m));
            CalcIn(defs, st, m) == Fill(Store(Clear(st1, m), m, TriValue(won)), m, DefOf(defs, m).role.choice)
  {
    var d := DefOf(defs, m);
    MemberShown(defs, Mark(st, m), m, p, st1, Yes);
    var st2 := Clear(st1, m);
    assert PickAt(st2, d.role.choice) == PickAt(st1, d.role.choice);
    var won := BoolT(PickAt(st1, d.role.choice) == Some(m));
    assert TriIn(defs, st2, m, d, Yes, No) == (st2, won);
    var v := ValueIn(defs, Mark(st, m), m);
    assert v == Val(st2, won, Some(d.role.choice));
    assert Valued(v, m) == Fill(Store(st2, m, TriValue(won)), m, d.role.choice);
    assert PickedIn(defs, Valued(v, m), m, d, won) == Valued(v, m);
    assert CalcIn(defs, st, m) == TriBodyIn(defs, Mark(st, m), m);
  }

  /** An invisible member without default is n. */
  lemma HiddenStep(defs: Defs, st: State, m: Symbol, p: Expr, st1: State)
    requires NewMember(defs, st, m, p) && EvalIn(defs, Mark(st, m), p) == (st1, No)
    ensures CalcIn(defs, st, m) == Store(Clear(st1, m), m, TriValue(No))
  {
    var d := DefOf(defs, m);
    MemberShown(defs, Mark(st, m), m, p, st1, No);
    var st2 := Clear(st1, m);
    Constants(defs, st2);
    assert DefaultTriIn(defs, st2, d) == (st2, No);
    assert TriIn(defs, st2, m, d, No, No) == (st2, No);
    var v := ValueIn(defs, Mark(st, m), m);
    assert v == Val(st2, No, None);
    assert PickedIn(defs, Valued(v, m), m, d, No) == Valued(v, m);
    assert CalcIn(defs, st, m) == TriBodyIn(defs, Mark(st, m), m);
  }

  /** A choice that must be made (rev_dep is m) is calculated, up to its pick. */
  lemma ChoiceStep(defs: Defs, st: State, c: Symbol, p: Expr, st1: State)
    requires (forall x :: x in defs ==> x.Var?) && Simple(DefOf(defs, c), p) && TypeOf(c) == SBoolean
    requires IsNew(defs, st, c) && DefOf(defs, c).role.Choice? && DefOf(defs, c).revDep == Some(Sym(SymM))
    requires EvalIn(defs, Mark(st, c), p) == (st1, Yes)
    ensures var st2 := Store(Clear(st1, c), c, TriValue(Yes));
            var (st3, m) := PickIn(defs, st2, Cands(DefOf(defs, c).role, []));
            m.Some? ==> CalcIn(defs, st, c) == StorePick(st3, c, m)
  {
    var d := DefOf(defs, c);
    ShownStep(defs, Mark(st, c), c, p, st1, Yes);
    Constants(defs, st1);
    assert VisibleIn(defs, Mark(st, c), c) == Vis(st1, false, Yes, Yes);
    Constants(defs, Clear(st1, c));
    assert DefaultTriIn(defs, Clear(st1, c), d) == (Clear(st1, c), No);
    assert OpenIn(defs, Clear(st1, c), c, d, Yes, Yes) == (Clear(st1, c), Yes);
    assert TriIn(defs, Clear(st1, c), c, d, Yes, Yes) == (Clear(st1, c), Yes);
    assert ValueIn(defs, Mark(st, c), c) == Val(Clear(st1, c), Yes, None);
    assert CalcIn(defs, st, c) == TriBodyIn(defs, Mark(st, c), c);
  }

  /** A member with the condition y is looked at by the pick. */
  lemma CandStep(defs: Defs, st: State, m: Symbol, p: Expr, st1: State, t: Tristate)
    requires (forall x :: x in defs ==> x.Var?) && Simple(DefOf(defs, m), p) && TypeOf(m) == SBoolean
    requires DefOf(defs, m).role.Member? && EvalIn(defs, st, p) == (st1, t)
    ensures CandIn(defs, st, Cand(Sym(SymY), m)) == (st1, t != No)
  {
    Constants(defs, st);
    MemberShown(defs, st, m, p, st1, t);
  }

  // ----- a member whose prompt reads a later member -----

  /** choice C { B depends on A, A }, which must be made; no user value, no default. */
  function Late(c: Symbol, b: Symbol, a: Symbol): Defs {
    var d := Def("", Plain, [None], None, None, [], None);
    map[c := d.(role := Choice([b, a], None), revDep := Some(Sym(SymM))),
        b := d.(role := Member(c), prompts := [Some(Bin(AndOp, Sym(c), Sym(a)))]),
        a := d.(role := Member(c), prompts := [Some(Sym(c))])]
  }

  predicate Three(c: Symbol, b: Symbol, a: Symbol) {
    && c.Var? && b.Var? && a.Var? && c != b && c != a && b != a
    && TypeOf(c) == SBoolean && TypeOf(b) == SBoolean && TypeOf(a) == SBoolean
  }

  const Empty := State(map[], map[], {}, map[], map[])

  /** The state in which the choice looks at its members. */
  function Looking(st: State, c: Symbol): State {
    Store(Clear(st, c), c, TriValue(Yes))
  }

  lemma AndStep(defs: Defs, st: State, x: Symbol, y: Symbol, st1: State, t: Tristate)
    requires !IsNew(defs, st, x) && Known(st, x).tri == Yes && EvalIn(defs, st, Sym(y)) == (st1, t)
    ensures EvalIn(defs, st, Bin(AndOp, Sym(x), Sym(y))) == (st1, t)
  {
    Seen(defs, st, x);
  }

  /** The later member, calculated while the choice looks at the earlier one: no pick yet, so it is n. */
  lemma TooEarly(c: Symbol, b: Symbol, a: Symbol) returns (st: State)
    requires Three(c, b, a)
    ensures var (defs, st1) := (Late(c, b, a), Looking(Mark(Empty, c), c));
            && EvalIn(defs, st1, Bin(AndOp, Sym(c), Sym(a))) == (st, No)
            && st == Fill(Store(Clear(Mark(st1, a), a), a, TriValue(No)), a, c)
  {
    var defs := Late(c, b, a);
    var st1 := Looking(Mark(Empty, c), c);
    Seen(defs, Mark(st1, a), c);
    MemberStep(defs, st1, a, Sym(c), Mark(st1, a));
    st := CalcIn(defs, st1, a);
    assert EvalIn(defs, st1, Sym(a)) == (st, No);
    AndStep(defs, st1, c, a, st, No);
  }

  lemma TwoCands(b: Symbol, a: Symbol)
    ensures Cands(Choice([b, a], None), []) == [Cand(Sym(SymY), b), Cand(Sym(SymY), a)]
  {
    assert [b, a][1..] == [a] && [a][1..] == [];
    assert MemberCands([a]) == [Cand(Sym(SymY), a)];
  }

  /** Of two candidates the second is taken. */
  lemma SecondTaken(defs: Defs, st: State, b: Symbol, a: Symbol, st1: State, st2: State)
    requires CandIn(defs, st, Cand(Sym(SymY), b)) == (st1, false)
    requires CandIn(defs, st1, Cand(Sym(SymY), a)) == (st2, true)
    ensures PickIn(defs, st, Cands(Choice([b, a], None), [])) == (st2, Some(a))
  {
    TwoCands(b, a);
    assert [Cand(Sym(SymY), b), Cand(Sym(SymY), a)][1..] == [Cand(Sym(SymY), a)];
  }

  lemma PicksLate(c: Symbol, b: Symbol, a: Symbol) returns (st: State)
    requires Three(c, b, a)
    ensures CalcIn(Late(c, b, a), Empty, c) == StorePick(st, c, Some(a))
    ensures st == Fill(Store(Clear(Mark(Looking(Mark(Empty, c), c), a), a), a, TriValue(No)), a, c)
  {
    var defs := Late(c, b, a);
    var st0 := Mark(Empty, c);
    var st1 := Looking(st0, c);
    st := TooEarly(c, b, a);
    CandStep(defs, st1, b, Bin(AndOp, Sym(c), Sym(a)), st, No);
    Seen(defs, st, c);
    CandStep(defs, st, a, Sym(c), st, Yes);
    SecondTaken(defs, st1, b, a, st, st);
    Constants(defs, st0);
    ChoiceStep(defs, Empty, c, Sym(SymY), st0);
  }

  /** Asking for the choice first: it is y and points to A, A is fully visible, and no member is y. */
  lemma ChoiceFirst(c: Symbol, b: Symbol, a: Symbol)
    requires Three(c, b, a)
    ensures var r := CalcIn(Late(c, b, a), CalcIn(Late(c, b, a), Empty, c), b);
            && Known(r, c).tri == Yes && PickAt(r, c) == Some(a) && r.valid == {a, b, c}
            && a in r.full && Known(r, a).tri == No && Known(r, b).tri == No
  {
    var defs := Late(c, b, a);
    var st := PicksLate(c, b, a);
    var st1 := StorePick(st, c, Some(a));
    Seen(defs, Mark(st1, b), a);
    AndStep(defs, Mark(st1, b), c, a, Mark(st1, b), No);
    HiddenStep(defs, st1, b, Bin(AndOp, Sym(c), Sym(a)), Mark(st1, b));
  }

  /** Asking for A first: the choice is calculated on the way, points to A, and A is y. The order matters. */
  lemma MemberFirst(c: Symbol, b: Symbol, a: Symbol)
    requires Three(c, b, a)
    ensures var r := CalcIn(Late(c, b, a), Empty, a);
            Known(r, c).tri == Yes && PickAt(r, c) == Some(a) && a in r.full && Known(r, a).tri == Yes
  {
    var defs := Late(c, b, a);
    var stA := Mark(Empty, a);
    var st0 := Mark(stA, c);
    var st1 := Looking(st0, c);
    Seen(defs, st1, a);
    AndStep(defs, st1, c, a, st1, No);
    CandStep(defs, st1, b, Bin(AndOp, Sym(c), Sym(a)), st1, No);
    Seen(defs, st1, c);
    CandStep(defs, st1, a, Sym(c), st1, Yes);
    SecondTaken(defs, st1, b, a, st1, st1);
    Constants(defs, st0);
    ChoiceStep(defs, stA, c, Sym(SymY), st0);
    var st2 := StorePick(st1, c, Some(a));
    assert EvalIn(defs, stA, Sym(c)) == (st2, Yes);
    MemberStep(defs, Empty, a, Sym(c), st2);
  }

  // ----- a pick left from before -----

  /** choice D { E depends on A }; choice C depends on D { A, B }, where the user has just changed from A to B. */
  function Stale(d: Symbol, e: Symbol, c: Symbol, a: Symbol, b: Symbol): Defs {
    var x := Def("", Plain, [None], None, None, [], None);
    map[d := x.(role := Choice([e], None), revDep := Some(Sym(SymM))),
        e := x.(role := Member(d), prompts := [Some(Bin(AndOp, Sym(d), Sym(a)))]),
        c := x.(role := Choice([a, b], Some(b)), revDep := Some(Sym(SymM)), prompts := [Some(Sym(d))]),
        a := x.(role := Member(c), prompts := [Some(Sym(c))]),
        b := x.(role := Member(c), prompts := [Some(Sym(c))])]
  }

  predicate Five(d: Symbol, e: Symbol, c: Symbol, a: Symbol, b: Symbol) {
    && Three(d, e, c) && Three(c, a, b) && d != a && d != b && e != a && e != b
  }

  /** The choice C was y with A before sym_clear_all_valid. */
  function LeftOver(c: Symbol, a: Symbol): State {
    State(map[c := TriValue(Yes)], map[c := Some(a)], {}, map[], map[])
  }

  /** D looks at E, which reads A; A still finds itself picked by C, whose calculation has only begun. */
  lemma StillPicked(d: Symbol, e: Symbol, c: Symbol, a: Symbol, b: Symbol) returns (st: State)
    requires Five(d, e, c, a, b)
    ensures var (defs, st1) := (Stale(d, e, c, a, b), Looking(Mark(Mark(LeftOver(c, a), c), d), d));
            && st == Fill(Store(Clear(Mark(st1, a), a), a, TriValue(Yes)), a, c)
            && EvalIn(defs, st1, Bin(AndOp, Sym(d), Sym(a))) == (st, Yes)
  {
    var defs := Stale(d, e, c, a, b);
    var st1 := Looking(Mark(Mark(LeftOver(c, a), c), d), d);
    Seen(defs, Mark(st1, a), c);
    assert PickAt(Mark(st1, a), c) == Some(a) && Known(Mark(st1, a), c) == TriValue(Yes);
    MemberStep(defs, st1, a, Sym(c), Mark(st1, a));
    st := CalcIn(defs, st1, a);
    assert EvalIn(defs, st1, Sym(a)) == (st, Yes);
    AndStep(defs, st1, d, a, st, Yes);
  }

  lemma OneCand(defs: Defs, st: State, r: Role, m: Symbol, st1: State)
    requires r == Choice([m], None) || (r.Choice? && r.chosen == Some(m))
    requires CandIn(defs, st, Cand(Sym(SymY), m)) == (st1, true)
    ensures PickIn(defs, st, Cands(r, [])) == (st1, Some(m))
  {
    assert Cands(r, [])[0] == Cand(Sym(SymY), m) by {
      if r.chosen.None? { assert MemberCands([m])[0] == Cand(Sym(SymY), m); }
    }
  }

  lemma PicksFirst(d: Symbol, e: Symbol, c: Symbol, a: Symbol, b: Symbol) returns (st: State)
    requires Five(d, e, c, a, b)
    ensures var st1 := Looking(Mark(Mark(LeftOver(c, a), c), d), d);
            && st == Fill(Store(Clear(Mark(st1, a), a), a, TriValue(Yes)), a, c)
            && PickIn(Stale(d, e, c, a, b), st1, Cands(Choice([e], None), [])) == (st, Some(e))
  {
    var defs := Stale(d, e, c, a, b);
    var st1 := Looking(Mark(Mark(LeftOver(c, a), c), d), d);
    st := StillPicked(d, e, c, a, b);
    CandStep(defs, st1, e, Bin(AndOp, Sym(d), Sym(a)), st, Yes);
    OneCand(defs, st1, Choice([e], None), e, st);
  }

  lemma DLeaves(d: Symbol, e: Symbol, c: Symbol, a: Symbol, b: Symbol)
    requires Five(d, e, c, a, b)
    ensures var st1 := Looking(Mark(Mark(LeftOver(c, a), c), d), d);
            var st := StorePick(Fill(Store(Clear(Mark(st1, a), a), a, TriValue(Yes)), a, c), d, Some(e));
            && Known(st, d).tri == Yes && Known(st, a).tri == Yes && a in st.full
            && a in st.valid && c in st.valid && b !in st.valid
  {
  }

  /** What D leaves when C asks for it. */
  lemma FirstChoice(d: Symbol, e: Symbol, c: Symbol, a: Symbol, b: Symbol) returns (st: State)
    requires Five(d, e, c, a, b)
    ensures EvalIn(Stale(d, e, c, a, b), Mark(LeftOver(c, a), c), Sym(d)) == (st, Yes)
    ensures Known(st, a).tri == Yes && a in st.full && a in st.valid && c in st.valid && b !in st.valid
  {
    var defs := Stale(d, e, c, a, b);
    var stC := Mark(LeftOver(c, a), c);
    var st2 := PicksFirst(d, e, c, a, b);
    DLeaves(d, e, c, a, b);
    st := StorePick(st2, d, Some(e));
    assert CalcIn(defs, stC, d) == st by {
      Constants(defs, Mark(stC, d));
      ChoiceStep(defs, stC, d, Sym(SymY), Mark(stC, d));
    }
  }

  /** C then picks what the user has just set. */
  lemma SecondChoice(d: Symbol, e: Symbol, c: Symbol, a: Symbol, b: Symbol, st1: State)
    requires Five(d, e, c, a, b) && c in st1.valid
    requires EvalIn(Stale(d, e, c, a, b), Mark(LeftOver(c, a), c), Sym(d)) == (st1, Yes)
    ensures CalcIn(Stale(d, e, c, a, b), LeftOver(c, a), c) == StorePick(Looking(st1, c), c, Some(b))
  {
    var defs := Stale(d, e, c, a, b);
    var st2 := Looking(st1, c);
    Seen(defs, st2, c);
    CandStep(defs, st2, b, Sym(c), st2, Yes);
    OneCand(defs, st2, defs[c].role, b, st2);
    ChoiceStep(defs, LeftOver(c, a), c, Sym(d), st1);
  }

  /** Two visible members of one choice are y at the end: the one picked before and the one picked now. */
  lemma TwoYes(d: Symbol, e: Symbol, c: Symbol, a: Symbol, b: Symbol)
    requires Five(d, e, c, a, b)
    ensures var defs := Stale(d, e, c, a, b);
            var r := CalcIn(defs, CalcIn(defs, LeftOver(c, a), c), b);
            && a in r.full && b in r.full && a != b && DefOf(defs, a).role == DefOf(defs, b).role == Member(c)
            && Known(r, a).tri == Yes && Known(r, b).tri == Yes
  {
    var defs := Stale(d, e, c, a, b);
    var st1 := FirstChoice(d, e, c, a, b);
    SecondChoice(d, e, c, a, b, st1);
    var st3 := StorePick(Looking(st1, c), c, Some(b));
    Seen(defs, Mark(st3, b), c);
    MemberStep(defs, st3, b, Sym(c), Mark(st3, b));
  }
}
