/**
 Members for which sym_set_tristate_value (scripts/config/symbol.c:433-460) accepts y and which are n when everything
 is calculated again. In the first example the choice is at m, so it picks nobody, and its bool member, whose m is
 promoted to a visibility of y, finds itself not picked. In the second the member is hidden and y by a default that
 reads another member; storing it as the user's member makes the choice pick differently. For both, the declarations
 and the values before and after are given, with ranks, so each solution is the only one.
 */
module SettingExamples {
  import opened Options
  import opened Expressions
  import opened Normalise
  import opened SymbolValues
  import opened ValueDeps
  import opened ValueMemo
  import opened ValueSetting
  import opened MemberSetting

  const NoState := State(map[], map[], {}, map[], map[])

  predicate Bools(a: Symbol, b: Symbol) {
    a.Var? && b.Var? && a != b && TypeOf(a) == SBoolean && TypeOf(b) == SBoolean
  }

  predicate Right(defs: Defs, w: World, y: Symbol) {
    w.v(y) == Calc(defs, y, w) && w.pick(y) == PickOf(defs, y, w)
  }

  lemma OnePromptValue(p: Option<Expr>, v: Valuation)
    requires Respects(v)
    ensures Eval(PromptExpr([p]), v) == EvalOpt(p, v)
  {
    assert [p][1..] == [];
    assert PromptExpr([p]) == Bin(OrOp, CondExpr(p), Sym(SymN));
    assert RightValue(SymY, v(SymY)) && RightValue(SymN, v(SymN));
  }

  // ----- a bool member of a tristate choice -----

  /** A tristate choice that the user has set to m, and its bool member A. */
  function Mixed(c: Symbol, a: Symbol): Defs {
    var d := Def("", Plain, [None], None, None, [], None);
    map[c := d.(role := Choice([a], None), revDep := Some(Sym(SymM)), user := Some(TriValue(Mod))),
        a := d.(role := Member(c), prompts := [Some(Sym(c))])]
  }

  function MixedWorld(c: Symbol): World {
    World(s => if s == c then TriValue(Mod) else Known(NoState, s), s => None)
  }

  predicate MixedTypes(c: Symbol, a: Symbol) {
    c.Var? && a.Var? && c != a && TypeOf(c) == STristate && TypeOf(a) == SBoolean
  }

  lemma MixedRespects(c: Symbol, a: Symbol)
    requires MixedTypes(c, a)
    ensures Respects(MixedWorld(c).v)
  {
    forall s ensures RightValue(s, MixedWorld(c).v(s)) {}
  }

  lemma MixedSeen(c: Symbol, a: Symbol)
    requires MixedTypes(c, a)
    ensures var (defs, v) := (Mixed(c, a), MixedWorld(c).v);
            && Visible(c, defs[c], v) == Yes && Selected(c, defs[c], v) == Mod && !Deselected(defs[c], v)
            && Visible(a, defs[a], v) == Yes
  {
    MixedRespects(c, a);
    var v := MixedWorld(c).v;
    OnePromptValue(None, v);
    OnePromptValue(Some(Sym(c)), v);
  }

  lemma MixedSolution(c: Symbol, a: Symbol)
    requires MixedTypes(c, a)
    ensures Solution(Mixed(c, a), MixedWorld(c))
  {
    MixedRespects(c, a);
    MixedSeen(c, a);
  }

  lemma MixedChoiceAfter(c: Symbol, a: Symbol)
    requires MixedTypes(c, a)
    ensures Right(SetMember(Mixed(c, a), MixedWorld(c).v, c, a), MixedWorld(c), c)
  {
    var defs, w := Mixed(c, a), MixedWorld(c);
    var defs' := SetMember(defs, w.v, c, a);
    MixedSeen(c, a);
    SetSameButUser(defs, w.v, c, a);
    VisibleSame(c, defs[c], defs'[c], w.v);
    assert defs'[c].user == Some(TriValue(Mod));
  }

  lemma MixedMemberAfter(c: Symbol, a: Symbol)
    requires MixedTypes(c, a)
    ensures Right(SetMember(Mixed(c, a), MixedWorld(c).v, c, a), MixedWorld(c), a)
  {
    var defs, w := Mixed(c, a), MixedWorld(c);
    var defs' := SetMember(defs, w.v, c, a);
    MixedSeen(c, a);
    SetSameButUser(defs, w.v, c, a);
    VisibleSame(a, defs[a], defs'[a], w.v);
    assert defs'[a].role == Member(c);
  }

  lemma MixedAfter(c: Symbol, a: Symbol)
    requires MixedTypes(c, a)
    ensures Solution(SetTo(Mixed(c, a), MixedWorld(c).v, a, Yes), MixedWorld(c))
  {
    var defs' := SetMember(Mixed(c, a), MixedWorld(c).v, c, a);
    MixedRespects(c, a);
    MixedChoiceAfter(c, a);
    MixedMemberAfter(c, a);
    assert defs'.Keys == {c, a};
    forall y | y in defs' ensures Right(defs', MixedWorld(c), y) {}
  }

  lemma PromptReads(p: Option<Expr>)
    ensures Mentions(PromptExpr([p])) == Mentions(CondExpr(p)) + {SymN}
  {
    assert [p][1..] == [];
    assert PromptExpr([p]) == Bin(OrOp, CondExpr(p), Sym(SymN));
  }

  lemma MixedReads(c: Symbol, a: Symbol)
    requires MixedTypes(c, a)
    ensures Vars(Reads(Mixed(c, a), c)) == {} && Vars(Reads(Mixed(c, a), a)) == {c}
  {
    var defs := Mixed(c, a);
    PromptReads(None);
    PromptReads(Some(Sym(c)));
    assert VisReads(defs[a]) == {c, SymN} && VisReads(defs[c]) == {SymY, SymN, SymM};
    var cs := [Cand(Sym(SymY), a)];
    assert MemberCands([a]) == cs by { assert [a][1..] == []; }
    assert Cands(defs[c].role, defs[c].defaults) == cs;
    assert CandReads(defs, cs) == {SymY} + VisReads(defs[a]) by { assert cs[1..] == []; }
    assert Reads(defs, a) == {c, SymN};
    assert Reads(defs, c) == {SymY, SymN, SymM};
  }

  lemma MixedRanked(c: Symbol, a: Symbol)
    requires MixedTypes(c, a)
    ensures Typed(Mixed(c, a)) && Ranked(Mixed(c, a), s => if s == c then 0 else 1) && Registered(Mixed(c, a), a)
  {
    MixedReads(c, a);
    RankedPair(Mixed(c, a), c, a);
  }

  /** y is accepted for the visible member, and it is n before and after. */
  lemma MixedStaysNo(c: Symbol, a: Symbol)
    requires MixedTypes(c, a)
    ensures var (defs, w) := (Mixed(c, a), MixedWorld(c));
            && Solution(defs, w) && Solution(SetTo(defs, w.v, a, Yes), w)
            && Typed(defs) && Ranked(defs, s => if s == c then 0 else 1) && Registered(defs, a)
            && Visible(a, defs[a], w.v) == Yes && Accepts(a, defs[a], w.v, Yes) && w.v(a).tri == No
  {
    MixedSolution(c, a);
    MixedAfter(c, a);
    MixedRanked(c, a);
    MixedSeen(c, a);
  }

  // ----- a hidden member -----

  /** choice C { B, A, S } with A chosen; S has no prompt and is y by default if A is. */
  function Hidden(c: Symbol, b: Symbol, a: Symbol, s: Symbol): Defs {
    var d := Def("", Plain, [None], None, None, [], None);
    var m := d.(role := Member(c), prompts := [Some(Sym(c))]);
    map[c := d.(role := Choice([b, a, s], Some(a)), revDep := Some(Sym(SymM))),
        b := m, a := m,
        s := m.(prompts := [], defaults := [Default(None, Sym(a))])]
  }

  predicate Four(c: Symbol, b: Symbol, a: Symbol, s: Symbol) {
    && Bools(c, b) && Bools(c, a) && Bools(c, s) && Bools(b, a) && Bools(b, s) && Bools(a, s)
  }

  /** C is y with x, and S as A. */
  function PickWorld(c: Symbol, a: Symbol, s: Symbol, x: Symbol): World {
    World(y => if y == c || y == x || (y == s && x == a) then TriValue(Yes) else Known(NoState, y),
          y => if y == c then Some(x) else None)
  }

  lemma PickRespects(c: Symbol, b: Symbol, a: Symbol, s: Symbol, x: Symbol)
    requires Four(c, b, a, s) && (x == a || x == b)
    ensures Respects(PickWorld(c, a, s, x).v)
  {
    forall y ensures RightValue(y, PickWorld(c, a, s, x).v(y)) {}
  }

  /** Whatever C picks, C, A and B are visible and S is not. */
  lemma HiddenSeen(c: Symbol, b: Symbol, a: Symbol, s: Symbol, v: Valuation)
    requires Four(c, b, a, s) && Respects(v) && v(c).tri == Yes
    ensures var defs := Hidden(c, b, a, s);
            && Visible(c, defs[c], v) == Yes && Selected(c, defs[c], v) == Yes && !Deselected(defs[c], v)
            && Visible(b, defs[b], v) == Yes && Visible(a, defs[a], v) == Yes && Visible(s, defs[s], v) == No
            && !Deselected(defs[s], v)
  {
    OnePromptValue(None, v);
    OnePromptValue(Some(Sym(c)), v);
    assert RightValue(SymN, v(SymN)) && RightValue(SymM, v(SymM));
  }

  lemma HiddenDefault(c: Symbol, b: Symbol, a: Symbol, s: Symbol, v: Valuation)
    requires Four(c, b, a, s) && Respects(v)
    ensures DefaultTri(Hidden(c, b, a, s)[s], v) == v(a).tri
  {
    assert RightValue(SymY, v(SymY));
    assert FirstDefault([Default(None, Sym(a))], v) == Some(Sym(a));
  }

  /** A choice between the members under the one and the other user's member. */
  lemma HiddenPick(c: Symbol, b: Symbol, a: Symbol, s: Symbol, defs: Defs, v: Valuation)
    requires Four(c, b, a, s) && AllSameButUser(Hidden(c, b, a, s), defs) && Respects(v) && v(c).tri == Yes
    ensures FirstCand(defs, Cands(Choice([b, a, s], Some(a)), []), v) == Some(a)
    ensures FirstCand(defs, Cands(Choice([b, a, s], Some(s)), []), v) == Some(b)
  {
    var h := Hidden(c, b, a, s);
    HiddenSeen(c, b, a, s, v);
    VisibleSame(a, h[a], defs[a], v);
    VisibleSame(b, h[b], defs[b], v);
    VisibleSame(s, h[s], defs[s], v);
    assert RightValue(SymY, v(SymY));
    var rest := MemberCands([b, a, s]);
    assert rest[0] == Cand(Sym(SymY), b);
    var cs := Cands(Choice([b, a, s], Some(s)), []);
    assert cs == [Cand(Sym(SymY), s)] + rest && cs[1..] == rest;
    assert Cands(Choice([b, a, s], Some(a)), [])[0] == Cand(Sym(SymY), a);
  }

  /** A member of such declarations: it has its value if the choice picks x. */
  lemma MemberFits(c: Symbol, b: Symbol, a: Symbol, s: Symbol, defs: Defs, x: Symbol, y: Symbol)
    requires Four(c, b, a, s) && (x == a || x == b) && AllSameButUser(Hidden(c, b, a, s), defs)
    requires y == a || y == b
    ensures Right(defs, PickWorld(c, a, s, x), y)
  {
    var h, w := Hidden(c, b, a, s), PickWorld(c, a, s, x);
    PickRespects(c, b, a, s, x);
    HiddenSeen(c, b, a, s, w.v);
    VisibleSame(y, h[y], defs[y], w.v);
    assert defs[y].role == Member(c);
  }

  lemma HiddenFits(c: Symbol, b: Symbol, a: Symbol, s: Symbol, defs: Defs, x: Symbol)
    requires Four(c, b, a, s) && (x == a || x == b) && AllSameButUser(Hidden(c, b, a, s), defs)
    ensures Right(defs, PickWorld(c, a, s, x), s)
  {
    var h, w := Hidden(c, b, a, s), PickWorld(c, a, s, x);
    PickRespects(c, b, a, s, x);
    HiddenSeen(c, b, a, s, w.v);
    HiddenDefault(c, b, a, s, w.v);
    VisibleSame(s, h[s], defs[s], w.v);
    assert defs[s].role == Member(c);
  }

  lemma ChoiceFits(c: Symbol, b: Symbol, a: Symbol, s: Symbol, defs: Defs, x: Symbol)
    requires Four(c, b, a, s) && (x == a || x == b) && AllSameButUser(Hidden(c, b, a, s), defs)
    requires var v := PickWorld(c, a, s, x).v; FirstCand(defs, Cands(defs[c].role, []), Held(v, c)) == Some(x)
    ensures Right(defs, PickWorld(c, a, s, x), c)
  {
    var h, w := Hidden(c, b, a, s), PickWorld(c, a, s, x);
    PickRespects(c, b, a, s, x);
    HiddenSeen(c, b, a, s, w.v);
    VisibleSame(c, h[c], defs[c], w.v);
    assert CalcTri(c, defs[c], w) == Yes;
  }

  /** Declarations like these are solved by the choice picking x, if this is whom it picks. */
  lemma PickSolves(c: Symbol, b: Symbol, a: Symbol, s: Symbol, defs: Defs, x: Symbol)
    requires Four(c, b, a, s) && (x == a || x == b) && AllSameButUser(Hidden(c, b, a, s), defs)
    requires var v := PickWorld(c, a, s, x).v; FirstCand(defs, Cands(defs[c].role, []), Held(v, c)) == Some(x)
    ensures Solution(defs, PickWorld(c, a, s, x))
  {
    PickRespects(c, b, a, s, x);
    ChoiceFits(c, b, a, s, defs, x);
    MemberFits(c, b, a, s, defs, x, a);
    MemberFits(c, b, a, s, defs, x, b);
    HiddenFits(c, b, a, s, defs, x);
    SolutionOfFour(c, b, a, s, defs, PickWorld(c, a, s, x));
  }

  lemma SolutionOfFour(c: Symbol, b: Symbol, a: Symbol, s: Symbol, defs: Defs, w: World)
    requires defs.Keys == {c, b, a, s} && Respects(w.v)
    requires Right(defs, w, c) && Right(defs, w, b) && Right(defs, w, a) && Right(defs, w, s)
    ensures Solution(defs, w)
  {
    forall y | y in defs ensures Right(defs, w, y) {}
  }

  lemma HiddenBefore(c: Symbol, b: Symbol, a: Symbol, s: Symbol)
    requires Four(c, b, a, s)
    ensures Solution(Hidden(c, b, a, s), PickWorld(c, a, s, a))
  {
    var defs, v := Hidden(c, b, a, s), PickWorld(c, a, s, a).v;
    PickRespects(c, b, a, s, a);
    HeldRespects(v, c);
    HiddenPick(c, b, a, s, defs, Held(v, c));
    PickSolves(c, b, a, s, defs, a);
  }

  lemma HiddenAfter(c: Symbol, b: Symbol, a: Symbol, s: Symbol)
    requires Four(c, b, a, s)
    ensures Solution(SetTo(Hidden(c, b, a, s), PickWorld(c, a, s, a).v, s, Yes), PickWorld(c, a, s, b))
  {
    var defs, was, v := Hidden(c, b, a, s), PickWorld(c, a, s, a).v, PickWorld(c, a, s, b).v;
    var defs' := SetMember(defs, was, c, s);
    assert SetTo(defs, was, s, Yes) == defs';
    SetSameButUser(defs, was, c, s);
    PickRespects(c, b, a, s, b);
    HeldRespects(v, c);
    HiddenPick(c, b, a, s, defs', Held(v, c));
    assert defs'[c].role == Choice([b, a, s], Some(s));
    PickSolves(c, b, a, s, defs', b);
  }

  lemma HiddenReads(c: Symbol, b: Symbol, a: Symbol, s: Symbol)
    requires Four(c, b, a, s)
    ensures var defs := Hidden(c, b, a, s);
            && Vars(Reads(defs, c)) == {} && Vars(Reads(defs, a)) == {c} && Vars(Reads(defs, b)) == {c}
            && Vars(Reads(defs, s)) == {c, a}
  {
    var defs := Hidden(c, b, a, s);
    PromptReads(None);
    PromptReads(Some(Sym(c)));
    assert VisReads(defs[a]) == VisReads(defs[b]) == {c, SymN} && VisReads(defs[s]) == {SymN};
    assert VisReads(defs[c]) == {SymY, SymN, SymM};
    HiddenCands(defs, c, b, a, s);
    assert Reads(defs, c) == {SymY, SymN, SymM};
    assert Reads(defs, a) == Reads(defs, b) == {c, SymN};
    var ds := defs[s].defaults;
    assert DefaultReads(ds) == {SymY, a} by { assert ds[1..] == [] && DefaultReads([]) == {}; }
    assert Reads(defs, s) == {SymN, SymY, a, c};
  }

  lemma HiddenCands(defs: Defs, c: Symbol, b: Symbol, a: Symbol, s: Symbol)
    ensures CandReads(defs, Cands(Choice([b, a, s], Some(a)), [])) ==
            {SymY} + VisReads(DefOf(defs, a)) + VisReads(DefOf(defs, b)) + VisReads(DefOf(defs, s))
  {
    var x, y, z := Cand(Sym(SymY), a), Cand(Sym(SymY), b), Cand(Sym(SymY), s);
    HiddenList(b, a, s);
    assert [x, y, x, z][1..] == [y, x, z] && [y, x, z][1..] == [x, z] && [x, z][1..] == [z] && [z][1..] == [];
    assert CandReads(defs, [z]) == {SymY} + VisReads(DefOf(defs, s));
    assert CandReads(defs, [x, z]) == {SymY} + VisReads(DefOf(defs, a)) + VisReads(DefOf(defs, s));
  }

  lemma HiddenList(b: Symbol, a: Symbol, s: Symbol)
    ensures Cands(Choice([b, a, s], Some(a)), []) ==
            [Cand(Sym(SymY), a), Cand(Sym(SymY), b), Cand(Sym(SymY), a), Cand(Sym(SymY), s)]
  {
    var x, y, z := Cand(Sym(SymY), a), Cand(Sym(SymY), b), Cand(Sym(SymY), s);
    assert [b, a, s][1..] == [a, s] && [a, s][1..] == [s] && [s][1..] == [];
    assert MemberCands([s]) == [z] && MemberCands([a, s]) == [x, z] && MemberCands([b, a, s]) == [y, x, z];
  }

  lemma RankedFour(defs: Defs, c: Symbol, b: Symbol, a: Symbol, s: Symbol)
    requires Four(c, b, a, s) && defs.Keys == {c, b, a, s}
    requires Vars(Reads(defs, c)) == {} && Vars(Reads(defs, a)) == {c} && Vars(Reads(defs, b)) == {c}
    requires Vars(Reads(defs, s)) == {c, a}
    ensures Ranked(defs, y => if y == c then 0 else if y == s then 2 else 1)
  {
    var rank: Symbol -> nat := y => if y == c then 0 else if y == s then 2 else 1;
    assert Downward(defs, rank, c) && Downward(defs, rank, a) && Downward(defs, rank, b) && Downward(defs, rank, s);
    forall y | y in defs.Keys ensures Downward(defs, rank, y) {}
    RankedBy(defs, rank);
  }

  lemma HiddenRegistered(c: Symbol, b: Symbol, a: Symbol, s: Symbol)
    requires Four(c, b, a, s)
    ensures Typed(Hidden(c, b, a, s)) && Registered(Hidden(c, b, a, s), s)
  {
  }

  lemma HiddenRanked(c: Symbol, b: Symbol, a: Symbol, s: Symbol)
    requires Four(c, b, a, s)
    ensures Ranked(Hidden(c, b, a, s), y => if y == c then 0 else if y == s then 2 else 1)
  {
    var defs := Hidden(c, b, a, s);
    HiddenReads(c, b, a, s);
    assert defs.Keys == {c, b, a, s};
    RankedFour(defs, c, b, a, s);
  }

  /**
   y is accepted for a hidden member that is y by default. The choice then no longer points to the member the user had
   chosen, picks another, and the default is gone. HiddenRegistered and HiddenRanked say that nothing is wrong with the
   declarations.
   */
  lemma HiddenBecomesNo(c: Symbol, b: Symbol, a: Symbol, s: Symbol)
    requires Four(c, b, a, s)
    ensures var (defs, w, w') := (Hidden(c, b, a, s), PickWorld(c, a, s, a), PickWorld(c, a, s, b));
            && Solution(defs, w) && Solution(SetTo(defs, w.v, s, Yes), w')
            && Accepts(s, defs[s], w.v, Yes) && w.v(s).tri == Yes && w'.v(s).tri == No
  {
    HiddenBefore(c, b, a, s);
    HiddenAfter(c, b, a, s);
  }
}
