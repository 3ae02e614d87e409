/**
 sym_tristate_within_range and sym_set_tristate_value (scripts/config/symbol.c:414-470): what is accepted, what is
 stored, and whether the symbol has the value when everything is calculated again.
 */
module ValueSetting {
  import opened Options
  import opened Expressions
  import opened Normalise
  import opened SymbolValues
  import opened ValueDeps

  // ----- setting a value -----

  /** sym_tristate_within_range */
  predicate WithinRange(s: Symbol, d: Def, v: Valuation, val: Tristate) {
    var vis, rev := Visible(s, d, v), Selected(s, d, v);
    && vis != No && IsTri(s)
    && !((TypeOf(s) == SBoolean || (d.role.Member? && vis == Yes)) && val == Mod)
    && !AtMost(vis, rev)
    && if d.role.Member? && vis == Yes then val == Yes else AtMost(rev, val) && AtMost(val, vis)
  }

  /** sym_set_tristate_value accepts */
  predicate Accepts(s: Symbol, d: Def, v: Valuation, val: Tristate) {
    v(s).tri == val || WithinRange(s, d, v, val)
  }

  /** A symbol that is shown no higher than it is selected cannot be changed: only the value it has is accepted. */
  lemma ForcedIsFixed(s: Symbol, d: Def, v: Valuation, val: Tristate)
    requires AtMost(Visible(s, d, v), Selected(s, d, v)) || Visible(s, d, v) == No
    ensures Accepts(s, d, v, val) <==> v(s).tri == val
  {
  }

  /** Of a fully visible member only y, of any other symbol the values from its selection up to its visibility. */
  lemma OthersAreFree(s: Symbol, d: Def, v: Valuation, val: Tristate)
    requires IsTri(s) && v(s).tri != val
    requires !AtMost(Visible(s, d, v), Selected(s, d, v))
    ensures d.role.Member? && Visible(s, d, v) == Yes ==> (Accepts(s, d, v, val) <==> val == Yes)
    ensures !(d.role.Member? && Visible(s, d, v) == Yes) ==>
              (Accepts(s, d, v, val) <==>
               && AtMost(Selected(s, d, v), val) && AtMost(val, Visible(s, d, v))
               && (TypeOf(s) == SBoolean ==> val != Mod))
  {
  }

  function SetUser(d: Def, val: Tristate): Def {
    d.(user := Some(TriValue(val)))
  }

  /** The symbol's own visibility, selection and deselection are what they were. */
  ghost predicate OwnUnmoved(s: Symbol, d: Def, v: Valuation, v': Valuation) {
    && Visible(s, d, v') == Visible(s, d, v) && Selected(s, d, v') == Selected(s, d, v)
    && Deselected(d, v') == Deselected(d, v)
  }

  lemma {:induction false} CandsIgnoreUser(defs: Defs, s: Symbol, val: Tristate, cs: seq<Cand>, v: Valuation)
    requires s in defs
    ensures var defs' := defs[s := SetUser(defs[s], val)];
            FirstCand(defs', cs, v) == FirstCand(defs, cs, v) && CandReads(defs', cs) == CandReads(defs, cs)
  {
    if cs != [] { CandsIgnoreUser(defs, s, val, cs[1..], v); }
  }

  lemma ReadsSame(defs: Defs, s: Symbol, val: Tristate, x: Symbol)
    requires s in defs && x in defs
    ensures Reads(defs[s := SetUser(defs[s], val)], x) == Reads(defs, x)
  {
    if defs[x].role.Choice? {
      CandsIgnoreUser(defs, s, val, Cands(defs[x].role, defs[x].defaults), y => TriValue(No));
    }
  }

  lemma TypedIgnoresUser(defs: Defs, s: Symbol, val: Tristate)
    requires s in defs && Typed(defs)
    ensures Typed(defs[s := SetUser(defs[s], val)])
  {
  }

  lemma RankedIgnoresUser(defs: Defs, rank: Symbol -> nat, s: Symbol, val: Tristate)
    requires s in defs && Ranked(defs, rank)
    ensures Ranked(defs[s := SetUser(defs[s], val)], rank)
  {
    var defs' := defs[s := SetUser(defs[s], val)];
    forall x, y | x in defs' && y in Vars(Reads(defs', x)) ensures y in defs' && rank(y) < rank(x) {
      ReadsSame(defs, s, val, x);
      assert y in Vars(Reads(defs, x));
    }
  }

  lemma CalcIgnoresUser(defs: Defs, s: Symbol, val: Tristate, x: Symbol, w: World)
    requires s in defs && x in defs && x != s
    ensures var defs' := defs[s := SetUser(defs[s], val)];
            Calc(defs', x, w) == Calc(defs, x, w) && PickOf(defs', x, w) == PickOf(defs, x, w)
  {
    if defs[x].role.Choice? { CandsIgnoreUser(defs, s, val, Cands(defs[x].role, defs[x].defaults), Held(w.v, x)); }
  }

  /** With the symbol hidden, a solution stays a solution whatever the user sets. */
  lemma HiddenStays(defs: Defs, s: Symbol, val: Tristate, w: World)
    requires s in defs && IsTri(s) && !defs[s].role.Choice? && Solution(defs, w)
    requires Visible(s, defs[s], w.v) == No && Selected(s, defs[s], w.v) == No
    ensures Solution(defs[s := SetUser(defs[s], val)], w)
  {
    var defs' := defs[s := SetUser(defs[s], val)];
    HiddenIgnoresUser(s, defs[s], Some(TriValue(val)), w);
    forall x | x in defs' ensures w.v(x) == Calc(defs', x, w) && w.pick(x) == PickOf(defs', x, w) {
      if x != s { CalcIgnoresUser(defs, s, val, x, w); }
    }
  }

  /** A symbol is calculated alike by both. */
  ghost predicate CalcLike(defs: Defs, defs': Defs, y: Symbol) {
    forall u {:trigger Calc(defs', y, u)} ::
      Calc(defs', y, u) == Calc(defs, y, u) && PickOf(defs', y, u) == PickOf(defs, y, u)
  }

  ghost predicate LikeBelow(defs: Defs, defs': Defs, rank: Symbol -> nat, n: nat) {
    defs'.Keys == defs.Keys && forall y {:trigger CalcLike(defs, defs', y)} ::
      y in defs && rank(y) < n ==> CalcLike(defs, defs', y)
  }

  /** Declarations that differ only from rank n on have the same values below n. */
  lemma {:induction false} BelowUnmoved(defs: Defs, defs': Defs, rank: Symbol -> nat, n: nat, w: World, w': World,
                                        x: Symbol)
    requires x in defs && rank(x) < n && Typed(defs) && Ranked(defs, rank) && LikeBelow(defs, defs', rank, n)
    requires Solution(defs, w) && Solution(defs', w')
    ensures SameAt(w, w', x)
    decreases rank(x)
  {
    var xs := Reads(defs, x);
    forall y | y in xs ensures SameAt(w, w', y) {
      if y.Var? {
        assert y in Vars(xs);
        BelowUnmoved(defs, defs', rank, n, w, w', y);
      } else {
        ConstSame(w, w', y);
      }
    }
    SameIfReadsSame(defs, x, w, w');
    assert CalcLike(defs, defs', x);
    assert w'.v(x) == Calc(defs', x, w') && w'.pick(x) == PickOf(defs', x, w');
  }

  lemma ReadsBelowSame(defs: Defs, defs': Defs, rank: Symbol -> nat, s: Symbol, w: World, w': World)
    requires s in defs && Typed(defs) && Ranked(defs, rank) && LikeBelow(defs, defs', rank, rank(s))
    requires Solution(defs, w) && Solution(defs', w')
    ensures Agree(w.v, w'.v, Reads(defs, s))
    ensures defs[s].role.Member? && defs[s].role.choice in defs ==> SameAt(w, w', defs[s].role.choice)
  {
    var xs := Reads(defs, s);
    forall x | x in xs ensures SameAt(w, w', x) {
      if x.Var? {
        assert x in Vars(xs);
        BelowUnmoved(defs, defs', rank, rank(s), w, w', x);
      } else {
        ConstSame(w, w', x);
      }
    }
    forall x | x in xs ensures w.v(x) == w'.v(x) { assert SameAt(w, w', x); }
    if defs[s].role.Member? { assert defs[s].role.choice in xs; }
  }

  lemma LikeWithUser(defs: Defs, rank: Symbol -> nat, s: Symbol, val: Tristate)
    requires s in defs
    ensures LikeBelow(defs, defs[s := SetUser(defs[s], val)], rank, rank(s))
  {
    var defs' := defs[s := SetUser(defs[s], val)];
    forall y | y in defs && rank(y) < rank(s) ensures CalcLike(defs, defs', y) {
      forall u ensures Calc(defs', y, u) == Calc(defs, y, u) && PickOf(defs', y, u) == PickOf(defs, y, u) {
        CalcIgnoresUser(defs, s, val, y, u);
      }
    }
  }

  /** So the symbol's own visibility, selection and deselection stand, and if it is a choice whom it would pick. */
  lemma OwnStands(defs: Defs, rank: Symbol -> nat, s: Symbol, val: Tristate, w: World, w': World)
    requires s in defs && Typed(defs) && Ranked(defs, rank)
    requires Solution(defs, w) && Solution(defs[s := SetUser(defs[s], val)], w')
    ensures OwnUnmoved(s, defs[s], w.v, w'.v)
    ensures Chosen(defs, s, defs[s], w.v) == Chosen(defs, s, defs[s], w'.v)
  {
    LikeWithUser(defs, rank, s, val);
    ReadsBelowSame(defs, defs[s := SetUser(defs[s], val)], rank, s, w, w');
    VisibleAgrees(s, defs[s], w.v, w'.v);
    if defs[s].role.Choice? {
      var cs := Cands(defs[s].role, defs[s].defaults);
      assert CandReads(defs, cs) - {s} <= Reads(defs, s);
      CandsAgree(defs, cs, Held(w.v, s), Held(w'.v, s));
    }
  }

  /** Where only the symbol's own user value is stored, an accepted value is the one calculated afterwards. */
  lemma AcceptedOfOwn(defs: Defs, rank: Symbol -> nat, s: Symbol, val: Tristate, w: World, w': World)
    requires s in defs && IsTri(s) && !defs[s].role.Choice? && Typed(defs) && Ranked(defs, rank)
    requires !(defs[s].role.Member? && val == Yes)
    requires Solution(defs, w) && Solution(defs[s := SetUser(defs[s], val)], w')
    requires Accepts(s, defs[s], w.v, val)
    ensures w'.v(s).tri == val
  {
    var d := defs[s];
    var d' := SetUser(d, val);
    OwnStands(defs, rank, s, val, w, w');
    assert w.v(s) == Calc(defs, s, w);
    if Visible(s, d, w.v) == No && Selected(s, d, w.v) == No {
      HiddenStays(defs, s, val, w);
      TypedIgnoresUser(defs, s, val);
      RankedIgnoresUser(defs, rank, s, val);
      OneSolution(defs[s := d'], rank, w, w', s);
    } else {
      if d.role.Member? { PickStands(defs, rank, s, val, w, w'); }
      assert Visible(s, d', w'.v) == Visible(s, d, w'.v) && Selected(s, d', w'.v) == Selected(s, d, w'.v);
      assert w'.v(s) == Calc(defs[s := d'], s, w');
    }
  }

  lemma PickStands(defs: Defs, rank: Symbol -> nat, s: Symbol, val: Tristate, w: World, w': World)
    requires s in defs && Typed(defs) && Ranked(defs, rank) && defs[s].role.Member?
    requires Solution(defs, w) && Solution(defs[s := SetUser(defs[s], val)], w')
    ensures w.pick(defs[s].role.choice) == w'.pick(defs[s].role.choice)
  {
    var c := defs[s].role.choice;
    LikeWithUser(defs, rank, s, val);
    ReadsBelowSame(defs, defs[s := SetUser(defs[s], val)], rank, s, w, w');
    assert c in Vars(Reads(defs, s));
  }

  /** A refused value cannot be had with any user value while everything else stays. */
  lemma RefusedIsOutOfReach(defs: Defs, s: Symbol, val: Tristate, user: Tristate, w: World)
    requires s in defs && IsTri(s) && !defs[s].role.Choice?
    requires w.v(s) == Calc(defs, s, w) && !Accepts(s, defs[s], w.v, val)
    ensures CalcTri(s, SetUser(defs[s], user), w) != val
  {
    var d := defs[s];
    var d' := SetUser(d, user);
    assert Visible(s, d', w.v) == Visible(s, d, w.v) && Selected(s, d', w.v) == Selected(s, d, w.v);
    assert DefaultTri(d', w.v) == DefaultTri(d, w.v);
  }

  /** What the user's value does to a choice, up to its pick. */
  lemma ChoiceTri(s: Symbol, d: Def, val: Tristate, w: World)
    requires d.role.Choice?
    ensures var (vis, rev) := (Visible(s, d, w.v), Selected(s, d, w.v));
            CalcTri(s, SetUser(d, val), w) ==
              if Deselected(d, w.v) then No
              else PromoteFor(s, if Max(vis, rev) != No then Max(Min(val, vis), rev) else No)
  {
    var d' := SetUser(d, val);
    assert Visible(s, d', w.v) == Visible(s, d, w.v) && Selected(s, d', w.v) == Selected(s, d, w.v);
    assert Deselected(d', w.v) == Deselected(d, w.v);
  }

  lemma ChoiceCalc(defs: Defs, s: Symbol, val: Tristate, w: World)
    requires s in defs && IsTri(s) && defs[s].role.Choice?
    ensures var (d', none) := (SetUser(defs[s], val), Chosen(defs, s, defs[s], w.v).None?);
            Calc(defs[s := d'], s, w).tri == if CalcTri(s, d', w) == Yes && none then No else CalcTri(s, d', w)
  {
    CandsIgnoreUser(defs, s, val, Cands(defs[s].role, defs[s].defaults), Held(w.v, s));
    assert Chosen(defs[s := SetUser(defs[s], val)], s, SetUser(defs[s], val), w.v) == Chosen(defs, s, defs[s], w.v);
  }

  /** A refused value of a choice could be had only as the n of a choice without a visible member. */
  lemma RefusedChoice(defs: Defs, s: Symbol, val: Tristate, user: Tristate, w: World)
    requires s in defs && IsTri(s) && defs[s].role.Choice?
    requires w.v(s) == Calc(defs, s, w) && !Accepts(s, defs[s], w.v, val)
    ensures var defs' := defs[s := SetUser(defs[s], user)];
            Calc(defs', s, w).tri == val ==>
              val == No && CalcTri(s, defs'[s], w) == Yes && Chosen(defs, s, defs[s], w.v).None?
  {
    ChoiceCalc(defs, s, user, w);
    ChoiceTri(s, defs[s], user, w);
  }

  /**
   For a choice, an accepted value is the one calculated afterwards, except y when no member can be picked, and the
   n of a choice that is selected as m.
   */
  lemma AcceptedChoice(defs: Defs, rank: Symbol -> nat, s: Symbol, val: Tristate, w: World, w': World)
    requires s in defs && IsTri(s) && defs[s].role.Choice? && Typed(defs) && Ranked(defs, rank)
    requires Solution(defs, w) && Solution(defs[s := SetUser(defs[s], val)], w')
    requires Accepts(s, defs[s], w.v, val)
    ensures w'.v(s).tri == val <==>
              && !(val == Yes && Chosen(defs, s, defs[s], w.v).None?)
              && !(val == No && Selected(s, defs[s], w.v) == Mod && !Deselected(defs[s], w.v))
  {
    OwnStands(defs, rank, s, val, w, w');
    ChoiceCalc(defs, s, val, w');
    ChoiceTri(s, defs[s], val, w');
    assert w.v(s) == Calc(defs, s, w) && w.pick(s) == PickOf(defs, s, w);
    assert w'.v(s) == Calc(defs[s := SetUser(defs[s], val)], s, w');
  }
}
