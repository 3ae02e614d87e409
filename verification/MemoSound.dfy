/**
 Without recursive dependencies, those through the pick of a choice included, the memoised calculation is right:
 in whatever order the calls come and whatever is left from before, it ends in the one solution.

 The invariant is about one state. A valid symbol is Good when it holds what its declaration gives under any values
 of the symbols that are not calculated yet, so nothing calculated later can make it wrong. Ranks bound what a
 nested call may touch: below rank n everything valid is Good, and a call for a symbol of rank n adds only symbols
 below n. The lemmas follow the functions of ValueMemo one by one.
 */
module MemoSound {
  import opened Options
  import opened Expressions
  import opened Normalise
  import opened SymbolValues
  import opened ValueDeps
  import opened ValueMemo

  /** Whatever the values, no prompt shows. */
  ghost predicate NeverShown(d: Def) {
    forall v :: Respects(v) ==> Eval(PromptExpr(d.prompts), v) == No
  }

  /**
   Declarations as menu_finalize leaves them (ProperChoices.FinalizedIsProper): a member's prompt or deselection
   mentions its choice, or its prompts never show.
   */
  ghost predicate Proper(defs: Defs) {
    && Typed(defs)
    && forall m {:trigger VisReads(defs[m])} ::
         m in defs && defs[m].role.Member? ==> defs[m].role.choice in VisReads(defs[m]) || NeverShown(defs[m])
  }

  ghost predicate At(w: World, st: State, x: Symbol) {
    w.v(x) == Known(st, x) && w.pick(x) == PickAt(st, x)
  }

  /** w has what the valid symbols below n hold. */
  ghost predicate Fits(w: World, st: State, rank: Symbol -> nat, n: nat) {
    Respects(w.v) && forall x {:trigger At(w, st, x)} :: x in st.valid && rank(x) < n ==> At(w, st, x)
  }

  /** s holds what the calculation gives under any values of the symbols that are not calculated yet. */
  ghost predicate Good(defs: Defs, rank: Symbol -> nat, st: State, s: Symbol) {
    RightValue(s, Known(st, s)) &&
    forall w {:trigger Fits(w, st, rank, rank(s))} :: Fits(w, st, rank, rank(s)) ==>
      Calc(defs, s, w) == Known(st, s) && PickOf(defs, s, w) == PickAt(st, s)
  }

  ghost predicate Memo(defs: Defs, rank: Symbol -> nat, st: State, n: nat) {
    && st.valid <= defs.Keys
    && forall s {:trigger Good(defs, rank, st, s)} :: s in st.valid && rank(s) < n ==> Good(defs, rank, st, s)
  }

  /** Only symbols below n became valid. */
  ghost predicate Grew(a: State, b: State, rank: Symbol -> nat, n: nat) {
    forall x {:trigger x in b.valid} :: x in b.valid && x !in a.valid ==> rank(x) < n
  }

  /** What is read is below n, or it is the choice c that is picking. */
  ghost predicate Below(defs: Defs, rank: Symbol -> nat, xs: set<Symbol>, n: nat, c: Option<Symbol>) {
    forall x :: x in xs && x.Var? ==> (x in defs && rank(x) < n) || c == Some(x)
  }

  ghost predicate Holds(st: State, c: Option<Symbol>) {
    c.Some? ==> c.value in st.valid && Known(st, c.value) == TriValue(Yes)
  }

  ghost predicate Sees(w: World, st: State, rank: Symbol -> nat, n: nat, c: Option<Symbol>) {
    Fits(w, st, rank, n) && (c.Some? ==> w.v(c.value) == TriValue(Yes))
  }

  ghost predicate Ready(defs: Defs, rank: Symbol -> nat, st: State, n: nat, c: Option<Symbol>) {
    Proper(defs) && Ranked(defs, rank) && Memo(defs, rank, st, n) && Holds(st, c)
  }

  // ----- the state only grows -----

  lemma FitsBack(w: World, a: State, b: State, rank: Symbol -> nat, n: nat)
    requires Kept(a, b) && Fits(w, b, rank, n)
    ensures Fits(w, a, rank, n)
  {
    forall x | x in a.valid && rank(x) < n ensures At(w, a, x) {
      assert At(w, b, x);
      assert Known(b, x) == Known(a, x) && PickAt(b, x) == PickAt(a, x);
    }
  }

  /** The same for steps on a symbol that is not below n. */
  lemma FitsBackBut(w: World, a: State, b: State, s: Symbol, rank: Symbol -> nat, n: nat)
    requires KeptBut(a, b, s) && rank(s) >= n && Fits(w, b, rank, n)
    ensures Fits(w, a, rank, n)
  {
    forall x | x in a.valid && rank(x) < n ensures At(w, a, x) {
      assert At(w, b, x);
      assert Known(b, x) == Known(a, x) && PickAt(b, x) == PickAt(a, x);
    }
  }

  lemma GoodStays(defs: Defs, rank: Symbol -> nat, a: State, b: State, s: Symbol, x: Symbol)
    requires KeptBut(a, b, s) && x in a.valid && rank(x) <= rank(s) && x != s && Good(defs, rank, a, x)
    ensures Good(defs, rank, b, x)
  {
    assert Known(b, x) == Known(a, x) && PickAt(b, x) == PickAt(a, x);
    forall w | Fits(w, b, rank, rank(x))
      ensures Calc(defs, x, w) == Known(b, x) && PickOf(defs, x, w) == PickAt(b, x)
    {
      FitsBackBut(w, a, b, s, rank, rank(x));
    }
  }

  /** A step on s itself leaves what is below it as it was. */
  lemma OwnStep(defs: Defs, rank: Symbol -> nat, a: State, b: State, s: Symbol)
    requires KeptBut(a, b, s) && a.valid == b.valid && Memo(defs, rank, a, rank(s))
    ensures Memo(defs, rank, b, rank(s))
  {
    forall x | x in b.valid && rank(x) < rank(s) ensures Good(defs, rank, b, x) {
      GoodStays(defs, rank, a, b, s, x);
    }
  }

  // ----- expressions -----

  /** A looked-up symbol is valid, and holds what every fitting world has. */
  lemma LookSound(defs: Defs, rank: Symbol -> nat, st: State, s: Symbol, n: nat, c: Option<Symbol>, w: World)
    requires Ready(defs, rank, st, n, c) && Below(defs, rank, {s}, n, c) && (s.Var? ==> s in st.valid)
    ensures Sees(w, st, rank, n, c) ==> w.v(s) == Known(st, s)
  {
    if Sees(w, st, rank, n, c) {
      if s.Var? {
        if c != Some(s) { assert At(w, st, s); }
      } else {
        assert RightValue(s, w.v(s));
      }
    }
  }

  lemma SeesBack(w: World, a: State, b: State, rank: Symbol -> nat, n: nat, c: Option<Symbol>)
    requires Kept(a, b)
    ensures Sees(w, b, rank, n, c) ==> Sees(w, a, rank, n, c)
  {
    if Fits(w, b, rank, n) { FitsBack(w, a, b, rank, n); }
  }

  ghost predicate AllValid(xs: set<Symbol>, st: State) {
    forall x :: x in xs && x.Var? ==> x in st.valid
  }

  lemma {:induction false} EvalSound(defs: Defs, rank: Symbol -> nat, st: State, e: Expr, n: nat, c: Option<Symbol>,
                                     w: World)
    requires Ready(defs, rank, st, n, c) && Below(defs, rank, Mentions(e), n, c)
    ensures var (st1, t) := EvalIn(defs, st, e);
            && Ready(defs, rank, st1, n, c) && Grew(st, st1, rank, n) && AllValid(Mentions(e), st1)
            && (Sees(w, st1, rank, n, c) ==> Eval(e, w.v) == t)
    decreases Left(defs, st), 2, e
  {
    match e
    case Sym(s) =>
      CalcSound(defs, rank, st, s, n, c);
      LookSound(defs, rank, CalcIn(defs, st, s), s, n, c, w);
    case Not(x) => EvalSound(defs, rank, st, x, n, c, w);
    case Cmp(_, a, b) => PairSound(defs, rank, st, a, b, n, c, w);
    case Bin(_, l, r) =>
      EvalSound(defs, rank, st, l, n, c, w);
      var st1 := EvalIn(defs, st, l).0;
      EvalSound(defs, rank, st1, r, n, c, w);
      SeesBack(w, st1, EvalIn(defs, st1, r).0, rank, n, c);
  }

  /** Two symbols calculated one after the other and then looked at. */
  lemma {:induction false} PairSound(defs: Defs, rank: Symbol -> nat, st: State, a: Symbol, b: Symbol,
                                     n: nat, c: Option<Symbol>, w: World)
    requires Ready(defs, rank, st, n, c) && Below(defs, rank, {a, b}, n, c)
    ensures var st2 := CalcIn(defs, CalcIn(defs, st, a), b);
            && Ready(defs, rank, st2, n, c) && Grew(st, st2, rank, n) && AllValid({a, b}, st2)
            && (Sees(w, st2, rank, n, c) ==> w.v(a) == Known(st2, a) && w.v(b) == Known(st2, b))
    decreases Left(defs, st), 1, 1
  {
    var st1 := CalcIn(defs, st, a);
    CalcSound(defs, rank, st, a, n, c);
    CalcSound(defs, rank, st1, b, n, c);
    LookSound(defs, rank, CalcIn(defs, st1, b), a, n, c, w);
    LookSound(defs, rank, CalcIn(defs, st1, b), b, n, c, w);
  }

  lemma {:induction false} ShownSound(defs: Defs, rank: Symbol -> nat, st: State, s: Symbol, n: nat, c: Option<Symbol>,
                                      w: World)
    requires Ready(defs, rank, st, n, c) && Below(defs, rank, VisReads(DefOf(defs, s)), n, c)
    ensures var (d, r) := (DefOf(defs, s), ShownIn(defs, st, s));
            && Ready(defs, rank, r.st, n, c) && Grew(st, r.st, rank, n)
            && (d.role.Member? ==> AllValid(VisReads(d), r.st))
            && (Sees(w, r.st, rank, n, c) ==> Visible(s, d, w.v) == r.vis && Deselected(d, w.v) == r.deselected)
    decreases Left(defs, st), 3
  {
    var d := DefOf(defs, s);
    EvalSound(defs, rank, st, PromptExpr(d.prompts), n, c, w);
    var st1 := EvalIn(defs, st, PromptExpr(d.prompts)).0;
    EvalSound(defs, rank, st1, RevExpr(d.revDepInv), n, c, w);
    SeesBack(w, st1, EvalIn(defs, st1, RevExpr(d.revDepInv)).0, rank, n, c);
  }

  lemma {:induction false} VisibleSound(defs: Defs, rank: Symbol -> nat, st: State, s: Symbol, n: nat,
                                        c: Option<Symbol>,
                                        w: World)
    requires Ready(defs, rank, st, n, c) && Below(defs, rank, VisReads(DefOf(defs, s)), n, c)
    ensures var (d, r) := (DefOf(defs, s), VisibleIn(defs, st, s));
            && Ready(defs, rank, r.st, n, c) && Grew(st, r.st, rank, n)
            && (d.role.Member? ==> AllValid(VisReads(d), r.st))
            && (Sees(w, r.st, rank, n, c) ==> Deselected(d, w.v) == r.deselected && Found(s, d, w.v, r.vis, r.rev))
    decreases Left(defs, st), 4
  {
    var d, h := DefOf(defs, s), ShownIn(defs, st, s);
    ShownSound(defs, rank, st, s, n, c, w);
    if !d.role.Member? && !h.deselected {
      EvalSound(defs, rank, h.st, RevExpr(d.revDep), n, c, w);
      SeesBack(w, h.st, EvalIn(defs, h.st, RevExpr(d.revDep)).0, rank, n, c);
    }
  }

  lemma {:induction false} DefaultSound(defs: Defs, rank: Symbol -> nat, st: State, ds: seq<Default>, n: nat, w: World)
    requires Ready(defs, rank, st, n, None) && Below(defs, rank, DefaultReads(ds), n, None)
    ensures var (st1, e) := DefaultIn(defs, st, ds);
            && Ready(defs, rank, st1, n, None) && Grew(st, st1, rank, n)
            && (e.Some? ==> Mentions(e.value) <= DefaultReads(ds))
            && (Sees(w, st1, rank, n, None) ==> FirstDefault(ds, w.v) == e)
    decreases Left(defs, st), 3, |ds|
  {
    if ds != [] {
      EvalSound(defs, rank, st, CondExpr(ds[0].cond), n, None, w);
      var (st1, t) := EvalIn(defs, st, CondExpr(ds[0].cond));
      if t == No {
        DefaultSound(defs, rank, st1, ds[1..], n, w);
        SeesBack(w, st1, DefaultIn(defs, st1, ds[1..]).0, rank, n, None);
      }
    }
  }

  lemma {:induction false} DefaultTriSound(defs: Defs, rank: Symbol -> nat, st: State, d: Def, n: nat, w: World)
    requires Ready(defs, rank, st, n, None)
    requires !d.role.Choice? ==> Below(defs, rank, DefaultReads(d.defaults), n, None)
    ensures var (st1, t) := DefaultTriIn(defs, st, d);
            && Ready(defs, rank, st1, n, None) && Grew(st, st1, rank, n)
            && (Sees(w, st1, rank, n, None) ==> DefaultTri(d, w.v) == t)
    decreases Left(defs, st), 4
  {
    if !d.role.Choice? {
      DefaultSound(defs, rank, st, d.defaults, n, w);
      var (st1, e) := DefaultIn(defs, st, d.defaults);
      if e.Some? {
        EvalSound(defs, rank, st1, e.value, n, None, w);
        SeesBack(w, st1, EvalIn(defs, st1, e.value).0, rank, n, None);
      }
    }
  }

  /** What sym_calc_visibility found is what w has. */
  ghost predicate Found(s: Symbol, d: Def, v: Valuation, vis: Tristate, rev: Tristate) {
    Visible(s, d, v) == vis && (!Deselected(d, v) ==> Selected(s, d, v) == rev)
  }

  lemma {:induction false} OpenSound(defs: Defs, rank: Symbol -> nat, st: State, s: Symbol, d: Def,
                                     vis: Tristate, rev: Tristate, n: nat, w: World)
    requires Ready(defs, rank, st, n, None) && !(d.role.Member? && vis == Yes)
    requires !d.role.Choice? ==> Below(defs, rank, DefaultReads(d.defaults), n, None)
    requires Sees(w, st, rank, n, None) ==> Found(s, d, w.v, vis, rev) && !Deselected(d, w.v)
    ensures var (st1, t) := OpenIn(defs, st, s, d, vis, rev);
            && Ready(defs, rank, st1, n, None) && Grew(st, st1, rank, n)
            && (Sees(w, st1, rank, n, None) ==> CalcTri(s, d, w) == t)
    decreases Left(defs, st), 5
  {
    DefaultTriSound(defs, rank, st, d, n, w);
    SeesBack(w, st, DefaultTriIn(defs, st, d).0, rank, n, None);
  }

  /** A fully visible member reads the pick of its choice. */
  lemma MemberSound(rank: Symbol -> nat, st: State, s: Symbol, d: Def, n: nat, w: World)
    requires d.role.Member? && d.role.choice in st.valid && rank(d.role.choice) < n
    ensures Sees(w, st, rank, n, None) && Visible(s, d, w.v) == Yes ==>
              CalcTri(s, d, w) == BoolT(PickAt(st, d.role.choice) == Some(s))
  {
    if Sees(w, st, rank, n, None) { assert At(w, st, d.role.choice); }
  }

  lemma {:induction false} TriSound(defs: Defs, rank: Symbol -> nat, st: State, s: Symbol, d: Def,
                                    vis: Tristate, rev: Tristate, n: nat, w: World)
    requires Ready(defs, rank, st, n, None) && Below(defs, rank, VisReads(d), n, None)
    requires !d.role.Choice? ==> Below(defs, rank, DefaultReads(d.defaults), n, None)
    requires d.role.Member? && vis == Yes ==> d.role.choice in st.valid && rank(d.role.choice) < n
    requires Sees(w, st, rank, n, None) ==> Found(s, d, w.v, vis, rev)
    ensures var (st1, t) := TriIn(defs, st, s, d, vis, rev);
            && Ready(defs, rank, st1, n, None) && Grew(st, st1, rank, n)
            && (Sees(w, st1, rank, n, None) ==> CalcTri(s, d, w) == t)
    decreases Left(defs, st), 6
  {
    if d.role.Member? && vis == Yes {
      MemberSound(rank, st, s, d, n, w);
    } else {
      EvalSound(defs, rank, st, RevExpr(d.revDepInv), n, None, w);
      var (st1, inv) := EvalIn(defs, st, RevExpr(d.revDepInv));
      SeesBack(w, st, st1, rank, n, None);
      if inv != Yes {
        OpenSound(defs, rank, st1, s, d, vis, rev, n, w);
        SeesBack(w, st1, OpenIn(defs, st1, s, d, vis, rev).0, rank, n, None);
      }
    }
  }

  lemma {:induction false} DefaultStrSound(defs: Defs, rank: Symbol -> nat, st: State, d: Def, n: nat, w: World)
    requires Ready(defs, rank, st, n, None) && Below(defs, rank, DefaultReads(d.defaults), n, None)
    ensures var (st1, x) := DefaultStrIn(defs, st, d);
            && Ready(defs, rank, st1, n, None) && Grew(st, st1, rank, n)
            && (Sees(w, st1, rank, n, None) ==> DefaultStr(d, w.v) == x)
    decreases Left(defs, st), 4
  {
    DefaultSound(defs, rank, st, d.defaults, n, w);
    var (st1, e) := DefaultIn(defs, st, d.defaults);
    if e.Some? && e.value.Sym? {
      var st2 := CalcIn(defs, st1, e.value.s);
      assert e.value.s in Mentions(e.value);
      CalcSound(defs, rank, st1, e.value.s, n, None);
      LookSound(defs, rank, st2, e.value.s, n, None, w);
      SeesBack(w, st1, st2, rank, n, None);
    }
  }

  lemma {:induction false} StrSound(defs: Defs, rank: Symbol -> nat, st: State, s: Symbol, d: Def, vis: Tristate,
                                    n: nat, w: World)
    requires Ready(defs, rank, st, n, None) && Below(defs, rank, DefaultReads(d.defaults), n, None)
    requires Sees(w, st, rank, n, None) ==> Visible(s, d, w.v) == vis
    ensures var (st1, x) := StrIn(defs, st, d, vis);
            && Ready(defs, rank, st1, n, None) && Grew(st, st1, rank, n)
            && (Sees(w, st1, rank, n, None) ==> CalcStr(s, d, w.v) == x)
    decreases Left(defs, st), 5
  {
    if vis == No || d.user.None? {
      DefaultStrSound(defs, rank, st, d, n, w);
      SeesBack(w, st, DefaultStrIn(defs, st, d).0, rank, n, None);
    }
  }

  lemma {:induction false} CandSound(defs: Defs, rank: Symbol -> nat, st: State, x: Cand, n: nat, c: Option<Symbol>,
                                     w: World)
    requires Ready(defs, rank, st, n, c)
    requires Below(defs, rank, Mentions(x.cond) + VisReads(DefOf(defs, x.member)), n, c)
    ensures var (st1, yes) := CandIn(defs, st, x);
            && Ready(defs, rank, st1, n, c) && Grew(st, st1, rank, n)
            && (Sees(w, st1, rank, n, c) ==> Takes(defs, x, w.v) == yes)
    decreases Left(defs, st), 5
  {
    EvalSound(defs, rank, st, x.cond, n, c, w);
    var (st1, t) := EvalIn(defs, st, x.cond);
    if t != No {
      VisibleSound(defs, rank, st1, x.member, n, c, w);
      SeesBack(w, st1, VisibleIn(defs, st1, x.member).st, rank, n, c);
    }
  }

  lemma {:induction false} PickSound(defs: Defs, rank: Symbol -> nat, st: State, cs: seq<Cand>, n: nat,
                                     c: Option<Symbol>,
                                     w: World)
    requires Ready(defs, rank, st, n, c) && Below(defs, rank, CandReads(defs, cs), n, c)
    ensures var (st1, m) := PickIn(defs, st, cs);
            && Ready(defs, rank, st1, n, c) && Grew(st, st1, rank, n)
            && (Sees(w, st1, rank, n, c) ==> FirstCand(defs, cs, w.v) == m)
    decreases Left(defs, st), 6, |cs|
  {
    if cs != [] {
      CandSound(defs, rank, st, cs[0], n, c, w);
      var (st1, yes) := CandIn(defs, st, cs[0]);
      if !yes {
        PickSound(defs, rank, st1, cs[1..], n, c, w);
        SeesBack(w, st1, PickIn(defs, st1, cs[1..]).0, rank, n, c);
      }
    }
  }

  // ----- symbols -----

  /** What the calculation of s may read is below s; while a choice picks, also the choice itself. */
  lemma ReadsBelow(defs: Defs, rank: Symbol -> nat, s: Symbol)
    requires Proper(defs) && Ranked(defs, rank) && s in defs
    ensures var (d, n) := (defs[s], rank(s));
            && Below(defs, rank, VisReads(d), n, None)
            && (!d.role.Choice? ==> Below(defs, rank, DefaultReads(d.defaults), n, None))
            && (d.role.Member? ==> d.role.choice in defs && rank(d.role.choice) < n && d.role.choice.Var?)
            && (d.role.Choice? ==> Below(defs, rank, CandReads(defs, Cands(d.role, d.defaults)), n, Some(s)))
  {
    var d, xs := defs[s], Reads(defs, s);
    assert forall x :: x in xs && x.Var? ==> x in Vars(xs);
    if d.role.Choice? {
      assert CandReads(defs, Cands(d.role, d.defaults)) - {s} <= xs;
    }
    if d.role.Member? { assert d.role.choice in xs; }
  }

  /** A step of the calculation of s. */
  lemma OwnReady(defs: Defs, rank: Symbol -> nat, a: State, b: State, s: Symbol, w: World)
    requires Ready(defs, rank, a, rank(s), None) && KeptBut(a, b, s) && a.valid == b.valid
    ensures Ready(defs, rank, b, rank(s), None) && (Fits(w, b, rank, rank(s)) ==> Fits(w, a, rank, rank(s)))
  {
    OwnStep(defs, rank, a, b, s);
    if Fits(w, b, rank, rank(s)) { FitsBackBut(w, a, b, s, rank, rank(s)); }
  }

  lemma ClearReady(defs: Defs, rank: Symbol -> nat, st: State, s: Symbol, w: World)
    requires Ready(defs, rank, st, rank(s), None)
    ensures var r := Clear(st, s);
            && Ready(defs, rank, r, rank(s), None) && r.valid == st.valid && PickAt(r, s) == None
            && (Fits(w, r, rank, rank(s)) ==> Fits(w, st, rank, rank(s)))
  {
    StoreKeeps(st, st, s, if IsTri(s) then TriValue(No) else Value(No, ""));
    OwnReady(defs, rank, st, Clear(st, s), s, w);
  }

  lemma HeldFits(w: World, st: State, rank: Symbol -> nat, s: Symbol)
    requires IsTri(s) && Fits(w, st, rank, rank(s))
    ensures Sees(World(Held(w.v, s), w.pick), st, rank, rank(s), Some(s))
  {
    var h := World(Held(w.v, s), w.pick);
    forall x ensures RightValue(x, h.v(x)) { assert RightValue(x, w.v(x)); }
    forall x | x in st.valid && rank(x) < rank(s) ensures At(h, st, x) { assert At(w, st, x); }
  }

  /** The choice is y and looks at its members. */
  lemma {:induction false} ChosenSound(defs: Defs, rank: Symbol -> nat, st: State, s: Symbol, w: World)
    requires s in defs && IsTri(s) && defs[s].role.Choice? && Ready(defs, rank, st, rank(s), Some(s))
    ensures var (st1, m) := PickIn(defs, st, Cands(defs[s].role, defs[s].defaults));
            && Ready(defs, rank, st1, rank(s), None) && Grew(st, st1, rank, rank(s))
            && (Fits(w, st1, rank, rank(s)) ==> Chosen(defs, s, defs[s], w.v) == m)
    decreases Left(defs, st), 6
  {
    var cs := Cands(defs[s].role, defs[s].defaults);
    ReadsBelow(defs, rank, s);
    PickSound(defs, rank, st, cs, rank(s), Some(s), World(Held(w.v, s), w.pick));
    var st1 := PickIn(defs, st, cs).0;
    if Fits(w, st1, rank, rank(s)) { HeldFits(w, st1, rank, s); }
  }

  lemma {:induction false} PickedSound(defs: Defs, rank: Symbol -> nat, st: State, s: Symbol, t: Tristate, w: World)
    requires s in defs && IsTri(s) && Ready(defs, rank, st, rank(s), None) && s in st.valid
    requires Known(st, s) == TriValue(t) && PickAt(st, s) == None
    requires Fits(w, st, rank, rank(s)) ==> CalcTri(s, defs[s], w) == t
    ensures var r := PickedIn(defs, st, s, defs[s], t);
            && Ready(defs, rank, r, rank(s), None) && Grew(st, r, rank, rank(s))
            && (Fits(w, r, rank, rank(s)) ==> Calc(defs, s, w) == Known(r, s) && PickOf(defs, s, w) == PickAt(r, s))
    decreases Left(defs, st), 7
  {
    var d := defs[s];
    if d.role.Choice? && t == Yes {
      ChosenSound(defs, rank, st, s, w);
      var (st1, m) := PickIn(defs, st, Cands(d.role, d.defaults));
      PickStored(defs, rank, st1, s, m, w);
      if Fits(w, st1, rank, rank(s)) { FitsBack(w, st, st1, rank, rank(s)); }
      assert Known(st1, s) == Known(st, s);
    }
  }

  /** Storing the pick is a step of s alone. */
  lemma PickStored(defs: Defs, rank: Symbol -> nat, st: State, s: Symbol, m: Option<Symbol>, w: World)
    requires Ready(defs, rank, st, rank(s), None)
    ensures var r := StorePick(if m.None? then Store(st, s, TriValue(No)) else st, s, m);
            && Ready(defs, rank, r, rank(s), None) && r.valid == st.valid && PickAt(r, s) == m
            && (s.Var? ==> Known(r, s) == if m.None? then TriValue(No) else Known(st, s))
            && (Fits(w, r, rank, rank(s)) ==> Fits(w, st, rank, rank(s)))
  {
    var st1 := if m.None? then Store(st, s, TriValue(No)) else st;
    StoreKeeps(st, st, s, TriValue(No));
    PickKeeps(st, st1, s, m, s);
    OwnReady(defs, rank, st, StorePick(st1, s, m), s, w);
  }

  /** Up to `set default if recursively called`. */
  lemma {:induction false} ClearedSound(defs: Defs, rank: Symbol -> nat, st: State, s: Symbol, w: World)
    requires s in defs && Ready(defs, rank, st, rank(s), None)
    ensures var v := VisibleIn(defs, st, s);
            var st1 := Clear(v.st, s);
            && Ready(defs, rank, st1, rank(s), None) && Grew(st, st1, rank, rank(s))
            && (defs[s].role.Member? && v.vis == Yes ==> defs[s].role.choice in st1.valid)
            && (Fits(w, st1, rank, rank(s)) ==> Found(s, defs[s], w.v, v.vis, v.rev))
    decreases Left(defs, st), 6
  {
    ReadsBelow(defs, rank, s);
    VisibleSound(defs, rank, st, s, rank(s), None, w);
    ClearReady(defs, rank, VisibleIn(defs, st, s).st, s, w);
    if defs[s].role.Member? && VisibleIn(defs, st, s).vis == Yes { ShownReads(defs, rank, st, s); }
  }

  /** A member found fully visible is so under some values, so its prompt mentions the choice, which is calculated. */
  lemma {:induction false} ShownReads(defs: Defs, rank: Symbol -> nat, st: State, s: Symbol)
    requires s in defs && Ready(defs, rank, st, rank(s), None)
    requires defs[s].role.Member? && VisibleIn(defs, st, s).vis == Yes
    ensures defs[s].role.choice in VisibleIn(defs, st, s).st.valid
    decreases Left(defs, st), 5
  {
    var d, r := defs[s], VisibleIn(defs, st, s).st;
    var w := Filled(r, rank, rank(s));
    ReadsBelow(defs, rank, s);
    VisibleSound(defs, rank, st, s, rank(s), None, w);
    FilledFits(defs, rank, r, rank(s));
    assert Visible(s, d, w.v) == Yes && Respects(w.v);
    assert Eval(PromptExpr(d.prompts), w.v) != No;
    assert d.role.choice in VisReads(d);
  }

  lemma {:induction false} ValueSound(defs: Defs, rank: Symbol -> nat, st: State, s: Symbol, w: World)
    requires s in defs && IsTri(s) && Ready(defs, rank, st, rank(s), None) && s in st.valid
    ensures var r := ValueIn(defs, st, s);
            && Ready(defs, rank, r.st, rank(s), None) && Grew(st, r.st, rank, rank(s))
            && (Fits(w, r.st, rank, rank(s)) ==> CalcTri(s, defs[s], w) == r.t)
    decreases Left(defs, st), 7
  {
    ClearedSound(defs, rank, st, s, w);
    ReadsBelow(defs, rank, s);
    var v := VisibleIn(defs, st, s);
    TriSound(defs, rank, Clear(v.st, s), s, defs[s], v.vis, v.rev, rank(s), w);
  }

  lemma {:induction false} TriBodySound(defs: Defs, rank: Symbol -> nat, st: State, s: Symbol, w: World)
    requires s in defs && IsTri(s) && Ready(defs, rank, st, rank(s), None) && s in st.valid
    ensures var r := TriBodyIn(defs, st, s);
            && Ready(defs, rank, r, rank(s), None) && Grew(st, r, rank, rank(s))
            && (Fits(w, r, rank, rank(s)) ==> Calc(defs, s, w) == Known(r, s) && PickOf(defs, s, w) == PickAt(r, s))
    decreases Left(defs, st), 8
  {
    ValueSound(defs, rank, st, s, w);
    var v := ValueIn(defs, st, s);
    ValuedSteps(v, s);
    OwnReady(defs, rank, v.st, Valued(v, s), s, w);
    PickedSound(defs, rank, Valued(v, s), s, v.t, w);
  }

  lemma ValuedSteps(v: Val, s: Symbol)
    ensures KeptBut(v.st, Valued(v, s), s) && Valued(v, s).valid == v.st.valid
    ensures (s.Var? ==> Known(Valued(v, s), s) == TriValue(v.t)) && PickAt(Valued(v, s), s) == PickAt(v.st, s)
  {
    StoreKeeps(v.st, v.st, s, TriValue(v.t));
    if v.full.Some? { PickKeeps(v.st, Store(v.st, s, TriValue(v.t)), s, None, v.full.value); }
  }

  lemma {:induction false} StrBodySound(defs: Defs, rank: Symbol -> nat, st: State, s: Symbol, w: World)
    requires s in defs && !IsTri(s) && Ready(defs, rank, st, rank(s), None) && s in st.valid
    ensures var r := StrBodyIn(defs, st, s);
            && Ready(defs, rank, r, rank(s), None) && Grew(st, r, rank, rank(s)) && PickAt(r, s) == None
            && (Fits(w, r, rank, rank(s)) ==> Known(r, s) == Value(No, CalcStr(s, defs[s], w.v)))
    decreases Left(defs, st), 8
  {
    StrValueSound(defs, rank, st, s, w);
    var v := VisibleIn(defs, st, s);
    var (st2, x) := StrIn(defs, Clear(v.st, s), defs[s], v.vis);
    StoreBut(st2, s, Value(No, x));
    OwnReady(defs, rank, st2, Store(st2, s, Value(No, x)), s, w);
  }

  lemma {:induction false} StrValueSound(defs: Defs, rank: Symbol -> nat, st: State, s: Symbol, w: World)
    requires s in defs && !IsTri(s) && Ready(defs, rank, st, rank(s), None) && s in st.valid
    ensures var v := VisibleIn(defs, st, s);
            var r := StrIn(defs, Clear(v.st, s), defs[s], v.vis);
            && Ready(defs, rank, r.0, rank(s), None) && Grew(st, r.0, rank, rank(s)) && PickAt(r.0, s) == None
            && (Fits(w, r.0, rank, rank(s)) ==> r.1 == CalcStr(s, defs[s], w.v))
    decreases Left(defs, st), 7
  {
    ClearedSound(defs, rank, st, s, w);
    var v := VisibleIn(defs, st, s);
    var b := Below(defs, rank, DefaultReads(defs[s].defaults), rank(s), None);
    assert b by { ReadsBelow(defs, rank, s); }
    StrSound(defs, rank, Clear(v.st, s), s, defs[s], v.vis, rank(s), w);
  }

  lemma {:induction false} BodySound(defs: Defs, rank: Symbol -> nat, st: State, s: Symbol, w: World)
    requires s in defs && Ready(defs, rank, st, rank(s), None) && s in st.valid
    ensures var r := BodyIn(defs, st, s);
            && Ready(defs, rank, r, rank(s), None) && Grew(st, r, rank, rank(s))
            && (Fits(w, r, rank, rank(s)) ==> Calc(defs, s, w) == Known(r, s) && PickOf(defs, s, w) == PickAt(r, s))
    decreases Left(defs, st), 9
  {
    if IsTri(s) {
      TriBodySound(defs, rank, st, s, w);
    } else if TypeOf(s) == SString || TypeOf(s) == SInt || TypeOf(s) == SHex {
      StrBodySound(defs, rank, st, s, w);
    } else {
      StoreKeeps(st, st, s, Value(No, defs[s].name));
      OwnReady(defs, rank, st, BodyIn(defs, st, s), s, w);
    }
  }

  /** Some world always fits: what is not calculated yet may have any value of its type. */
  ghost function Filled(st: State, rank: Symbol -> nat, n: nat): World {
    World((x: Symbol) => if !x.Var? || (x in st.valid && rank(x) < n) then Known(st, x) else TriValue(No),
          (x: Symbol) => PickAt(st, x))
  }

  lemma KnownConst(st: State, x: Symbol)
    requires !x.Var?
    ensures RightValue(x, Known(st, x))
  {
  }

  lemma FilledRight(defs: Defs, rank: Symbol -> nat, st: State, n: nat, x: Symbol)
    requires Memo(defs, rank, st, n)
    ensures RightValue(x, Filled(st, rank, n).v(x))
  {
    if !x.Var? {
      KnownConst(st, x);
    } else if x in st.valid && rank(x) < n {
      assert Good(defs, rank, st, x);
    }
  }

  lemma FilledFits(defs: Defs, rank: Symbol -> nat, st: State, n: nat)
    requires Memo(defs, rank, st, n)
    ensures Fits(Filled(st, rank, n), st, rank, n)
  {
    var w := Filled(st, rank, n);
    forall x ensures RightValue(x, w.v(x)) {
      FilledRight(defs, rank, st, n, x);
    }
  }

  lemma MarkReady(defs: Defs, rank: Symbol -> nat, st: State, s: Symbol, n: nat, c: Option<Symbol>)
    requires Ready(defs, rank, st, n, c) && s in defs && s !in st.valid && rank(s) < n
    ensures Ready(defs, rank, Mark(st, s), rank(s), None)
  {
    var st0 := Mark(st, s);
    assert KeptBut(st, st0, s) by {
      forall x ensures Known(st0, x) == Known(st, x) && PickAt(st0, x) == PickAt(st, x) {}
    }
    forall x | x in st0.valid && rank(x) < rank(s) ensures Good(defs, rank, st0, x) {
      assert Good(defs, rank, st, x);
      GoodStays(defs, rank, st, st0, s, x);
    }
  }

  lemma {:induction false} NewGood(defs: Defs, rank: Symbol -> nat, st: State, s: Symbol)
    requires s in defs && Ready(defs, rank, st, rank(s), None) && s in st.valid
    ensures var r := BodyIn(defs, st, s);
            Good(defs, rank, r, s) && Ready(defs, rank, r, rank(s), None) && Grew(st, r, rank, rank(s))
    decreases Left(defs, st), 10
  {
    var r := BodyIn(defs, st, s);
    forall w | Fits(w, r, rank, rank(s))
      ensures Calc(defs, s, w) == Known(r, s) && PickOf(defs, s, w) == PickAt(r, s)
    {
      BodySound(defs, rank, st, s, w);
    }
    var w := Filled(r, rank, rank(s));
    BodySound(defs, rank, st, s, w);
    FilledFits(defs, rank, r, rank(s));
    CalcRespects(defs, s, w);
  }

  /** Back at the level of the caller. */
  lemma Finish(defs: Defs, rank: Symbol -> nat, st: State, r: State, s: Symbol, n: nat, c: Option<Symbol>)
    requires Ready(defs, rank, st, n, c) && s in defs && s !in st.valid && rank(s) < n && Kept(st, r)
    requires Good(defs, rank, r, s) && Memo(defs, rank, r, rank(s)) && Grew(Mark(st, s), r, rank, rank(s))
    ensures Ready(defs, rank, r, n, c) && Grew(st, r, rank, n)
  {
    forall x | x in r.valid && rank(x) < n ensures Good(defs, rank, r, x) {
      if x != s {
        if x in st.valid { GoodKept(defs, rank, st, r, x); } else { assert rank(x) < rank(s); }
      }
    }
    if c.Some? { assert Known(r, c.value) == Known(st, c.value); }
  }

  lemma GoodKept(defs: Defs, rank: Symbol -> nat, a: State, b: State, x: Symbol)
    requires Kept(a, b) && x in a.valid && Good(defs, rank, a, x)
    ensures Good(defs, rank, b, x)
  {
    assert Known(b, x) == Known(a, x) && PickAt(b, x) == PickAt(a, x);
    forall w | Fits(w, b, rank, rank(x))
      ensures Calc(defs, x, w) == Known(b, x) && PickOf(defs, x, w) == PickAt(b, x)
    {
      FitsBack(w, a, b, rank, rank(x));
    }
  }

  lemma {:induction false} CalcSound(defs: Defs, rank: Symbol -> nat, st: State, s: Symbol, n: nat, c: Option<Symbol>)
    requires Ready(defs, rank, st, n, c) && Below(defs, rank, {s}, n, c)
    ensures var r := CalcIn(defs, st, s);
            Ready(defs, rank, r, n, c) && Grew(st, r, rank, n) && (s.Var? ==> s in r.valid)
    decreases Left(defs, st), 1, 0
  {
    if IsNew(defs, st, s) {
      MarkReady(defs, rank, st, s, n, c);
      NewGood(defs, rank, Mark(st, s), s);
      Finish(defs, rank, st, CalcIn(defs, st, s), s, n, c);
    }
  }

  // ----- whole runs -----

  lemma {:induction false} RankBound(xs: set<Symbol>, rank: Symbol -> nat) returns (n: nat)
    ensures forall x :: x in xs ==> rank(x) < n
  {
    if xs == {} {
      n := 0;
    } else {
      var y :| y in xs;
      n := RankBound(xs - {y}, rank);
      if rank(y) >= n { n := rank(y) + 1; }
    }
  }

  ghost predicate AllBelow(defs: Defs, rank: Symbol -> nat, xs: seq<Symbol>, n: nat) {
    forall x :: x in xs ==> x in defs && rank(x) < n
  }

  ghost predicate Through(xs: seq<Symbol>, st: State) {
    forall x :: x in xs ==> x in st.valid
  }

  lemma ThroughNext(xs: seq<Symbol>, a: State, b: State)
    requires xs != [] && Through(xs[..|xs| - 1], a) && Kept(a, b) && xs[|xs| - 1] in b.valid
    ensures Through(xs, b)
  {
    forall x | x in xs ensures x in b.valid {
      if x in xs[..|xs| - 1] { assert x in a.valid; } else { assert x == xs[|xs| - 1]; }
    }
  }

  lemma {:induction false} CalcAllSound(defs: Defs, rank: Symbol -> nat, st: State, order: seq<Symbol>, n: nat)
    requires Ready(defs, rank, st, n, None) && AllBelow(defs, rank, order, n)
    ensures var r := CalcAllIn(defs, st, order); Ready(defs, rank, r, n, None) && Through(order, r)
  {
    if order != [] {
      var init, s := order[..|order| - 1], order[|order| - 1];
      CalcAllSound(defs, rank, st, init, n);
      var st1 := CalcAllIn(defs, st, init);
      CalcSound(defs, rank, st1, s, n, None);
      ThroughNext(order, st1, CalcIn(defs, st1, s));
    }
  }

  /**
   Calculating all symbols, in any order and whatever was left from before, ends in a solution: every value and
   every pick is the one calculated from the final values.
   */
  lemma RunSolves(defs: Defs, rank: Symbol -> nat, st: State, order: seq<Symbol>) returns (w: World)
    requires Proper(defs) && Ranked(defs, rank) && st.valid == {}
    requires forall s :: s in order <==> s in defs
    ensures Solution(defs, w)
    ensures forall s :: s in defs ==> At(w, CalcAllIn(defs, st, order), s)
  {
    var n := RankBound(defs.Keys, rank);
    CalcAllSound(defs, rank, st, order, n);
    var r := CalcAllIn(defs, st, order);
    FilledFits(defs, rank, r, n);
    w := Filled(r, rank, n);
    forall s | s in defs ensures At(w, r, s) && w.v(s) == Calc(defs, s, w) && w.pick(s) == PickOf(defs, s, w) {
      assert s in order;
      assert s in r.valid && rank(s) < n;
      assert Good(defs, rank, r, s) && At(w, r, s);
      FitsLower(w, r, rank, n, rank(s));
    }
  }

  lemma FitsLower(w: World, st: State, rank: Symbol -> nat, n: nat, m: nat)
    requires Fits(w, st, rank, n) && m <= n
    ensures Fits(w, st, rank, m)
  {
  }
}
