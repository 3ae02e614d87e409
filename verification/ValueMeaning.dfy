/**
 The value sym_calc_value gives (scripts/config/symbol.c:196-380), read off the declaration: prompts, reverse
 dependencies and defaults by their index, the user's value, and for a choice the member it points to.
 */
module ValueMeaning {
  import opened Options
  import opened Expressions
  import opened Normalise
  import opened SymbolValues
  import opened ValueDeps
  import opened ValueMemo
  import opened MemoSound
  import opened ChoiceRuns
  import opened Choices

  // ----- visibility and selection -----

  /** A deselect is y. */
  predicate Off(d: Def, v: Valuation) {
    d.revDepInv.Some? && Eval(d.revDepInv.value, v) == Yes
  }

  /** Prompt k shows the symbol as m at least, or as y: only a tristate symbol can be shown as m. */
  predicate Shown(s: Symbol, d: Def, v: Valuation, k: nat)
    requires k < |d.prompts|
  {
    EvalOpt(d.prompts[k], v) != No
  }

  predicate ShownAsYes(s: Symbol, d: Def, v: Valuation, k: nat)
    requires k < |d.prompts|
  {
    EvalOpt(d.prompts[k], v) == Yes || (EvalOpt(d.prompts[k], v) == Mod && TypeOf(s) != STristate)
  }

  lemma OffIs(d: Def, v: Valuation)
    requires Respects(v)
    ensures Off(d, v) <==> Deselected(d, v)
  {
    assert RightValue(SymN, v(SymN));
  }

  /** Visible is other than n where some prompt is and nothing deselects it, and y where some prompt makes it y. */
  lemma VisibleMeans(s: Symbol, d: Def, v: Valuation)
    requires Respects(v)
    ensures Visible(s, d, v) != No <==> !Off(d, v) && exists k :: 0 <= k < |d.prompts| && Shown(s, d, v, k)
    ensures Visible(s, d, v) == Yes <==> !Off(d, v) && exists k :: 0 <= k < |d.prompts| && ShownAsYes(s, d, v, k)
  {
    OffIs(d, v);
    AnyPromptIsMax(d.prompts, v);
    var t := Eval(PromptExpr(d.prompts), v);
    if k :| 0 <= k < |d.prompts| && Shown(s, d, v, k) { assert AtMost(EvalOpt(d.prompts[k], v), t); }
    if k :| 0 <= k < |d.prompts| && ShownAsYes(s, d, v, k) { assert AtMost(EvalOpt(d.prompts[k], v), t); }
    if t != No {
      var k :| 0 <= k < |d.prompts| && EvalOpt(d.prompts[k], v) == t;
      assert Shown(s, d, v, k);
      assert ShownAsYes(s, d, v, k) <==> t == Yes || TypeOf(s) != STristate;
    }
  }

  /** A bool symbol cannot be m: it is y instead. */
  function AsTyped(s: Symbol, t: Tristate): Tristate {
    if s.Var? && s.stype == SBoolean && t == Mod then Yes else t
  }

  /** The reverse dependency of a symbol that is no member. */
  lemma SelectedMeans(s: Symbol, d: Def, v: Valuation)
    requires Respects(v)
    ensures Selected(s, d, v) == if d.role.Member? || d.revDep.None? then No else AsTyped(s, Eval(d.revDep.value, v))
  {
    assert RightValue(SymN, v(SymN));
  }

  // ----- values -----

  /** k is the first default whose condition is not n, or their number if there is none. */
  predicate FirstAt(ds: seq<Default>, v: Valuation, k: nat) {
    && k <= |ds| && (k < |ds| ==> EvalOpt(ds[k].cond, v) != No)
    && forall i :: 0 <= i < k ==> EvalOpt(ds[i].cond, v) == No
  }

  lemma {:induction false} FirstAtIs(ds: seq<Default>, v: Valuation, k: nat)
    requires Respects(v) && FirstAt(ds, v, k)
    ensures FirstDefault(ds, v) == if k < |ds| then Some(ds[k].expr) else None
  {
    if k < |ds| {
      DefaultIsFirst(ds, v, k);
    } else if ds != [] {
      assert RightValue(SymY, v(SymY));
      assert EvalOpt(ds[0].cond, v) == No;
      assert forall i :: 0 <= i < k - 1 ==> ds[1..][i] == ds[i + 1];
      FirstAtIs(ds[1..], v, k - 1);
    }
  }

  /** The value of the default that applies, n without one. */
  function DefaultValue(ds: seq<Default>, v: Valuation, k: nat): Tristate {
    if k < |ds| then Eval(ds[k].expr, v) else No
  }

  /** Between the reverse dependency and the visibility. */
  function Within(s: Symbol, d: Def, v: Valuation, t: Tristate): Tristate {
    AsTyped(s, Max(Min(t, Visible(s, d, v)), Selected(s, d, v)))
  }

  /** What a bool or tristate symbol is, but for choices: k is the default that applies. */
  ghost predicate TriRule(defs: Defs, w: World, s: Symbol, k: nat)
    requires s in defs
  {
    var d, t := defs[s], w.v(s).tri;
    if d.role.Member? && Visible(s, d, w.v) == Yes then
      t == if w.pick(d.role.choice) == Some(s) then Yes else No
    else if Off(d, w.v) then t == No
    else if Visible(s, d, w.v) == No && Selected(s, d, w.v) == No then t == AsTyped(s, DefaultValue(d.defaults, w.v, k))
    else if d.user.Some? then t == Within(s, d, w.v, d.user.value.tri)
    else t == Within(s, d, w.v, DefaultValue(d.defaults, w.v, k))
  }

  lemma TriValueIs(defs: Defs, w: World, s: Symbol, k: nat)
    requires Solution(defs, w) && s in defs && IsTri(s) && !defs[s].role.Choice? && FirstAt(defs[s].defaults, w.v, k)
    ensures TriRule(defs, w, s, k)
  {
    var d := defs[s];
    assert w.v(s) == Calc(defs, s, w);
    FirstAtIs(d.defaults, w.v, k);
    OffIs(d, w.v);
  }

  /** A fully visible symbol that nobody selects, without a user value, has its default. */
  lemma TakesDefault(defs: Defs, w: World, s: Symbol, k: nat)
    requires Solution(defs, w) && s in defs && IsTri(s) && defs[s].role.Plain? && defs[s].user.None?
    requires Visible(s, defs[s], w.v) == Yes && Selected(s, defs[s], w.v) == No
    requires FirstAt(defs[s].defaults, w.v, k)
    ensures w.v(s).tri == AsTyped(s, DefaultValue(defs[s].defaults, w.v, k))
  {
    TriValueIs(defs, w, s, k);
  }

  /** The text of a string, int or hex symbol: the user's if it is visible, else that of the default's symbol. */
  lemma TextIs(defs: Defs, w: World, s: Symbol, k: nat)
    requires Solution(defs, w) && s in defs && TypeOf(s) in {SString, SInt, SHex} && FirstAt(defs[s].defaults, w.v, k)
    ensures var d := defs[s];
            w.v(s).str == if Visible(s, d, w.v) != No && d.user.Some? then d.user.value.str
                          else if k < |d.defaults| && d.defaults[k].expr.Sym? then w.v(d.defaults[k].expr.s).str
                          else ""
  {
    assert w.v(s) == Calc(defs, s, w);
    FirstAtIs(defs[s].defaults, w.v, k);
  }

  /** A symbol of no known type stands for its own name. */
  lemma NameIs(defs: Defs, w: World, s: Symbol)
    requires Solution(defs, w) && s in defs && !IsTri(s) && TypeOf(s) !in {SString, SInt, SHex}
    ensures w.v(s) == Value(No, defs[s].name)
  {
    assert w.v(s) == Calc(defs, s, w);
  }

  // ----- choices -----

  predicate MemberShown(defs: Defs, m: Symbol, v: Valuation) {
    Visible(m, DefOf(defs, m), v) != No
  }

  predicate UserShown(defs: Defs, d: Def, v: Valuation) {
    d.role.Choice? && d.role.chosen.Some? && MemberShown(defs, d.role.chosen.value, v)
  }

  /** Default k applies and names a visible member. */
  predicate DefaultShown(defs: Defs, ds: seq<Default>, v: Valuation, k: nat)
    requires k < |ds|
  {
    EvalOpt(ds[k].cond, v) != No && ds[k].expr.Sym? && MemberShown(defs, ds[k].expr.s, v)
  }

  predicate NoDefaultShown(defs: Defs, ds: seq<Default>, v: Valuation, n: nat)
    requires n <= |ds|
  {
    forall k :: 0 <= k < n ==> !DefaultShown(defs, ds, v, k)
  }

  predicate NoMemberShown(defs: Defs, ms: seq<Symbol>, v: Valuation, n: nat)
    requires n <= |ms|
  {
    forall k :: 0 <= k < n ==> !MemberShown(defs, ms[k], v)
  }

  /** Nobody a choice could point to. */
  predicate Nobody(defs: Defs, d: Def, v: Valuation)
    requires d.role.Choice?
  {
    && !UserShown(defs, d, v) && NoDefaultShown(defs, d.defaults, v, |d.defaults|)
    && NoMemberShown(defs, d.role.members, v, |d.role.members|)
  }

  lemma {:induction false} FirstCandConcat(defs: Defs, a: seq<Cand>, b: seq<Cand>, v: Valuation)
    ensures FirstCand(defs, a + b, v) == if FirstCand(defs, a, v).Some? then FirstCand(defs, a, v)
                                         else FirstCand(defs, b, v)
  {
    if a == [] {
      assert a + b == b;
    } else {
      assert (a + b)[1..] == a[1..] + b;
      FirstCandConcat(defs, a[1..], b, v);
    }
  }

  lemma {:induction false} DefaultsPick(defs: Defs, ds: seq<Default>, v: Valuation, k: nat)
    requires v(SymY).tri == Yes && k <= |ds| && NoDefaultShown(defs, ds, v, k)
    requires k < |ds| ==> DefaultShown(defs, ds, v, k)
    ensures FirstCand(defs, DefaultCands(ds), v) == if k < |ds| then Some(ds[k].expr.s) else None
  {
    if ds != [] {
      var h := if ds[0].expr.Sym? then [Cand(CondExpr(ds[0].cond), ds[0].expr.s)] else [];
      FirstCandConcat(defs, h, DefaultCands(ds[1..]), v);
      assert FirstCand(defs, h, v) == if DefaultShown(defs, ds, v, 0) then Some(ds[0].expr.s) else None by {
        if h != [] { assert h[1..] == []; }
      }
      if k > 0 {
        assert forall i :: 0 <= i < |ds| - 1 ==>
            (DefaultShown(defs, ds[1..], v, i) <==> DefaultShown(defs, ds, v, i + 1));
        DefaultsPick(defs, ds[1..], v, k - 1);
      }
    }
  }

  lemma {:induction false} MembersPick(defs: Defs, ms: seq<Symbol>, v: Valuation, k: nat)
    requires v(SymY).tri == Yes && k <= |ms| && NoMemberShown(defs, ms, v, k)
    requires k < |ms| ==> MemberShown(defs, ms[k], v)
    ensures FirstCand(defs, MemberCands(ms), v) == if k < |ms| then Some(ms[k]) else None
  {
    if ms != [] && k > 0 {
      assert !MemberShown(defs, ms[0], v);
      assert forall i :: 0 <= i < |ms| - 1 ==> ms[1..][i] == ms[i + 1];
      MembersPick(defs, ms[1..], v, k - 1);
      assert MemberCands(ms)[1..] == MemberCands(ms[1..]);
    }
  }

  lemma CandsPick(defs: Defs, d: Def, v: Valuation)
    requires d.role.Choice? && v(SymY).tri == Yes
    ensures FirstCand(defs, Cands(d.role, d.defaults), v) ==
            if UserShown(defs, d, v) then d.role.chosen
            else if FirstCand(defs, DefaultCands(d.defaults), v).Some? then FirstCand(defs, DefaultCands(d.defaults), v)
            else FirstCand(defs, MemberCands(d.role.members), v)
  {
    var u := if d.role.chosen.Some? then [Cand(Sym(SymY), d.role.chosen.value)] else [];
    FirstCandConcat(defs, u, DefaultCands(d.defaults) + MemberCands(d.role.members), v);
    FirstCandConcat(defs, DefaultCands(d.defaults), MemberCands(d.role.members), v);
    if u != [] { assert u[1..] == []; }
  }

  /** In a solution a choice that is y sees itself as y while it picks. */
  lemma PicksAtYes(defs: Defs, w: World, c: Symbol)
    requires Solution(defs, w) && c in defs && IsTri(c) && defs[c].role.Choice? && w.v(c).tri == Yes
    ensures w.pick(c) == FirstCand(defs, Cands(defs[c].role, defs[c].defaults), w.v) && w.v(SymY).tri == Yes
  {
    assert w.v(c) == Calc(defs, c, w) && w.pick(c) == PickOf(defs, c, w);
    assert RightValue(SymY, w.v(SymY)) && RightValue(c, w.v(c));
    CandsAgree(defs, Cands(defs[c].role, defs[c].defaults), Held(w.v, c), w.v);
  }

  /** The user's member comes first, if it is visible. */
  lemma PicksUser(defs: Defs, w: World, c: Symbol)
    requires Solution(defs, w) && c in defs && IsTri(c) && defs[c].role.Choice? && w.v(c).tri == Yes
    requires UserShown(defs, defs[c], w.v)
    ensures w.pick(c) == defs[c].role.chosen
  {
    PicksAtYes(defs, w, c);
    CandsPick(defs, defs[c], w.v);
  }

  /** Then the member of the first default that applies and names a visible one. */
  lemma PicksDefault(defs: Defs, w: World, c: Symbol, k: nat)
    requires Solution(defs, w) && c in defs && IsTri(c) && defs[c].role.Choice? && w.v(c).tri == Yes
    requires !UserShown(defs, defs[c], w.v) && k < |defs[c].defaults|
    requires NoDefaultShown(defs, defs[c].defaults, w.v, k) && DefaultShown(defs, defs[c].defaults, w.v, k)
    ensures w.pick(c) == Some(defs[c].defaults[k].expr.s)
  {
    PicksAtYes(defs, w, c);
    CandsPick(defs, defs[c], w.v);
    DefaultsPick(defs, defs[c].defaults, w.v, k);
  }

  /** Then the first visible member. */
  lemma PicksMember(defs: Defs, w: World, c: Symbol, k: nat)
    requires Solution(defs, w) && c in defs && IsTri(c) && defs[c].role.Choice? && w.v(c).tri == Yes
    requires !UserShown(defs, defs[c], w.v) && NoDefaultShown(defs, defs[c].defaults, w.v, |defs[c].defaults|)
    requires k < |defs[c].role.members| && MemberShown(defs, defs[c].role.members[k], w.v)
    requires NoMemberShown(defs, defs[c].role.members, w.v, k)
    ensures w.pick(c) == Some(defs[c].role.members[k])
  {
    PicksAtYes(defs, w, c);
    CandsPick(defs, defs[c], w.v);
    DefaultsPick(defs, defs[c].defaults, w.v, |defs[c].defaults|);
    MembersPick(defs, defs[c].role.members, w.v, k);
  }

  lemma NobodyIs(defs: Defs, d: Def, v: Valuation)
    requires d.role.Choice? && v(SymY).tri == Yes
    ensures Nobody(defs, d, v) <==> FirstCand(defs, Cands(d.role, d.defaults), v).None?
  {
    CandsPick(defs, d, v);
    var (n, m) := (FirstDefaultShown(defs, d.defaults, v, 0), FirstMemberShown(defs, d.role.members, v, 0));
    DefaultsPick(defs, d.defaults, v, n);
    MembersPick(defs, d.role.members, v, m);
  }

  function FirstDefaultShown(defs: Defs, ds: seq<Default>, v: Valuation, k: nat): (n: nat)
    requires k <= |ds| && NoDefaultShown(defs, ds, v, k)
    ensures n <= |ds| && NoDefaultShown(defs, ds, v, n) && (n < |ds| ==> DefaultShown(defs, ds, v, n))
    decreases |ds| - k
  {
    if k == |ds| || DefaultShown(defs, ds, v, k) then k else FirstDefaultShown(defs, ds, v, k + 1)
  }

  function FirstMemberShown(defs: Defs, ms: seq<Symbol>, v: Valuation, k: nat): (n: nat)
    requires k <= |ms| && NoMemberShown(defs, ms, v, k)
    ensures n <= |ms| && NoMemberShown(defs, ms, v, n) && (n < |ms| ==> MemberShown(defs, ms[n], v))
    decreases |ms| - k
  {
    if k == |ms| || MemberShown(defs, ms[k], v) then k else FirstMemberShown(defs, ms, v, k + 1)
  }

  /** What a choice is before it looks for a member: its defaults do not count. */
  function BeforePick(c: Symbol, d: Def, v: Valuation): Tristate {
    if Off(d, v) || (Visible(c, d, v) == No && Selected(c, d, v) == No) then No
    else Within(c, d, v, if d.user.Some? then d.user.value.tri else No)
  }

  lemma BeforePickIs(c: Symbol, d: Def, w: World)
    requires Respects(w.v) && IsTri(c) && d.role.Choice?
    ensures CalcTri(c, d, w) == BeforePick(c, d, w.v)
  {
    OffIs(d, w.v);
  }

  /** A choice is what its bounds make of the user's value, but n if that is y and it finds nobody to point to. */
  lemma ChoiceValueIs(defs: Defs, w: World, c: Symbol)
    requires Solution(defs, w) && c in defs && IsTri(c) && defs[c].role.Choice?
    ensures var (t, nobody) := (BeforePick(c, defs[c], w.v), Nobody(defs, defs[c], Held(w.v, c)));
            && w.v(c).tri == (if t == Yes && nobody then No else t)
            && (w.pick(c).Some? <==> t == Yes && !nobody)
  {
    var d := defs[c];
    assert w.v(c) == Calc(defs, c, w) && w.pick(c) == PickOf(defs, c, w);
    assert RightValue(SymY, w.v(SymY));
    BeforePickIs(c, d, w);
    NobodyIs(defs, d, Held(w.v, c));
  }

  // ----- runs -----

  /** The default a choice that is y points to, without a visible member of the user's. */
  ghost predicate DefaultRule(defs: Defs, w: World, c: Symbol, k: nat)
    requires c in defs && k < |defs[c].defaults|
  {
    NoDefaultShown(defs, defs[c].defaults, w.v, k) && DefaultShown(defs, defs[c].defaults, w.v, k)
    ==> w.pick(c) == Some(defs[c].defaults[k].expr.s)
  }

  /** The member it points to without such a default either. */
  ghost predicate MemberRule(defs: Defs, w: World, c: Symbol, k: nat)
    requires c in defs && defs[c].role.Choice? && k < |defs[c].role.members|
  {
    && NoDefaultShown(defs, defs[c].defaults, w.v, |defs[c].defaults|)
    && NoMemberShown(defs, defs[c].role.members, w.v, k) && MemberShown(defs, defs[c].role.members[k], w.v)
    ==> w.pick(c) == Some(defs[c].role.members[k])
  }

  ghost predicate PickRule(defs: Defs, w: World, c: Symbol)
    requires c in defs && defs[c].role.Choice?
  {
    if UserShown(defs, defs[c], w.v) then w.pick(c) == defs[c].role.chosen
    else
      && (forall k {:trigger DefaultRule(defs, w, c, k)} :: 0 <= k < |defs[c].defaults| ==> DefaultRule(defs, w, c, k))
      && (forall k {:trigger MemberRule(defs, w, c, k)} ::
            0 <= k < |defs[c].role.members| ==> MemberRule(defs, w, c, k))
  }

  ghost predicate ValueRule(defs: Defs, w: World, s: Symbol)
    requires s in defs
  {
    forall k {:trigger TriRule(defs, w, s, k)} :: FirstAt(defs[s].defaults, w.v, k) ==> TriRule(defs, w, s, k)
  }

  /** The rules a bool or tristate symbol follows, and a choice that is y. */
  ghost predicate Follows(defs: Defs, w: World, s: Symbol)
    requires s in defs
  {
    IsTri(s) ==>
      if !defs[s].role.Choice? then ValueRule(defs, w, s) else w.v(s).tri == Yes ==> PickRule(defs, w, s)
  }

  lemma ChoiceFollows(defs: Defs, w: World, c: Symbol)
    requires Solution(defs, w) && c in defs && IsTri(c) && defs[c].role.Choice? && w.v(c).tri == Yes
    ensures PickRule(defs, w, c)
  {
    if UserShown(defs, defs[c], w.v) {
      PicksUser(defs, w, c);
    } else {
      forall k | 0 <= k < |defs[c].defaults| ensures DefaultRule(defs, w, c, k) {
        if NoDefaultShown(defs, defs[c].defaults, w.v, k) && DefaultShown(defs, defs[c].defaults, w.v, k) {
          PicksDefault(defs, w, c, k);
        }
      }
      forall k | 0 <= k < |defs[c].role.members| ensures MemberRule(defs, w, c, k) {
        if NoDefaultShown(defs, defs[c].defaults, w.v, |defs[c].defaults|)
           && NoMemberShown(defs, defs[c].role.members, w.v, k) && MemberShown(defs, defs[c].role.members[k], w.v) {
          PicksMember(defs, w, c, k);
        }
      }
    }
  }

  lemma SolutionFollows(defs: Defs, w: World, s: Symbol)
    requires Solution(defs, w) && s in defs
    ensures Follows(defs, w, s)
  {
    if IsTri(s) && !defs[s].role.Choice? {
      forall k | FirstAt(defs[s].defaults, w.v, k) ensures TriRule(defs, w, s, k) { TriValueIs(defs, w, s, k); }
    }
    if IsTri(s) && defs[s].role.Choice? && w.v(s).tri == Yes { ChoiceFollows(defs, w, s); }
  }

  /**
   Without recursive dependencies the values and picks every run ends with follow these rules, in any order of calls
   and from any values left before.
   */
  lemma RunFollows(defs: Defs, rank: Symbol -> nat, st: State, order: seq<Symbol>) returns (w: World)
    requires Proper(defs) && Ranked(defs, rank) && st.valid == {} && forall s :: s in order <==> s in defs
    ensures forall s {:trigger Follows(defs, w, s)} :: s in defs ==>
              && w.v(s) == Known(CalcAllIn(defs, st, order), s) && w.pick(s) == PickAt(CalcAllIn(defs, st, order), s)
              && Follows(defs, w, s)
  {
    w := RunSolves(defs, rank, st, order);
    forall s | s in defs
      ensures w.v(s) == Known(CalcAllIn(defs, st, order), s) && w.pick(s) == PickAt(CalcAllIn(defs, st, order), s)
      ensures Follows(defs, w, s)
    {
      assert At(w, CalcAllIn(defs, st, order), s);
      SolutionFollows(defs, w, s);
    }
  }
}
