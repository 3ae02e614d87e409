/**
 What every run of the calculator keeps about choices (scripts/config/symbol.c:231-268, 306-313, 360-363), for
 any declarations and any picks left from before: cycles, nested calculations and the order of the calls are all
 allowed. One lemma for each function of ValueMemo says that it keeps the invariant. The invariant speaks of two
 states: the current one, and an earlier one whose valid symbols stay as they were. It says of every member that got
 its value while fully visible which pick it found: the old one, none, or the one its choice has stored by now.
 */
module ChoiceRuns {
  import opened Options
  import opened Expressions
  import opened Normalise
  import opened SymbolValues
  import opened ValueMemo

  function ChoiceOf(defs: Defs, m: Symbol): Option<Symbol> {
    if DefOf(defs, m).role.Member? then Some(DefOf(defs, m).role.choice) else None
  }

  /** A choice not calculated yet has its old pick, and one that was cleared has none. */
  ghost predicate Tidy(st: State) {
    && (forall m {:trigger FullAt(st, m)} :: FullAt(st, m).Some? ==> m in st.valid)
    && (forall c {:trigger PhaseOf(st, c)} :: c !in st.valid ==> PhaseOf(st, c) == Old)
    && (forall c {:trigger PhaseOf(st, c)} :: PhaseOf(st, c) == Cleared ==> PickAt(st, c) == None)
  }

  ghost predicate OldPicks(base: State, st: State) {
    forall c {:trigger PhaseOf(st, c)} :: PhaseOf(st, c) == Old ==> PickAt(st, c) == PickAt(base, c)
  }

  function Nr(p: Phase): nat {
    match p
    case Old => 0
    case Cleared => 1
    case Stored => 2
  }

  /** A member that found this is y exactly if the pick it found was itself. */
  predicate Told(base: State, st: State, c: Symbol, m: Symbol, found: Phase) {
    && Nr(PhaseOf(base, c)) <= Nr(found) <= Nr(PhaseOf(st, c))
    && (Known(st, m).tri == Yes <==>
         match found
         case Old => PickAt(base, c) == Some(m)
         case Cleared => false
         case Stored => PickAt(st, c) == Some(m))
  }

  /** This holds of all members calculated since base. */
  ghost predicate AllTold(defs: Defs, base: State, st: State) {
    forall m {:trigger FullAt(st, m)} ::
      FullAt(st, m).Some? && m !in base.valid && ChoiceOf(defs, m).Some? ==>
        Told(base, st, ChoiceOf(defs, m).value, m, FullAt(st, m).value)
  }

  ghost predicate Inv(defs: Defs, base: State, st: State) {
    Stays(base, st) && Tidy(base) && Tidy(st) && OldPicks(base, st) && AllTold(defs, base, st)
  }

  lemma TellsOf(defs: Defs, base: State, st: State, m: Symbol)
    requires Inv(defs, base, st) && FullAt(st, m).Some? && m !in base.valid && ChoiceOf(defs, m).Some?
    ensures Told(base, st, ChoiceOf(defs, m).value, m, FullAt(st, m).value)
  {
  }

  // ----- the single steps -----

  /** Only s differs, and nothing is recorded of s. */
  ghost predicate OnlyAt(a: State, b: State, s: Symbol) {
    && a.valid == b.valid
    && (forall x {:trigger Known(b, x)} :: x != s ==> Known(b, x) == Known(a, x))
    && (forall c {:trigger PickAt(b, c)} :: c != s ==> PickAt(b, c) == PickAt(a, c))
    && (forall c {:trigger PhaseOf(b, c)} :: c != s ==> PhaseOf(b, c) == PhaseOf(a, c))
    && (forall m {:trigger FullAt(b, m)} :: m != s ==> FullAt(b, m) == FullAt(a, m))
  }

  lemma MarkOne(defs: Defs, base: State, st: State, s: Symbol)
    requires Inv(defs, base, st) && s !in st.valid
    ensures Inv(defs, base, Mark(st, s)) && PhaseOf(Mark(st, s), s) == Old
    ensures FullAt(Mark(st, s), s) == None && s !in base.valid
  {
    var r := Mark(st, s);
    assert FullAt(st, s) == None;
    forall x ensures Known(r, x) == Known(st, x) && PickAt(r, x) == PickAt(st, x) {}
    forall x ensures PhaseOf(r, x) == PhaseOf(st, x) && FullAt(r, x) == FullAt(st, x) {}
    forall m | FullAt(r, m).Some? && m !in base.valid && ChoiceOf(defs, m).Some?
      ensures Told(base, r, ChoiceOf(defs, m).value, m, FullAt(r, m).value)
    {
      TellsOf(defs, base, st, m);
    }
  }
  /** A symbol whose calculation has begun: no value of it is recorded and no pick stored yet. */
  ghost predicate Begun(base: State, st: State, s: Symbol) {
    s in st.valid && s !in base.valid && FullAt(st, s) == None && PhaseOf(st, s) != Stored
  }

  lemma StoreOne(defs: Defs, base: State, st: State, s: Symbol, x: Value)
    requires Inv(defs, base, st) && Begun(base, st, s)
    ensures Inv(defs, base, Store(st, s, x)) && Begun(base, Store(st, s, x), s)
    ensures forall c :: PickAt(Store(st, s, x), c) == PickAt(st, c) && PhaseOf(Store(st, s, x), c) == PhaseOf(st, c)
  {
    StepOne(defs, base, st, Store(st, s, x), s);
  }

  /** A step on a symbol whose calculation has begun, towards the later phases. */
  lemma StepOne(defs: Defs, base: State, st: State, r: State, s: Symbol)
    requires Inv(defs, base, st) && Begun(base, st, s) && OnlyAt(st, r, s) && FullAt(r, s) == None
    requires Nr(PhaseOf(st, s)) <= Nr(PhaseOf(r, s))
    requires PhaseOf(r, s) == PhaseOf(st, s) ==> PickAt(r, s) == PickAt(st, s)
    requires PhaseOf(r, s) == Cleared ==> PickAt(r, s) == None
    ensures Inv(defs, base, r)
  {
    forall m | FullAt(r, m).Some? && m !in base.valid && ChoiceOf(defs, m).Some?
      ensures Told(base, r, ChoiceOf(defs, m).value, m, FullAt(r, m).value)
    {
      TellsOf(defs, base, st, m);
    }
  }

  lemma FillOne(defs: Defs, base: State, st: State, s: Symbol, c: Symbol)
    requires Inv(defs, base, st) && Begun(base, st, s) && ChoiceOf(defs, s) == Some(c)
    requires Known(st, s).tri == Yes <==> PickAt(st, c) == Some(s)
    ensures Inv(defs, base, Fill(st, s, c))
  {
    var r := Fill(st, s, c);
    forall x ensures Known(r, x) == Known(st, x) && PickAt(r, x) == PickAt(st, x) && PhaseOf(r, x) == PhaseOf(st, x) {}
    forall x | x != s ensures FullAt(r, x) == FullAt(st, x) {}
    assert Nr(PhaseOf(base, c)) <= Nr(PhaseOf(st, c)) by {
      if c in base.valid { assert PhaseOf(st, c) == PhaseOf(base, c); }
    }
    forall m | FullAt(r, m).Some? && m !in base.valid && ChoiceOf(defs, m).Some?
      ensures Told(base, r, ChoiceOf(defs, m).value, m, FullAt(r, m).value)
    {
      if m != s { TellsOf(defs, base, st, m); }
    }
  }

  // ----- the calculation -----

  lemma {:induction false} EvalOne(defs: Defs, base: State, st: State, e: Expr)
    requires Inv(defs, base, st)
    ensures Inv(defs, base, EvalIn(defs, st, e).0)
    decreases Left(defs, st), 2, e
  {
    match e
    case Sym(s) => CalcOne(defs, base, st, s);
    case Not(x) => EvalOne(defs, base, st, x);
    case Cmp(_, a, b) =>
      CalcOne(defs, base, st, a);
      CalcOne(defs, base, CalcIn(defs, st, a), b);
    case Bin(_, l, r) =>
      EvalOne(defs, base, st, l);
      EvalOne(defs, base, EvalIn(defs, st, l).0, r);
  }

  lemma {:induction false} ShownOne(defs: Defs, base: State, st: State, s: Symbol)
    requires Inv(defs, base, st)
    ensures Inv(defs, base, ShownIn(defs, st, s).st)
    decreases Left(defs, st), 3
  {
    var e := PromptExpr(DefOf(defs, s).prompts);
    EvalOne(defs, base, st, e);
    EvalOne(defs, base, EvalIn(defs, st, e).0, RevExpr(DefOf(defs, s).revDepInv));
  }

  lemma {:induction false} VisibleOne(defs: Defs, base: State, st: State, s: Symbol)
    requires Inv(defs, base, st)
    ensures Inv(defs, base, VisibleIn(defs, st, s).st)
    decreases Left(defs, st), 4
  {
    ShownOne(defs, base, st, s);
    EvalOne(defs, base, ShownIn(defs, st, s).st, RevExpr(DefOf(defs, s).revDep));
  }

  lemma {:induction false} DefaultOne(defs: Defs, base: State, st: State, ds: seq<Default>)
    requires Inv(defs, base, st)
    ensures Inv(defs, base, DefaultIn(defs, st, ds).0)
    decreases Left(defs, st), 3, |ds|
  {
    if ds != [] {
      EvalOne(defs, base, st, CondExpr(ds[0].cond));
      DefaultOne(defs, base, EvalIn(defs, st, CondExpr(ds[0].cond)).0, ds[1..]);
    }
  }

  lemma {:induction false} DefaultTriOne(defs: Defs, base: State, st: State, d: Def)
    requires Inv(defs, base, st)
    ensures Inv(defs, base, DefaultTriIn(defs, st, d).0)
    decreases Left(defs, st), 4
  {
    if !d.role.Choice? {
      DefaultOne(defs, base, st, d.defaults);
      var (st1, e) := DefaultIn(defs, st, d.defaults);
      if e.Some? { EvalOne(defs, base, st1, e.value); }
    }
  }

  lemma {:induction false} OpenOne(defs: Defs, base: State, st: State, s: Symbol, d: Def, vis: Tristate, rev: Tristate)
    requires Inv(defs, base, st)
    ensures Inv(defs, base, OpenIn(defs, st, s, d, vis, rev).0)
    decreases Left(defs, st), 5
  {
    DefaultTriOne(defs, base, st, d);
  }

  lemma {:induction false} TriOne(defs: Defs, base: State, st: State, s: Symbol, d: Def, vis: Tristate, rev: Tristate)
    requires Inv(defs, base, st)
    ensures Inv(defs, base, TriIn(defs, st, s, d, vis, rev).0)
    decreases Left(defs, st), 6
  {
    if !(d.role.Member? && vis == Yes) {
      EvalOne(defs, base, st, RevExpr(d.revDepInv));
      OpenOne(defs, base, EvalIn(defs, st, RevExpr(d.revDepInv)).0, s, d, vis, rev);
    }
  }

  lemma {:induction false} DefaultStrOne(defs: Defs, base: State, st: State, d: Def)
    requires Inv(defs, base, st)
    ensures Inv(defs, base, DefaultStrIn(defs, st, d).0)
    decreases Left(defs, st), 4
  {
    DefaultOne(defs, base, st, d.defaults);
    var (st1, e) := DefaultIn(defs, st, d.defaults);
    if e.Some? && e.value.Sym? { CalcOne(defs, base, st1, e.value.s); }
  }

  lemma {:induction false} PickInOne(defs: Defs, base: State, st: State, cs: seq<Cand>)
    requires Inv(defs, base, st)
    ensures Inv(defs, base, PickIn(defs, st, cs).0)
    decreases Left(defs, st), 6, |cs|
  {
    if cs != [] {
      EvalOne(defs, base, st, cs[0].cond);
      VisibleOne(defs, base, EvalIn(defs, st, cs[0].cond).0, cs[0].member);
      PickInOne(defs, base, CandIn(defs, st, cs[0]).0, cs[1..]);
    }
  }

  lemma StillBegun(base: State, st: State, st': State, s: Symbol)
    requires Begun(base, st, s) && Stays(st, st')
    ensures Begun(base, st', s)
  {
  }

  lemma ClearOne(defs: Defs, base: State, st: State, s: Symbol, x: Value)
    requires Inv(defs, base, st) && Begun(base, st, s)
    ensures Inv(defs, base, ClearTo(st, s, x)) && Begun(base, ClearTo(st, s, x), s)
    ensures PhaseOf(ClearTo(st, s, x), s) == Cleared
  {
    StepOne(defs, base, st, ClearTo(st, s, x), s);
  }

  lemma PickOne(defs: Defs, base: State, st: State, s: Symbol, m: Option<Symbol>)
    requires Inv(defs, base, st) && Begun(base, st, s)
    ensures Inv(defs, base, StorePick(st, s, m))
  {
    StepOne(defs, base, st, StorePick(st, s, m), s);
  }

  lemma {:induction false} PickedOne(defs: Defs, base: State, st: State, s: Symbol, d: Def, t: Tristate)
    requires Inv(defs, base, st) && Begun(base, st, s)
    ensures Inv(defs, base, PickedIn(defs, st, s, d, t))
    decreases Left(defs, st), 7
  {
    if d.role.Choice? && t == Yes {
      var cs := Cands(d.role, d.defaults);
      PickInOne(defs, base, st, cs);
      var (st1, m) := PickIn(defs, st, cs);
      StillBegun(base, st, st1, s);
      StoreOne(defs, base, st1, s, TriValue(No));
      PickOne(defs, base, if m.None? then Store(st1, s, TriValue(No)) else st1, s, m);
    }
  }

  /** Up to and with the store of the value; a visible member finds the pick that will stay. */
  lemma {:induction false} ValueOne(defs: Defs, base: State, st: State, s: Symbol)
    requires IsTri(s) && Inv(defs, base, st) && Begun(base, st, s)
    ensures var v := ValueIn(defs, st, s);
            Inv(defs, base, Valued(v, s)) && (v.full.None? ==> Begun(base, Valued(v, s), s))
    decreases Left(defs, st), 7
  {
    var d := DefOf(defs, s);
    var h := VisibleIn(defs, st, s);
    VisibleOne(defs, base, st, s);
    StillBegun(base, st, h.st, s);
    ClearOne(defs, base, h.st, s, TriValue(No));
    var st1 := Clear(h.st, s);
    TriOne(defs, base, st1, s, d, h.vis, h.rev);
    var (st2, t) := TriIn(defs, st1, s, d, h.vis, h.rev);
    StillBegun(base, st1, st2, s);
    StoreOne(defs, base, st2, s, TriValue(t));
    ValueStored(st2, s, TriValue(t));
    if d.role.Member? && h.vis == Yes { FillOne(defs, base, Store(st2, s, TriValue(t)), s, d.role.choice); }
  }

  lemma {:induction false} TriBodyOne(defs: Defs, base: State, st: State, s: Symbol)
    requires IsTri(s) && Inv(defs, base, st) && Begun(base, st, s)
    ensures Inv(defs, base, TriBodyIn(defs, st, s))
    decreases Left(defs, st), 8
  {
    var v := ValueIn(defs, st, s);
    ValueOne(defs, base, st, s);
    if v.full.None? { PickedOne(defs, base, Valued(v, s), s, DefOf(defs, s), v.t); }
  }

  lemma {:induction false} StrBodyOne(defs: Defs, base: State, st: State, s: Symbol)
    requires !IsTri(s) && Inv(defs, base, st) && Begun(base, st, s)
    ensures Inv(defs, base, StrBodyIn(defs, st, s))
    decreases Left(defs, st), 8
  {
    var d := DefOf(defs, s);
    var v := VisibleIn(defs, st, s);
    VisibleOne(defs, base, st, s);
    StillBegun(base, st, v.st, s);
    ClearOne(defs, base, v.st, s, Value(No, ""));
    var st1 := Clear(v.st, s);
    DefaultStrOne(defs, base, st1, d);
    var (st2, x) := StrIn(defs, st1, d, v.vis);
    StillBegun(base, st1, st2, s);
    StoreOne(defs, base, st2, s, Value(No, x));
  }

  lemma ValueStored(st: State, s: Symbol, x: Value)
    ensures s.Var? ==> Known(Store(st, s, x), s) == x
    ensures forall c :: PickAt(Store(st, s, x), c) == PickAt(st, c)
  {
  }

  lemma {:induction false} CalcOne(defs: Defs, base: State, st: State, s: Symbol)
    requires Inv(defs, base, st)
    ensures Inv(defs, base, CalcIn(defs, st, s))
    decreases Left(defs, st), 1
  {
    if IsNew(defs, st, s) {
      MarkOne(defs, base, st, s);
      var st0 := Mark(st, s);
      if IsTri(s) {
        TriBodyOne(defs, base, st0, s);
      } else if TypeOf(s) == SString || TypeOf(s) == SInt || TypeOf(s) == SHex {
        StrBodyOne(defs, base, st0, s);
      } else {
        ClearOne(defs, base, st0, s, Value(No, DefOf(defs, s).name));
      }
    }
  }

  lemma {:induction false} CalcAllOne(defs: Defs, base: State, st: State, order: seq<Symbol>)
    requires Inv(defs, base, st)
    ensures Inv(defs, base, CalcAllIn(defs, st, order))
  {
    if order != [] {
      CalcAllOne(defs, base, st, order[..|order| - 1]);
      CalcOne(defs, base, CalcAllIn(defs, st, order[..|order| - 1]), order[|order| - 1]);
    }
  }
}
