/**
 sym_calc_value as it runs (scripts/config/symbol.c:114-133, 196-268, 270-380): SYMBOL_VALID is set before
 anything is read, values are stored in two steps, and a choice picks its member with curr.tri already y.
 The functions say what a call does to the state, for any declarations and any values left from before. Every one
 of them gives the new state together with what the C function returns; the measure is the number of declared
 symbols that are not valid yet.
 */
module ValueMemo {
  import opened Options
  import opened Expressions
  import opened Normalise
  import opened SymbolValues

  /** What curr.val of a choice holds: the pick left from before, nothing, or the pick just stored. */
  datatype Phase = Old | Cleared | Stored

  /**
   curr.tri and curr.val of all symbols, and SYMBOL_VALID. Two records of the run: the phase of each choice, and for
   each member that got its value while fully visible the phase its choice was in.
   */
  datatype State = State(curr: map<Symbol, Value>, pick: map<Symbol, Option<Symbol>>, valid: set<Symbol>,
                         phase: map<Symbol, Phase>, full: map<Symbol, Phase>)

  function PhaseOf(st: State, c: Symbol): Phase {
    if c in st.phase then st.phase[c] else Old
  }

  /** The value found in a symbol; built-in constants are always there. */
  function Known(st: State, s: Symbol): (x: Value) {
    match s
    case SymY => Value(Yes, "y")
    case SymM => Value(Mod, "m")
    case SymN => Value(No, "n")
    case Const(text) => Value(No, text)
    case Var(_, _) => if s in st.curr then st.curr[s] else Value(No, "n")
  }

  function PickAt(st: State, c: Symbol): Option<Symbol> {
    if c in st.pick then st.pick[c] else None
  }

  /** For a member that got its value while fully visible, the phase its choice was in. */
  function FullAt(st: State, m: Symbol): Option<Phase> {
    if m in st.full then Some(st.full[m]) else None
  }

  /** Valid symbols stay valid, and nothing about them changes. */
  ghost predicate Stays(a: State, b: State) {
    && a.valid <= b.valid
    && (forall x {:trigger Known(b, x)} :: x in a.valid ==> Known(b, x) == Known(a, x))
    && (forall x {:trigger PickAt(b, x)} :: x in a.valid ==> PickAt(b, x) == PickAt(a, x))
    && (forall x {:trigger PhaseOf(b, x)} :: x in a.valid ==> PhaseOf(b, x) == PhaseOf(a, x))
    && (forall x {:trigger FullAt(b, x)} :: x in a.valid ==> FullAt(b, x) == FullAt(a, x))
  }

  /** And the values of new ones fit their types. */
  ghost predicate Kept(a: State, b: State) {
    && Stays(a, b)
    && (forall x {:trigger x in b.valid} :: x in b.valid && x !in a.valid ==> RightValue(x, Known(b, x)))
  }

  /** The same, but for the symbol whose calculation this is. */
  ghost predicate KeptBut(a: State, b: State, s: Symbol) {
    && a.valid <= b.valid
    && (forall x {:trigger Known(b, x)} :: x in a.valid && x != s ==> Known(b, x) == Known(a, x))
    && (forall x {:trigger PickAt(b, x)} :: x in a.valid && x != s ==> PickAt(b, x) == PickAt(a, x))
    && (forall x {:trigger PhaseOf(b, x)} :: x in a.valid && x != s ==> PhaseOf(b, x) == PhaseOf(a, x))
    && (forall x {:trigger FullAt(b, x)} :: x in a.valid && x != s ==> FullAt(b, x) == FullAt(a, x))
    && (forall x {:trigger x in b.valid} :: x in b.valid && x !in a.valid && x != s ==> RightValue(x, Known(b, x)))
  }

  function Left(defs: Defs, st: State): set<Symbol> {
    defs.Keys - st.valid
  }

  predicate IsNew(defs: Defs, st: State, s: Symbol) {
    s.Var? && s in defs && s !in st.valid
  }

  // ----- storing -----

  function Mark(st: State, s: Symbol): State {
    st.(valid := st.valid + {s})
  }

  function Store(st: State, s: Symbol, x: Value): State {
    st.(curr := st.curr[s := x])
  }

  function StorePick(st: State, s: Symbol, m: Option<Symbol>): State {
    st.(pick := st.pick[s := m], phase := st.phase[s := Stored])
  }

  /** s got its value while fully visible in the choice c. */
  function Fill(st: State, s: Symbol, c: Symbol): State {
    st.(full := st.full[s := PhaseOf(st, c)])
  }

  function ClearTo(st: State, s: Symbol, x: Value): State {
    st.(curr := st.curr[s := x], pick := st.pick[s := None], phase := st.phase[s := Cleared])
  }

  /** `set default if recursively called` */
  function Clear(st: State, s: Symbol): State {
    ClearTo(st, s, if IsTri(s) then TriValue(No) else Value(No, ""))
  }

  lemma StoreBut(b: State, s: Symbol, x: Value)
    ensures KeptBut(b, Store(b, s, x), s) && KeptBut(b, ClearTo(b, s, x), s)
  {
  }

  lemma PickBut(b: State, s: Symbol, m: Option<Symbol>)
    ensures KeptBut(b, StorePick(b, s, m), s)
  {
  }

  lemma FillBut(b: State, s: Symbol, c: Symbol)
    ensures KeptBut(b, Fill(b, s, c), s)
  {
  }

  lemma ButTrans(a: State, b: State, c: State, s: Symbol)
    requires KeptBut(a, b, s) && KeptBut(b, c, s)
    ensures KeptBut(a, c, s)
  {
    forall y | y in a.valid && y != s ensures Known(c, y) == Known(a, y) && PickAt(c, y) == PickAt(a, y) {
      assert Known(b, y) == Known(a, y) && PickAt(b, y) == PickAt(a, y);
    }
    forall y | y in a.valid && y != s ensures PhaseOf(c, y) == PhaseOf(a, y) && FullAt(c, y) == FullAt(a, y) {
      assert PhaseOf(b, y) == PhaseOf(a, y) && FullAt(b, y) == FullAt(a, y);
    }
    forall y | y in c.valid && y !in a.valid && y != s ensures RightValue(y, Known(c, y)) {
      if y in b.valid { assert RightValue(y, Known(b, y)) && Known(c, y) == Known(b, y); }
    }
  }

  lemma StoreKeeps(a: State, b: State, s: Symbol, x: Value)
    requires KeptBut(a, b, s)
    ensures KeptBut(a, Store(b, s, x), s) && KeptBut(a, ClearTo(b, s, x), s)
  {
    StoreBut(b, s, x);
    ButTrans(a, b, Store(b, s, x), s);
    ButTrans(a, b, ClearTo(b, s, x), s);
  }

  lemma PickKeeps(a: State, b: State, s: Symbol, m: Option<Symbol>, c: Symbol)
    requires KeptBut(a, b, s)
    ensures KeptBut(a, StorePick(b, s, m), s) && KeptBut(a, Fill(b, s, c), s)
  {
    PickBut(b, s, m);
    FillBut(b, s, c);
    ButTrans(a, b, StorePick(b, s, m), s);
    ButTrans(a, b, Fill(b, s, c), s);
  }

  // ----- the calculation -----

  /** expr_calc_value */
  function EvalIn(defs: Defs, st: State, e: Expr): (r: (State, Tristate))
    ensures Kept(st, r.0)
    decreases Left(defs, st), 2, e
  {
    match e
    case Sym(s) =>
      var st1 := CalcIn(defs, st, s);
      (st1, Known(st1, s).tri)
    case Not(x) =>
      var (st1, t) := EvalIn(defs, st, x);
      (st1, NotT(t))
    case Cmp(eq, a, b) =>
      var st1 := CalcIn(defs, CalcIn(defs, st, a), b);
      (st1, BoolT((Known(st1, a).str == Known(st1, b).str) == eq))
    case Bin(op, l, r) =>
      var (st1, x) := EvalIn(defs, st, l);
      var (st2, y) := EvalIn(defs, st1, r);
      (st2, Apply(op, x, y))
  }

  datatype Shown = Shown(st: State, deselected: bool, vis: Tristate)

  /** The prompts and the deselection. */
  function ShownIn(defs: Defs, st: State, s: Symbol): (r: Shown)
    ensures Kept(st, r.st)
    decreases Left(defs, st), 3
  {
    var (st1, p) := EvalIn(defs, st, PromptExpr(DefOf(defs, s).prompts));
    var (st2, inv) := EvalIn(defs, st1, RevExpr(DefOf(defs, s).revDepInv));
    Shown(st2, inv == Yes, if inv == Yes then No else if TypeOf(s) != STristate then Promote(p) else p)
  }

  datatype Vis = Vis(st: State, deselected: bool, vis: Tristate, rev: Tristate)

  /** sym_calc_visibility */
  function VisibleIn(defs: Defs, st: State, s: Symbol): (r: Vis)
    ensures Kept(st, r.st)
    decreases Left(defs, st), 4
  {
    var h := ShownIn(defs, st, s);
    if DefOf(defs, s).role.Member? || h.deselected then Vis(h.st, h.deselected, h.vis, No)
    else
      var (st1, rev) := EvalIn(defs, h.st, RevExpr(DefOf(defs, s).revDep));
      Vis(st1, false, h.vis, PromoteFor(s, rev))
  }

  /** sym_get_default_prop */
  function DefaultIn(defs: Defs, st: State, ds: seq<Default>): (r: (State, Option<Expr>))
    ensures Kept(st, r.0)
    decreases Left(defs, st), 3, |ds|
  {
    if ds == [] then (st, None)
    else
      var (st1, c) := EvalIn(defs, st, CondExpr(ds[0].cond));
      if c != No then (st1, Some(ds[0].expr)) else DefaultIn(defs, st1, ds[1..])
  }

  function DefaultTriIn(defs: Defs, st: State, d: Def): (r: (State, Tristate))
    ensures Kept(st, r.0)
    decreases Left(defs, st), 4
  {
    if d.role.Choice? then (st, No)
    else
      var (st1, e) := DefaultIn(defs, st, d.defaults);
      if e.None? then (st1, No) else EvalIn(defs, st1, e.value)
  }

  /** A symbol that is no visible member and not deselected: the user's value or the default, within its bounds. */
  function OpenIn(defs: Defs, st: State, s: Symbol, d: Def, vis: Tristate, rev: Tristate): (r: (State, Tristate))
    ensures Kept(st, r.0)
    ensures TypeOf(s) == SBoolean ==> r.1 != Mod
    decreases Left(defs, st), 5
  {
    var shown := Max(vis, rev) != No;
    var (st1, t) := if shown && d.user.Some? then (st, d.user.value.tri) else DefaultTriIn(defs, st, d);
    (st1, PromoteFor(s, if shown then Max(Min(t, vis), rev) else t))
  }

  /** The tristate branch, with sym->visible and rev_dep.tri as just calculated. */
  function TriIn(defs: Defs, st: State, s: Symbol, d: Def, vis: Tristate, rev: Tristate): (r: (State, Tristate))
    ensures Kept(st, r.0)
    ensures TypeOf(s) == SBoolean ==> r.1 != Mod
    decreases Left(defs, st), 6
  {
    if d.role.Member? && vis == Yes then (st, BoolT(PickAt(st, d.role.choice) == Some(s)))
    else
      var (st1, inv) := EvalIn(defs, st, RevExpr(d.revDepInv));
      if inv == Yes then (st1, No) else OpenIn(defs, st1, s, d, vis, rev)
  }

  function DefaultStrIn(defs: Defs, st: State, d: Def): (r: (State, string))
    ensures Kept(st, r.0)
    decreases Left(defs, st), 4
  {
    var (st1, e) := DefaultIn(defs, st, d.defaults);
    if e.None? || !e.value.Sym? then (st1, "")
    else
      var st2 := CalcIn(defs, st1, e.value.s);
      (st2, Known(st2, e.value.s).str)
  }

  /** The string branch. */
  function StrIn(defs: Defs, st: State, d: Def, vis: Tristate): (r: (State, string))
    ensures Kept(st, r.0)
    decreases Left(defs, st), 5
  {
    if vis != No && d.user.Some? then (st, d.user.value.str) else DefaultStrIn(defs, st, d)
  }

  /** Whether a member may be picked. */
  function CandIn(defs: Defs, st: State, c: Cand): (r: (State, bool))
    ensures Kept(st, r.0)
    decreases Left(defs, st), 5
  {
    var (st1, t) := EvalIn(defs, st, c.cond);
    if t == No then (st1, false)
    else
      var v := VisibleIn(defs, st1, c.member);
      (v.st, v.vis != No)
  }

  /** sym_calc_choice */
  function PickIn(defs: Defs, st: State, cs: seq<Cand>): (r: (State, Option<Symbol>))
    ensures Kept(st, r.0)
    decreases Left(defs, st), 6, |cs|
  {
    if cs == [] then (st, None)
    else
      var (st1, yes) := CandIn(defs, st, cs[0]);
      if yes then (st1, Some(cs[0].member)) else PickIn(defs, st1, cs[1..])
  }

  /** Behind the store of a tristate value: a choice that is y picks its member. */
  function PickedIn(defs: Defs, st: State, s: Symbol, d: Def, t: Tristate): (r: State)
    ensures KeptBut(st, r, s)
    ensures s in st.valid && s.Var? && IsTri(s) && RightValue(s, Known(st, s)) ==> RightValue(s, Known(r, s))
    decreases Left(defs, st), 7
  {
    if d.role.Choice? && t == Yes then
      var (st1, m) := PickIn(defs, st, Cands(d.role, d.defaults));
      var st2 := if m.None? then Store(st1, s, TriValue(No)) else st1;
      StoreKeeps(st, st1, s, TriValue(No));
      PickKeeps(st, st2, s, m, s);
      assert Known(StorePick(st2, s, m), s) == Known(st2, s);
      StorePick(st2, s, m)
    else st
  }

  /** The choice in which the symbol was found fully visible, if it was. */
  datatype Val = Val(st: State, t: Tristate, full: Option<Symbol>)

  /** The value of a symbol just marked valid, before it is stored. */
  function ValueIn(defs: Defs, st: State, s: Symbol): (r: Val)
    requires IsTri(s)
    ensures KeptBut(st, r.st, s) && (s in st.valid ==> PickAt(r.st, s) == None)
    ensures s.Var? ==> RightValue(s, TriValue(r.t))
    decreases Left(defs, st), 7
  {
    var d := DefOf(defs, s);
    var v := VisibleIn(defs, st, s);
    var st1 := Clear(v.st, s);
    StoreKeeps(st, v.st, s, TriValue(No));
    var (st2, t) := TriIn(defs, st1, s, d, v.vis, v.rev);
    ButTrans(st, st1, st2, s);
    assert PickAt(st1, s) == None;
    Val(st2, t, if d.role.Member? && v.vis == Yes then Some(d.role.choice) else None)
  }

  /** `sym->curr = newval` */
  function Valued(v: Val, s: Symbol): State {
    var st := Store(v.st, s, TriValue(v.t));
    if v.full.Some? then Fill(st, s, v.full.value) else st
  }

  lemma ValuedKeeps(a: State, v: Val, s: Symbol)
    requires KeptBut(a, v.st, s)
    ensures KeptBut(a, Valued(v, s), s) && Valued(v, s).valid == v.st.valid
    ensures s.Var? && RightValue(s, TriValue(v.t)) ==> RightValue(s, Known(Valued(v, s), s))
  {
    StoreKeeps(a, v.st, s, TriValue(v.t));
    if v.full.Some? { PickKeeps(a, Store(v.st, s, TriValue(v.t)), s, None, v.full.value); }
  }

  /** The tristate branch of a symbol just marked valid. */
  function TriBodyIn(defs: Defs, st: State, s: Symbol): (r: State)
    requires IsTri(s)
    ensures KeptBut(st, r, s) && (s in st.valid && s.Var? ==> RightValue(s, Known(r, s)))
    decreases Left(defs, st), 8
  {
    var v := ValueIn(defs, st, s);
    ValuedKeeps(st, v, s);
    ButTrans(st, Valued(v, s), PickedIn(defs, Valued(v, s), s, DefOf(defs, s), v.t), s);
    PickedIn(defs, Valued(v, s), s, DefOf(defs, s), v.t)
  }

  /** The string branch. */
  function StrBodyIn(defs: Defs, st: State, s: Symbol): (r: State)
    requires !IsTri(s)
    ensures KeptBut(st, r, s) && (s.Var? ==> RightValue(s, Known(r, s)))
    decreases Left(defs, st), 8
  {
    var v := VisibleIn(defs, st, s);
    var st1 := Clear(v.st, s);
    StoreKeeps(st, v.st, s, Value(No, ""));
    var (st2, x) := StrIn(defs, st1, DefOf(defs, s), v.vis);
    ButTrans(st, st1, st2, s);
    StoreKeeps(st, st2, s, Value(No, x));
    Store(st2, s, Value(No, x))
  }

  /** A symbol just marked valid. */
  function BodyIn(defs: Defs, st: State, s: Symbol): (r: State)
    ensures KeptBut(st, r, s) && (s in st.valid && s.Var? ==> RightValue(s, Known(r, s)))
    decreases Left(defs, st), 9
  {
    StoreKeeps(st, st, s, Value(No, DefOf(defs, s).name));
    if IsTri(s) then TriBodyIn(defs, st, s)
    else if TypeOf(s) == SString || TypeOf(s) == SInt || TypeOf(s) == SHex then StrBodyIn(defs, st, s)
    else ClearTo(st, s, Value(No, DefOf(defs, s).name))
  }

  /** sym_calc_value */
  function CalcIn(defs: Defs, st: State, s: Symbol): (r: State)
    ensures Kept(st, r)
    ensures s.Var? && s in defs ==> s in r.valid
    decreases Left(defs, st), 1
  {
    if IsNew(defs, st, s) then BodyIn(defs, Mark(st, s), s) else st
  }

  /** Calls one after the other. */
  function CalcAllIn(defs: Defs, st: State, order: seq<Symbol>): (r: State)
    ensures Kept(st, r)
  {
    if order == [] then st else CalcIn(defs, CalcAllIn(defs, st, order[..|order| - 1]), order[|order| - 1])
  }

  // ----- every run, whatever is declared -----

  /** No run leaves a value that does not fit its type: a calculated bool is never m. */
  lemma RunRespects(defs: Defs, st: State, order: seq<Symbol>, s: Symbol)
    requires s in CalcAllIn(defs, st, order).valid && s !in st.valid
    ensures RightValue(s, Known(CalcAllIn(defs, st, order), s))
  {
  }

  /** A symbol with a value of its own: no choice, and no fully visible member. */
  predicate OwnValue(d: Def, vis: Tristate) {
    !d.role.Choice? && !(d.role.Member? && vis == Yes)
  }

  /** The symbol is found deselected when its value is chosen. */
  predicate FoundDeselected(defs: Defs, st: State, s: Symbol)
    requires s in defs
  {
    EvalIn(defs, Clear(VisibleIn(defs, st, s).st, s), RevExpr(defs[s].revDepInv)).1 == Yes
  }

  /**
   Every calculation, nested ones included: a visible or selected symbol lies between its reverse dependency and the
   larger of this and its visibility, unless it is found deselected when its value is chosen.
   */
  lemma CallBounds(defs: Defs, st: State, s: Symbol)
    requires IsNew(defs, st, s) && IsTri(s) && OwnValue(defs[s], VisibleIn(defs, Mark(st, s), s).vis)
    ensures var v := VisibleIn(defs, Mark(st, s), s);
            var t := Known(CalcIn(defs, st, s), s).tri;
            if FoundDeselected(defs, Mark(st, s), s) then t == No
            else Max(v.vis, v.rev) != No ==> AtMost(v.rev, t) && AtMost(t, Max(v.vis, v.rev))
  {
    var v := VisibleIn(defs, Mark(st, s), s);
    OtherCall(defs, st, s);
    var st2 := EvalIn(defs, Clear(v.st, s), RevExpr(defs[s].revDepInv)).0;
    OpenBounds(defs, st2, s, defs[s], v.vis, v.rev);
  }

  lemma OtherCall(defs: Defs, st: State, s: Symbol)
    requires IsNew(defs, st, s) && IsTri(s) && !defs[s].role.Choice?
    ensures var v := VisibleIn(defs, Mark(st, s), s);
            Known(CalcIn(defs, st, s), s).tri == TriIn(defs, Clear(v.st, s), s, defs[s], v.vis, v.rev).1
  {
    var x := ValueIn(defs, Mark(st, s), s);
    assert CalcIn(defs, st, s) == TriBodyIn(defs, Mark(st, s), s);
    assert PickedIn(defs, Valued(x, s), s, defs[s], x.t) == Valued(x, s);
  }

  /** The choice is y up to its pick, and finds nobody. */
  predicate FindsNobody(defs: Defs, st: State, s: Symbol)
    requires s in defs && IsTri(s) && defs[s].role.Choice?
  {
    var x := ValueIn(defs, st, s);
    x.t == Yes && PickIn(defs, Valued(x, s), Cands(defs[s].role, defs[s].defaults)).1.None?
  }

  /** For a choice the lower bound fails exactly if it finds nobody to pick, where something selects it. */
  lemma ChoiceCallBounds(defs: Defs, st: State, s: Symbol)
    requires IsNew(defs, st, s) && IsTri(s) && defs[s].role.Choice?
    ensures var v := VisibleIn(defs, Mark(st, s), s);
            var t := Known(CalcIn(defs, st, s), s).tri;
            if FoundDeselected(defs, Mark(st, s), s) then t == No
            else Max(v.vis, v.rev) != No ==>
              && AtMost(t, Max(v.vis, v.rev))
              && (AtMost(v.rev, t) <==> !(FindsNobody(defs, Mark(st, s), s) && v.rev != No))
  {
    var v := VisibleIn(defs, Mark(st, s), s);
    ChoiceCall(defs, st, s);
    var st2 := EvalIn(defs, Clear(v.st, s), RevExpr(defs[s].revDepInv)).0;
    OpenBounds(defs, st2, s, defs[s], v.vis, v.rev);
  }

  lemma ChoiceCall(defs: Defs, st: State, s: Symbol)
    requires IsNew(defs, st, s) && IsTri(s) && defs[s].role.Choice?
    ensures var v := VisibleIn(defs, Mark(st, s), s);
            var t := TriIn(defs, Clear(v.st, s), s, defs[s], v.vis, v.rev).1;
            && t == ValueIn(defs, Mark(st, s), s).t
            && Known(CalcIn(defs, st, s), s).tri == if FindsNobody(defs, Mark(st, s), s) then No else t
  {
    var x := ValueIn(defs, Mark(st, s), s);
    assert CalcIn(defs, st, s) == TriBodyIn(defs, Mark(st, s), s);
    PickedValue(defs, Valued(x, s), s, defs[s], x.t);
  }

  lemma PickedValue(defs: Defs, st: State, s: Symbol, d: Def, t: Tristate)
    requires s.Var? && s in st.valid && Known(st, s) == TriValue(t) && d.role.Choice?
    ensures Known(PickedIn(defs, st, s, d, t), s).tri ==
            if t == Yes && PickIn(defs, st, Cands(d.role, d.defaults)).1.None? then No else t
  {
    var st1 := PickIn(defs, st, Cands(d.role, d.defaults)).0;
    assert Known(st1, s) == Known(st, s);
  }

  lemma OpenBounds(defs: Defs, st: State, s: Symbol, d: Def, vis: Tristate, rev: Tristate)
    requires TypeOf(s) == SBoolean ==> vis != Mod && rev != Mod
    ensures var t := OpenIn(defs, st, s, d, vis, rev).1;
            Max(vis, rev) != No ==> AtMost(rev, t) && AtMost(t, Max(vis, rev))
  {
  }
}
