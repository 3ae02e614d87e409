/**
 What sym_calc_value gives a symbol (scripts/config/symbol.c:114-133, 196-380), choices and their members
 included, and what sym_set_tristate_value accepts (414-470).
 */
module SymbolValues {
  import opened Options
  import opened Expressions
  import opened Normalise
  import opened Graphs

  datatype Default = Default(cond: Option<Expr>, expr: Expr)

  /** SYMBOL_CHOICE with its members and the member the user chose (user.val); SYMBOL_CHOICEVAL with its choice. */
  datatype Role = Plain | Choice(members: seq<Symbol>, chosen: Option<Symbol>) | Member(choice: Symbol)

  /** A declared symbol: prompts, reverse dependencies, defaults and the user's value (unless SYMBOL_NEW). */
  datatype Def = Def(name: string, role: Role, prompts: seq<Option<Expr>>, revDep: Option<Expr>,
                     revDepInv: Option<Expr>, defaults: seq<Default>, user: Option<Value>)

  type Defs = map<Symbol, Def>

  const Undeclared := Def("", Plain, [], None, None, [], None)

  function DefOf(defs: Defs, s: Symbol): Def {
    if s in defs then defs[s] else Undeclared
  }

  /** The values of all symbols, and curr.val of the choices as a member. */
  datatype World = World(v: Valuation, pick: Symbol -> Option<Symbol>)

  function Max(a: Tristate, b: Tristate): Tristate { Apply(OrOp, a, b) }
  function Min(a: Tristate, b: Tristate): Tristate { Apply(AndOp, a, b) }

  /** `if (tri == mod && type is boolean) tri = yes` */
  function PromoteFor(s: Symbol, t: Tristate): Tristate {
    if TypeOf(s) == SBoolean then Promote(t) else t
  }

  // ----- visibility -----

  /** A condition; NULL is y. */
  function CondExpr(e: Option<Expr>): Expr {
    if e.Some? then e.value else Sym(SymY)
  }

  /** A reverse dependency; NULL counts as n. */
  function RevExpr(e: Option<Expr>): Expr {
    if e.Some? then e.value else Sym(SymN)
  }

  /** The loop over the prompts, as one expression. */
  function PromptExpr(ps: seq<Option<Expr>>): Expr {
    if ps == [] then Sym(SymN) else Bin(OrOp, CondExpr(ps[0]), PromptExpr(ps[1..]))
  }

  /** rev_dep_inv is y */
  predicate Deselected(d: Def, v: Valuation) {
    Eval(RevExpr(d.revDepInv), v) == Yes
  }

  /** sym_calc_visibility: sym->visible */
  function Visible(s: Symbol, d: Def, v: Valuation): Tristate {
    var t := Eval(PromptExpr(d.prompts), v);
    if Deselected(d, v) then No else if TypeOf(s) != STristate then Promote(t) else t
  }

  /** sym_calc_visibility: sym->rev_dep.tri, which is left alone for members and deselected symbols */
  function Selected(s: Symbol, d: Def, v: Valuation): Tristate {
    if d.role.Member? then No else PromoteFor(s, Eval(RevExpr(d.revDep), v))
  }

  // ----- values -----

  /** sym_get_default_prop */
  function FirstDefault(ds: seq<Default>, v: Valuation): Option<Expr> {
    if ds == [] then None
    else if Eval(CondExpr(ds[0].cond), v) != No then Some(ds[0].expr)
    else FirstDefault(ds[1..], v)
  }

  /** The default of a symbol; a choice does not look at its defaults for its own value. */
  function DefaultTri(d: Def, v: Valuation): Tristate {
    var e := if d.role.Choice? then None else FirstDefault(d.defaults, v);
    if e.None? then No else Eval(e.value, v)
  }

  /** prop_get_symbol and the value of that symbol */
  function DefaultStr(d: Def, v: Valuation): string {
    var e := FirstDefault(d.defaults, v);
    if e.Some? && e.value.Sym? then v(e.value.s).str else ""
  }

  /** The tristate branch, before a choice picks its member. */
  function CalcTri(s: Symbol, d: Def, w: World): Tristate {
    var vis, rev := Visible(s, d, w.v), Selected(s, d, w.v);
    if d.role.Member? && vis == Yes then BoolT(w.pick(d.role.choice) == Some(s))
    else if Deselected(d, w.v) then No
    else if Max(vis, rev) != No then
      PromoteFor(s, Max(Min(if d.user.Some? then d.user.value.tri else DefaultTri(d, w.v), vis), rev))
    else
      PromoteFor(s, DefaultTri(d, w.v))
  }

  function CalcStr(s: Symbol, d: Def, v: Valuation): string {
    if Visible(s, d, v) != No && d.user.Some? then d.user.value.str else DefaultStr(d, v)
  }

  // ----- the pick of a choice -----

  /** A member that sym_calc_choice may pick, under a condition. */
  datatype Cand = Cand(cond: Expr, member: Symbol)

  function DefaultCands(ds: seq<Default>): seq<Cand> {
    if ds == [] then []
    else (if ds[0].expr.Sym? then [Cand(CondExpr(ds[0].cond), ds[0].expr.s)] else []) + DefaultCands(ds[1..])
  }

  function MemberCands(ms: seq<Symbol>): seq<Cand> {
    if ms == [] then [] else [Cand(Sym(SymY), ms[0])] + MemberCands(ms[1..])
  }

  /** The user's member, then the defaults, then all members. */
  function Cands(r: Role, ds: seq<Default>): seq<Cand>
    requires r.Choice?
  {
    (if r.chosen.Some? then [Cand(Sym(SymY), r.chosen.value)] else []) + (DefaultCands(ds) + MemberCands(r.members))
  }

  predicate Takes(defs: Defs, c: Cand, v: Valuation) {
    Eval(c.cond, v) != No && Visible(c.member, DefOf(defs, c.member), v) != No
  }

  function FirstCand(defs: Defs, cs: seq<Cand>, v: Valuation): Option<Symbol> {
    if cs == [] then None else if Takes(defs, cs[0], v) then Some(cs[0].member) else FirstCand(defs, cs[1..], v)
  }

  /** The values while s is y. */
  function Held(v: Valuation, s: Symbol): Valuation {
    x => if x == s then Value(Yes, "y") else v(x)
  }

  /** The member a choice picks: curr.tri is y already while sym_calc_choice looks at the members. */
  function Chosen(defs: Defs, s: Symbol, d: Def, v: Valuation): Option<Symbol> {
    if d.role.Choice? then FirstCand(defs, Cands(d.role, d.defaults), Held(v, s)) else None
  }

  function TriValue(t: Tristate): Value {
    Value(t, TriStr(t))
  }

  predicate IsTri(s: Symbol) {
    TypeOf(s) == SBoolean || TypeOf(s) == STristate
  }

  /** The pick of s, if it is a choice that is y. */
  function PickOf(defs: Defs, s: Symbol, w: World): Option<Symbol> {
    var d := DefOf(defs, s);
    if IsTri(s) && d.role.Choice? && CalcTri(s, d, w) == Yes then Chosen(defs, s, d, w.v) else None
  }

  /** The value of s, calculated from the others; a choice that is y but finds no visible member falls back to n. */
  function Calc(defs: Defs, s: Symbol, w: World): Value {
    var d := DefOf(defs, s);
    if IsTri(s) then
      var t := CalcTri(s, d, w);
      TriValue(if d.role.Choice? && t == Yes && PickOf(defs, s, w).None? then No else t)
    else if TypeOf(s) == SString || TypeOf(s) == SInt || TypeOf(s) == SHex then Value(No, CalcStr(s, d, w.v))
    else Value(No, d.name)
  }

  /** Every declared symbol has the value and the pick calculated from all the others. */
  ghost predicate Solution(defs: Defs, w: World) {
    Respects(w.v) && forall s :: s in defs ==> w.v(s) == Calc(defs, s, w) && w.pick(s) == PickOf(defs, s, w)
  }

  // ----- what a calculated value keeps -----

  lemma {:induction false} CalcRespects(defs: Defs, s: Symbol, w: World)
    requires s.Var?
    ensures RightValue(s, Calc(defs, s, w))
  {
  }

  /** A visible or selected symbol that is neither member nor deselected lies between its bounds. */
  lemma CalcBounds(s: Symbol, d: Def, w: World)
    requires IsTri(s) && !d.role.Member?
    requires !Deselected(d, w.v) && Max(Visible(s, d, w.v), Selected(s, d, w.v)) != No
    ensures AtMost(Selected(s, d, w.v), CalcTri(s, d, w))
    ensures AtMost(CalcTri(s, d, w), Max(Visible(s, d, w.v), Selected(s, d, w.v)))
  {
  }

  /**
   The final value of a choice stays below the same bound, and above its reverse dependency unless it has nobody to
   pick and falls to n.
   */
  lemma ChoiceBounds(defs: Defs, s: Symbol, w: World)
    requires s in defs && IsTri(s) && defs[s].role.Choice? && !Deselected(defs[s], w.v)
    requires Max(Visible(s, defs[s], w.v), Selected(s, defs[s], w.v)) != No
    ensures var (vis, rev, t) := (Visible(s, defs[s], w.v), Selected(s, defs[s], w.v), Calc(defs, s, w).tri);
            && AtMost(t, Max(vis, rev))
            && (AtMost(rev, t) <==>
                 !(CalcTri(s, defs[s], w) == Yes && Chosen(defs, s, defs[s], w.v).None? && rev != No))
  {
    CalcBounds(s, defs[s], w);
  }

  /** The visibility is that of the most visible prompt. */
  lemma {:induction false} AnyPromptIsMax(ps: seq<Option<Expr>>, v: Valuation)
    requires Respects(v)
    ensures forall k :: 0 <= k < |ps| ==> AtMost(EvalOpt(ps[k], v), Eval(PromptExpr(ps), v))
    ensures Eval(PromptExpr(ps), v) == No || exists k :: 0 <= k < |ps| && EvalOpt(ps[k], v) == Eval(PromptExpr(ps), v)
  {
    assert RightValue(SymY, v(SymY)) && RightValue(SymN, v(SymN));
    if ps != [] {
      AnyPromptIsMax(ps[1..], v);
      assert EvalOpt(ps[0], v) == Eval(CondExpr(ps[0]), v);
      var t := Eval(PromptExpr(ps), v);
      forall k | 0 <= k < |ps| ensures AtMost(EvalOpt(ps[k], v), t) {
        if k > 0 { assert ps[k] == ps[1..][k - 1]; }
      }
      if t != EvalOpt(ps[0], v) && t != No {
        var k :| 0 <= k < |ps[1..]| && EvalOpt(ps[1..][k], v) == Eval(PromptExpr(ps[1..]), v);
        assert ps[k + 1] == ps[1..][k];
      }
    }
  }

  /** The default taken is the first whose condition is not n. */
  lemma {:induction false} DefaultIsFirst(ds: seq<Default>, v: Valuation, k: nat)
    requires Respects(v)
    requires k < |ds| && EvalOpt(ds[k].cond, v) != No
    requires forall i :: 0 <= i < k ==> EvalOpt(ds[i].cond, v) == No
    ensures FirstDefault(ds, v) == Some(ds[k].expr)
  {
    assert RightValue(SymY, v(SymY));
    assert EvalOpt(ds[0].cond, v) == Eval(CondExpr(ds[0].cond), v);
    if k > 0 {
      assert forall i :: 0 <= i < k - 1 ==> ds[1..][i] == ds[i + 1];
      DefaultIsFirst(ds[1..], v, k - 1);
    }
  }

  /** A symbol that is neither visible nor selected does not look at the user's value. */
  lemma HiddenIgnoresUser(s: Symbol, d: Def, user: Option<Value>, w: World)
    requires Visible(s, d, w.v) == No && Selected(s, d, w.v) == No
    ensures CalcTri(s, d.(user := user), w) == CalcTri(s, d, w)
  {
    var d' := d.(user := user);
    assert Visible(s, d', w.v) == No && Selected(s, d', w.v) == No && DefaultTri(d', w.v) == DefaultTri(d, w.v);
  }
}
