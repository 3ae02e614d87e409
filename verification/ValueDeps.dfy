/**
 What the calculation of a symbol reads (scripts/config/symbol.c:196-380), and what follows where the reads have no
 cycle: there is one solution.
 */
module ValueDeps {
  import opened Options
  import opened Expressions
  import opened Normalise
  import opened Graphs
  import opened SymbolValues

  // ----- reads -----

  /** sym_calc_visibility */
  function VisReads(d: Def): set<Symbol> {
    Mentions(PromptExpr(d.prompts)) + Mentions(RevExpr(d.revDepInv))
    + if d.role.Member? then {} else Mentions(RevExpr(d.revDep))
  }

  function DefaultReads(ds: seq<Default>): set<Symbol> {
    if ds == [] then {} else Mentions(CondExpr(ds[0].cond)) + Mentions(ds[0].expr) + DefaultReads(ds[1..])
  }

  function CandReads(defs: Defs, cs: seq<Cand>): set<Symbol> {
    if cs == [] then {}
    else Mentions(cs[0].cond) + VisReads(DefOf(defs, cs[0].member)) + CandReads(defs, cs[1..])
  }

  /** What a choice reads while it picks, besides itself. */
  function PickReads(defs: Defs, s: Symbol, d: Def): set<Symbol> {
    if d.role.Choice? then CandReads(defs, Cands(d.role, d.defaults)) - {s} else {}
  }

  /** Everything the calculation of a symbol may read; a member reads the pick of its choice. */
  function Reads(defs: Defs, s: Symbol): set<Symbol> {
    var d := DefOf(defs, s);
    VisReads(d) + (if d.role.Choice? then {} else DefaultReads(d.defaults))
    + (if d.role.Member? then {d.role.choice} else {}) + PickReads(defs, s, d)
  }

  function Vars(xs: set<Symbol>): set<Symbol> {
    set x | x in xs && x.Var?
  }

  /** The reads as a graph. */
  function CalcGraph(defs: Defs): Graph {
    map s | s in defs :: Vars(Reads(defs, s))
  }

  /** Whatever is read is declared. */
  ghost predicate Closed(defs: Defs) {
    forall s, x :: s in defs && x in Vars(Reads(defs, s)) ==> x in defs
  }

  /** Ranks that go down along every read: there are no recursive dependencies. */
  ghost predicate Ranked(defs: Defs, rank: Symbol -> nat) {
    forall s, x {:trigger x in Vars(Reads(defs, s))} ::
      s in defs && x in Vars(Reads(defs, s)) ==> x in defs && rank(x) < rank(s)
  }

  /** Ranks exist if and only if the reads have no cycle. */
  lemma RankedIffAcyclic(defs: Defs)
    requires Closed(defs)
    ensures (exists rank: Symbol -> nat :: Ranked(defs, rank)) <==> Acyclic(CalcGraph(defs))
  {
    var g := CalcGraph(defs);
    RanksIffAcyclic(g);
    if rank: Symbol -> nat :| Ranked(defs, rank) { assert Decreasing(g, rank); }
    if rank: Symbol -> nat :| Decreasing(g, rank) { assert Ranked(defs, rank); }
  }

  // ----- the calculation depends on what it reads only -----

  ghost predicate Agree(v: Valuation, w: Valuation, xs: set<Symbol>) {
    forall x :: x in xs ==> v(x) == w(x)
  }

  lemma {:induction false} EvalAgrees(e: Expr, v: Valuation, w: Valuation)
    requires Agree(v, w, Mentions(e))
    ensures Eval(e, v) == Eval(e, w)
  {
    match e
    case Not(x) => EvalAgrees(x, v, w);
    case Bin(_, l, r) =>
      EvalAgrees(l, v, w);
      EvalAgrees(r, v, w);
    case _ =>
  }

  lemma VisibleAgrees(s: Symbol, d: Def, v: Valuation, w: Valuation)
    requires Agree(v, w, VisReads(d))
    ensures Visible(s, d, v) == Visible(s, d, w) && Selected(s, d, v) == Selected(s, d, w)
    ensures Deselected(d, v) == Deselected(d, w)
  {
    EvalAgrees(PromptExpr(d.prompts), v, w);
    EvalAgrees(RevExpr(d.revDepInv), v, w);
    if !d.role.Member? { EvalAgrees(RevExpr(d.revDep), v, w); }
  }

  lemma {:induction false} DefaultsAgree(ds: seq<Default>, v: Valuation, w: Valuation)
    requires Agree(v, w, DefaultReads(ds))
    ensures FirstDefault(ds, v) == FirstDefault(ds, w)
    ensures FirstDefault(ds, v).Some? ==> Eval(FirstDefault(ds, v).value, v) == Eval(FirstDefault(ds, v).value, w)
    ensures FirstDefault(ds, v).Some? ==> Mentions(FirstDefault(ds, v).value) <= DefaultReads(ds)
  {
    if ds != [] {
      EvalAgrees(CondExpr(ds[0].cond), v, w);
      EvalAgrees(ds[0].expr, v, w);
      DefaultsAgree(ds[1..], v, w);
    }
  }

  lemma {:induction false} CandsAgree(defs: Defs, cs: seq<Cand>, v: Valuation, w: Valuation)
    requires Agree(v, w, CandReads(defs, cs))
    ensures FirstCand(defs, cs, v) == FirstCand(defs, cs, w)
  {
    if cs != [] {
      EvalAgrees(cs[0].cond, v, w);
      VisibleAgrees(cs[0].member, DefOf(defs, cs[0].member), v, w);
      CandsAgree(defs, cs[1..], v, w);
    }
  }

  lemma TriAgrees(s: Symbol, d: Def, v: World, w: World)
    requires Agree(v.v, w.v, VisReads(d)) && (!d.role.Choice? ==> Agree(v.v, w.v, DefaultReads(d.defaults)))
    requires d.role.Member? ==> v.pick(d.role.choice) == w.pick(d.role.choice)
    ensures CalcTri(s, d, v) == CalcTri(s, d, w)
    ensures !d.role.Choice? ==> CalcStr(s, d, v.v) == CalcStr(s, d, w.v)
  {
    VisibleAgrees(s, d, v.v, w.v);
    if !d.role.Choice? { DefaultsAgree(d.defaults, v.v, w.v); }
  }

  lemma CalcAgrees(defs: Defs, s: Symbol, v: World, w: World)
    requires Agree(v.v, w.v, Reads(defs, s))
    requires DefOf(defs, s).role.Member? ==> v.pick(DefOf(defs, s).role.choice) == w.pick(DefOf(defs, s).role.choice)
    requires DefOf(defs, s).role.Choice? ==> IsTri(s)
    ensures Calc(defs, s, v) == Calc(defs, s, w) && PickOf(defs, s, v) == PickOf(defs, s, w)
  {
    var d := DefOf(defs, s);
    TriAgrees(s, d, v, w);
    if d.role.Choice? {
      CandsAgree(defs, Cands(d.role, d.defaults), Held(v.v, s), Held(w.v, s));
    }
  }

  /** Choices are bool or tristate. */
  ghost predicate Typed(defs: Defs) {
    forall s :: s in defs ==>
      s.Var? && (defs[s].role.Choice? ==> IsTri(s)) && (defs[s].role.Member? ==> defs[s].role.choice.Var?)
  }

  ghost predicate SameAt(v: World, w: World, x: Symbol) {
    v.v(x) == w.v(x) && (x.Var? ==> v.pick(x) == w.pick(x))
  }

  lemma SameIfReadsSame(defs: Defs, s: Symbol, v: World, w: World)
    requires Typed(defs) && s in defs
    requires forall x {:trigger SameAt(v, w, x)} :: x in Reads(defs, s) ==> SameAt(v, w, x)
    ensures Calc(defs, s, v) == Calc(defs, s, w) && PickOf(defs, s, v) == PickOf(defs, s, w)
  {
    var xs := Reads(defs, s);
    assert Agree(v.v, w.v, xs) by { forall x | x in xs ensures v.v(x) == w.v(x) { assert SameAt(v, w, x); } }
    if defs[s].role.Member? {
      assert defs[s].role.choice in xs;
      assert SameAt(v, w, defs[s].role.choice);
    }
    CalcAgrees(defs, s, v, w);
  }

  lemma ConstSame(v: World, w: World, x: Symbol)
    requires Respects(v.v) && Respects(w.v) && !x.Var?
    ensures SameAt(v, w, x)
  {
    assert RightValue(x, v.v(x)) && RightValue(x, w.v(x));
  }

  /** Without recursive dependencies the declarations have one solution, picks included. */
  lemma {:induction false} OneSolution(defs: Defs, rank: Symbol -> nat, v: World, w: World, s: Symbol)
    requires Typed(defs) && Ranked(defs, rank) && Solution(defs, v) && Solution(defs, w) && s in defs
    ensures SameAt(v, w, s)
    decreases rank(s)
  {
    var xs := Reads(defs, s);
    forall x | x in xs ensures SameAt(v, w, x) {
      if x.Var? {
        assert x in Vars(xs);
        OneSolution(defs, rank, v, w, x);
      } else {
        ConstSame(v, w, x);
      }
    }
    SameIfReadsSame(defs, s, v, w);
  }

  lemma RankedPair(defs: Defs, c: Symbol, a: Symbol)
    requires defs.Keys == {c, a} && c != a && Vars(Reads(defs, c)) == {} && Vars(Reads(defs, a)) == {c}
    ensures Ranked(defs, s => if s == c then 0 else 1)
  {
    forall s, x | s in defs && x in Vars(Reads(defs, s)) ensures s == a && x == c {}
  }

  ghost predicate Downward(defs: Defs, rank: Symbol -> nat, s: Symbol) {
    forall x :: x in Vars(Reads(defs, s)) ==> x in defs && rank(x) < rank(s)
  }

  lemma RankedBy(defs: Defs, rank: Symbol -> nat)
    requires forall s {:trigger Downward(defs, rank, s)} :: s in defs ==> Downward(defs, rank, s)
    ensures Ranked(defs, rank)
  {
    forall s, x | s in defs && x in Vars(Reads(defs, s)) ensures x in defs && rank(x) < rank(s) {
      assert Downward(defs, rank, s);
    }
  }
}
