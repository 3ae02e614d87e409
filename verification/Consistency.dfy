/**
 What the search for recursive dependencies guarantees to the value calculator, and what it does not:
 sym_check_deps (scripts/config/symbol.c:771-840) follows neither rev_dep_inv (read at 210) nor the pick of a
 choice (read at 231-268 and 313), since it skips P_CHOICE (819).
 */
module Consistency {
  import opened Options
  import opened Expressions
  import opened Graphs
  import opened DependencyCheck
  import opened SymbolValues
  import opened ValueDeps
  import opened ValueMemo
  import opened ChoiceExamples

  // ----- the declarations as the search sees them -----

  function PromptProps(ps: seq<Option<Expr>>): seq<Prop> {
    if ps == [] then [] else [Prop(PropKind.Prompt, ps[0], None)] + PromptProps(ps[1..])
  }

  function DefaultProps(ds: seq<SymbolValues.Default>): seq<Prop> {
    if ds == [] then [] else [Prop(PropKind.Default, ds[0].cond, Some(ds[0].expr))] + DefaultProps(ds[1..])
  }

  function InfoOf(d: Def): SymInfo {
    SymInfo(d.revDep, d.role.Choice?, PromptProps(d.prompts) + DefaultProps(d.defaults))
  }

  function TableOf(defs: Defs): Table {
    map s | s in defs :: InfoOf(defs[s])
  }

  /** What is read but not followed. */
  function Missed(defs: Defs, s: Symbol): set<Symbol> {
    var d := DefOf(defs, s);
    Mentions(RevExpr(d.revDepInv)) + (if d.role.Member? then {d.role.choice} else {}) + PickReads(defs, s, d)
  }

  function FollowedVars(defs: Defs, s: Symbol): set<Symbol> {
    Vars(Uses(TableOf(defs), s))
  }

  // ----- followed and read -----

  lemma {:induction false} MentionsConcat(a: seq<Expr>, b: seq<Expr>)
    ensures MentionsAll(a + b) == MentionsAll(a) + MentionsAll(b)
  {
    if a == [] {
      assert a + b == b;
    } else {
      MentionsConcat(a[1..], b);
      assert (a + b)[1..] == a[1..] + b;
    }
  }

  lemma {:induction false} PropsConcat(choice: bool, a: seq<Prop>, b: seq<Prop>)
    ensures PropsExprs(choice, a + b) == PropsExprs(choice, a) + PropsExprs(choice, b)
  {
    if a == [] {
      assert a + b == b;
    } else {
      PropsConcat(choice, a[1..], b);
      assert (a + b)[1..] == a[1..] + b;
      Regroup(PropExprs(choice, a[0]), PropsExprs(choice, a[1..]), PropsExprs(choice, b));
    }
  }

  lemma Regroup(x: seq<Expr>, y: seq<Expr>, z: seq<Expr>)
    ensures x + (y + z) == x + y + z
  {
  }

  lemma OptVars(e: Option<Expr>)
    ensures Vars(MentionsAll(OptSeq(e))) == Vars(Mentions(CondExpr(e))) == Vars(Mentions(RevExpr(e)))
  {
    if e.Some? { assert MentionsAll([e.value]) == Mentions(e.value) + MentionsAll([]); }
  }

  lemma VarsUnion(a: set<Symbol>, b: set<Symbol>)
    ensures Vars(a + b) == Vars(a) + Vars(b)
  {
  }

  lemma ExprsCons(choice: bool, p: Prop, ps: seq<Prop>)
    ensures Vars(MentionsAll(PropsExprs(choice, [p] + ps)))
         == Vars(MentionsAll(PropExprs(choice, p))) + Vars(MentionsAll(PropsExprs(choice, ps)))
  {
    assert ([p] + ps)[1..] == ps;
    MentionsConcat(PropExprs(choice, p), PropsExprs(choice, ps));
    VarsUnion(MentionsAll(PropExprs(choice, p)), MentionsAll(PropsExprs(choice, ps)));
  }

  lemma {:induction false} PromptsFollowed(choice: bool, ps: seq<Option<Expr>>)
    ensures Vars(MentionsAll(PropsExprs(choice, PromptProps(ps)))) == Vars(Mentions(PromptExpr(ps)))
  {
    if ps != [] {
      PromptsFollowed(choice, ps[1..]);
      OptVars(ps[0]);
      ExprsCons(choice, Prop(PropKind.Prompt, ps[0], None), PromptProps(ps[1..]));
      VarsUnion(Mentions(CondExpr(ps[0])), Mentions(PromptExpr(ps[1..])));
    }
  }

  /** The conditions of the defaults of a choice, without the members they name. */
  function CondReads(ds: seq<SymbolValues.Default>): set<Symbol> {
    if ds == [] then {} else Mentions(CondExpr(ds[0].cond)) + CondReads(ds[1..])
  }

  lemma {:induction false} DefaultsFollowed(choice: bool, ds: seq<SymbolValues.Default>)
    ensures Vars(MentionsAll(PropsExprs(choice, DefaultProps(ds))))
         == Vars(if choice then CondReads(ds) else DefaultReads(ds))
  {
    if ds != [] {
      DefaultsFollowed(choice, ds[1..]);
      var p := Prop(PropKind.Default, ds[0].cond, Some(ds[0].expr));
      OptVars(ds[0].cond);
      OptVars(Some(ds[0].expr));
      MentionsConcat(OptSeq(ds[0].cond), OptSeq(Some(ds[0].expr)));
      VarsUnion(MentionsAll(OptSeq(ds[0].cond)), MentionsAll(OptSeq(Some(ds[0].expr))));
      ExprsCons(choice, p, DefaultProps(ds[1..]));
      VarsUnion(Mentions(CondExpr(ds[0].cond)), CondReads(ds[1..]));
      VarsUnion(Mentions(CondExpr(ds[0].cond)) + Mentions(ds[0].expr), DefaultReads(ds[1..]));
      VarsUnion(Mentions(CondExpr(ds[0].cond)), Mentions(ds[0].expr));
    }
  }

  /** The search follows reverse dependencies, prompts and defaults, of a choice only the conditions of these. */
  lemma FollowedAre(defs: Defs, s: Symbol)
    requires s in defs
    ensures FollowedVars(defs, s)
         == Vars(Mentions(RevExpr(defs[s].revDep))) + Vars(Mentions(PromptExpr(defs[s].prompts)))
          + Vars(if defs[s].role.Choice? then CondReads(defs[s].defaults) else DefaultReads(defs[s].defaults))
  {
    var d, choice := defs[s], defs[s].role.Choice?;
    var ps, ds := PromptProps(d.prompts), DefaultProps(d.defaults);
    var rev, ep, ed := MentionsAll(OptSeq(d.revDep)), PropsExprs(choice, ps), PropsExprs(choice, ds);
    FollowedParts(OptSeq(d.revDep), choice, ps, ds);
    VarsUnion(rev, MentionsAll(ep) + MentionsAll(ed));
    VarsUnion(MentionsAll(ep), MentionsAll(ed));
    OptVars(d.revDep);
    PromptsFollowed(choice, d.prompts);
    DefaultsFollowed(choice, d.defaults);
    assert Uses(TableOf(defs), s) == MentionsAll(Followed(InfoOf(d)));
  }

  lemma FollowedParts(rev: seq<Expr>, choice: bool, ps: seq<Prop>, ds: seq<Prop>)
    ensures MentionsAll(rev + PropsExprs(choice, ps + ds))
         == MentionsAll(rev) + (MentionsAll(PropsExprs(choice, ps)) + MentionsAll(PropsExprs(choice, ds)))
  {
    PropsConcat(choice, ps, ds);
    MentionsConcat(PropsExprs(choice, ps), PropsExprs(choice, ds));
    MentionsConcat(rev, PropsExprs(choice, ps + ds));
  }

  /** What the calculation reads is followed or known to be missed; of plain symbols that is all that is followed. */
  lemma FollowedIsRead(defs: Defs, s: Symbol)
    requires s in defs
    ensures Vars(Reads(defs, s)) <= FollowedVars(defs, s) + Vars(Missed(defs, s))
    ensures defs[s].role.Plain? ==> Vars(Reads(defs, s)) == FollowedVars(defs, s) + Vars(Missed(defs, s))
  {
    FollowedAre(defs, s);
    var d := defs[s];
    forall x | x in Vars(Reads(defs, s)) ensures x in FollowedVars(defs, s) + Vars(Missed(defs, s)) {
      assert x in Reads(defs, s);
    }
  }

  // ----- ranks and cycles -----

  /** What is followed and what is missed. */
  function AllGraph(defs: Defs): Graph {
    map s | s in defs :: FollowedVars(defs, s) + Vars(Missed(defs, s))
  }

  /** No member is selected; the defaults of a choice name members, under conditions that do not read the choice. */
  ghost predicate Searchable(defs: Defs) {
    forall s :: s in defs ==>
      && (defs[s].role.Member? ==> defs[s].revDep.None?)
      && (defs[s].role.Choice? ==> s !in CondReads(defs[s].defaults))
      && (defs[s].role.Choice? ==> forall k :: 0 <= k < |defs[s].defaults| ==> defs[s].defaults[k].expr.Sym?)
  }

  lemma {:induction false} CondsAreRead(defs: Defs, ds: seq<SymbolValues.Default>, rest: seq<Cand>)
    requires forall k :: 0 <= k < |ds| ==> ds[k].expr.Sym?
    ensures CondReads(ds) <= CandReads(defs, DefaultCands(ds) + rest)
  {
    if ds != [] {
      CondsAreRead(defs, ds[1..], rest);
      var cs := DefaultCands(ds[1..]) + rest;
      var c := Cand(CondExpr(ds[0].cond), ds[0].expr.s);
      assert DefaultCands(ds) + rest == [c] + cs && ([c] + cs)[1..] == cs;
    }
  }

  lemma ChoiceConds(defs: Defs, d: Def)
    requires d.role.Choice? && forall k :: 0 <= k < |d.defaults| ==> d.defaults[k].expr.Sym?
    ensures CondReads(d.defaults) <= CandReads(defs, Cands(d.role, d.defaults))
  {
    var rest := DefaultCands(d.defaults) + MemberCands(d.role.members);
    CondsAreRead(defs, d.defaults, MemberCands(d.role.members));
    if d.role.chosen.Some? {
      var c := Cand(Sym(SymY), d.role.chosen.value);
      assert Cands(d.role, d.defaults) == [c] + rest && ([c] + rest)[1..] == rest;
    } else {
      assert Cands(d.role, d.defaults) == rest;
    }
  }

  /** The followed edges and the missed ones are exactly the reads. */
  lemma AllIsRead(defs: Defs, s: Symbol)
    requires s in defs && Searchable(defs)
    ensures FollowedVars(defs, s) + Vars(Missed(defs, s)) == Vars(Reads(defs, s))
  {
    FollowedIsRead(defs, s);
    var d := defs[s];
    forall x | x in FollowedVars(defs, s) ensures x in Vars(Reads(defs, s)) {
      FollowedAre(defs, s);
      if x in Vars(Mentions(RevExpr(d.revDep))) && !d.role.Member? {
        assert x in VisReads(d);
      } else if d.role.Choice? && x in CondReads(d.defaults) {
        ChoiceConds(defs, d);
        assert x in PickReads(defs, s, d);
      }
    }
    forall x | x in Vars(Missed(defs, s)) ensures x in Vars(Reads(defs, s)) {
      assert x in Missed(defs, s);
    }
  }

  lemma OneEqual(defs: Defs, s: Symbol)
    requires s in defs && Searchable(defs)
    ensures AllGraph(defs)[s] == CalcGraph(defs)[s]
  {
    AllIsRead(defs, s);
  }

  lemma SameGraph(g: Graph, h: Graph)
    requires g.Keys == h.Keys && forall s :: s in g ==> g[s] == h[s]
    ensures g == h
  {
  }

  lemma GraphsEqual(defs: Defs)
    requires Searchable(defs)
    ensures AllGraph(defs) == CalcGraph(defs)
  {
    forall s | s in AllGraph(defs) ensures AllGraph(defs)[s] == CalcGraph(defs)[s] { OneEqual(defs, s); }
    SameGraph(AllGraph(defs), CalcGraph(defs));
  }

  /** Ranks exist if and only if the followed and the missed edges together have no cycle. */
  lemma RanksIffNoCycle(defs: Defs)
    requires Closed(defs) && Searchable(defs)
    ensures (exists rank: Symbol -> nat :: Ranked(defs, rank)) <==> Acyclic(AllGraph(defs))
  {
    GraphsEqual(defs);
    RankedIffAcyclic(defs);
  }

  /** In any case no cycle is enough. */
  lemma NoCycleGivesRanks(defs: Defs)
    requires Closed(defs) && Acyclic(AllGraph(defs))
    ensures exists rank: Symbol -> nat :: Ranked(defs, rank)
  {
    var g, h := CalcGraph(defs), AllGraph(defs);
    forall p ensures !Cycle(g, p) {
      if Cycle(g, p) {
        forall s, x | s in g && x in g && x in g[s] ensures x in Edges(h, s) { FollowedIsRead(defs, s); }
        CycleElsewhere(g, h, p);
        assert false;
      }
    }
    RankedIffAcyclic(defs);
  }

  /** Nothing is read that is not followed. */
  ghost predicate NothingMissed(defs: Defs) {
    forall s :: s in defs ==> Vars(Missed(defs, s)) <= FollowedVars(defs, s)
  }

  lemma QuietIsAcyclic(defs: Defs)
    requires Typed(defs) && Acyclic(GraphOf(TableOf(defs))) && NothingMissed(defs)
    ensures Acyclic(AllGraph(defs))
  {
    var g, h := AllGraph(defs), GraphOf(TableOf(defs));
    forall p ensures !Cycle(g, p) {
      if Cycle(g, p) {
        forall s, x | s in g && x in g && x in g[s] ensures x in Edges(h, s) {
          assert x in FollowedVars(defs, s);
        }
        CycleElsewhere(g, h, p);
        assert false;
      }
    }
  }

  lemma LoudIsCyclic(defs: Defs)
    requires Typed(defs) && !Acyclic(GraphOf(TableOf(defs)))
    ensures !Acyclic(AllGraph(defs))
  {
    var g, h := GraphOf(TableOf(defs)), AllGraph(defs);
    var p :| Cycle(g, p);
    forall s, x | s in g && x in g && x in g[s] ensures x in Edges(h, s) {
      assert x.Var? && x in FollowedVars(defs, s);
    }
    CycleElsewhere(g, h, p);
  }

  /**
   sym_check_deps on all symbols. Without a warning there are ranks if nothing read is missed, and whenever the
   missed edges close no cycle. With one there are none, but for what is followed and never read.
   */
  method CheckDeclarations(defs: Defs, symbols: seq<Symbol>) returns (warned: bool)
    requires Typed(defs) && Closed(defs) && forall s :: s in defs ==> s in symbols
    ensures warned <==> !Acyclic(GraphOf(TableOf(defs)))
    ensures !warned && NothingMissed(defs) ==> exists rank: Symbol -> nat :: Ranked(defs, rank)
    ensures Acyclic(AllGraph(defs)) ==> !warned && exists rank: Symbol -> nat :: Ranked(defs, rank)
    ensures Searchable(defs) && warned ==> !exists rank: Symbol -> nat :: Ranked(defs, rank)
    ensures Searchable(defs) ==>
              ((exists rank: Symbol -> nat :: Ranked(defs, rank)) <==> Acyclic(AllGraph(defs)))
  {
    var checker := new Checker(TableOf(defs));
    checker.CheckAll(symbols);
    warned := checker.warned;
    if warned { LoudIsCyclic(defs); } else if NothingMissed(defs) { QuietIsAcyclic(defs); }
    if Acyclic(AllGraph(defs)) { NoCycleGivesRanks(defs); }
    if Searchable(defs) { RanksIffNoCycle(defs); }
  }

  // ----- what the search does not see -----

  /** Two visible boolean symbols set to y, each deselecting the other. */
  function Rivals(a: Symbol, b: Symbol): Defs {
    var d := Def("", Plain, [None], None, None, [], Some(TriValue(Yes)));
    map[a := d.(revDepInv := Some(Sym(b))), b := d.(revDepInv := Some(Sym(a)))]
  }

  /** Where one of them wins. */
  function Winner(a: Symbol, b: Symbol): World {
    World(s => if s == a then TriValue(Yes) else if s == b then TriValue(No) else Known(Empty, s), s => None)
  }

  lemma RivalsQuiet(a: Symbol, b: Symbol)
    requires a.Var? && b.Var? && a != b && TypeOf(a) == TypeOf(b) == SBoolean
    ensures Acyclic(GraphOf(TableOf(Rivals(a, b))))
  {
    OnePrompt(Rivals(a, b), a, Sym(SymY));
    OnePrompt(Rivals(a, b), b, Sym(SymY));
    QuietIfRanked(Rivals(a, b), s => 0);
  }

  /** The search finds nothing to warn about, and yet there are two solutions. */
  lemma DeselectEscapesSearch(a: Symbol, b: Symbol)
    requires a.Var? && b.Var? && a != b && TypeOf(a) == TypeOf(b) == SBoolean
    ensures Acyclic(GraphOf(TableOf(Rivals(a, b))))
    ensures Solution(Rivals(a, b), Winner(a, b)) && Solution(Rivals(a, b), Winner(b, a))
    ensures Winner(a, b).v(a) != Winner(b, a).v(a)
  {
    RivalsQuiet(a, b);
    WinnerSolves(a, b);
    WinnerSolves(b, a);
    RivalsSame(a, b);
  }

  lemma RivalsSame(a: Symbol, b: Symbol)
    requires a != b
    ensures Rivals(a, b) == Rivals(b, a)
  {
  }

  /** What is followed from a symbol with one prompt and no defaults. */
  lemma OnePrompt(defs: Defs, s: Symbol, p: Expr)
    requires s in defs && |defs[s].prompts| == 1 && CondExpr(defs[s].prompts[0]) == p && defs[s].defaults == []
    ensures FollowedVars(defs, s) == Vars(Mentions(RevExpr(defs[s].revDep))) + Vars(Mentions(p))
    ensures Mentions(PromptExpr(defs[s].prompts)) == Mentions(p) + {SymN}
  {
    var ps := defs[s].prompts;
    assert PromptExpr(ps) == Bin(OrOp, p, PromptExpr([])) by { assert ps[1..] == []; }
    FollowedAre(defs, s);
  }

  lemma WinnerSolves(a: Symbol, b: Symbol)
    requires a.Var? && b.Var? && a != b && TypeOf(a) == TypeOf(b) == SBoolean
    ensures Solution(Rivals(a, b), Winner(a, b))
  {
    var w := Winner(a, b);
    forall s ensures RightValue(s, w.v(s)) {}
    var ps: seq<Option<Expr>> := [None];
    assert PromptExpr(ps) == Bin(OrOp, Sym(SymY), PromptExpr([])) by { assert ps[1..] == []; }
    assert Eval(PromptExpr(ps), w.v) == Yes;
  }

  /** One deselecting the other does no harm: there are ranks. */
  lemma OneDeselect(a: Symbol, b: Symbol)
    requires a.Var? && b.Var? && a != b && TypeOf(a) == TypeOf(b) == SBoolean
    ensures var d := Rivals(a, b)[a];
            Ranked(map[a := d.(revDepInv := None), b := d.(revDepInv := Some(Sym(a)))], s => if s == a then 0 else 1)
  {
  }

  /** choice C { A } with a default for A under the condition C. */
  function Circular(c: Symbol, a: Symbol): Defs {
    var d := Def("", Plain, [], None, None, [], None);
    map[c := d.(role := Role.Choice([a], None), defaults := [SymbolValues.Default(Some(Sym(c)), Sym(a))]),
        a := d.(role := Member(c), prompts := [Some(Sym(c))])]
  }

  lemma CircularWarns(c: Symbol, a: Symbol)
    requires c.Var? && a.Var? && c != a
    ensures !Acyclic(GraphOf(TableOf(Circular(c, a)))) && !Searchable(Circular(c, a))
  {
    var defs := Circular(c, a);
    FollowedAre(defs, c);
    var ds := defs[c].defaults;
    assert CondReads(ds) == {c} by { assert CondReads(ds[1..]) == {}; }
    assert c in Edges(GraphOf(TableOf(defs)), c);
    assert Cycle(GraphOf(TableOf(defs)), [c]);
  }

  lemma OneMember(c: Symbol, a: Symbol)
    ensures Cands(Role.Choice([a], None), [SymbolValues.Default(Some(Sym(c)), Sym(a))])
         == [Cand(Sym(c), a), Cand(Sym(SymY), a)]
  {
    var ds := [SymbolValues.Default(Some(Sym(c)), Sym(a))];
    assert ds[1..] == [] && [a][1..] == [];
    assert DefaultCands(ds) == [Cand(Sym(c), a)] + DefaultCands([]);
    assert MemberCands([a]) == [Cand(Sym(SymY), a)] + MemberCands([]);
  }

  lemma TwoCandReads(defs: Defs, x: Cand, y: Cand)
    ensures CandReads(defs, [x, y]) == Mentions(x.cond) + VisReads(DefOf(defs, x.member))
                                     + (Mentions(y.cond) + VisReads(DefOf(defs, y.member)))
  {
    assert [x, y][1..] == [y] && [y][1..] == [];
    assert CandReads(defs, [y]) == Mentions(y.cond) + VisReads(DefOf(defs, y.member)) + CandReads(defs, []);
  }

  lemma CircularReads(c: Symbol, a: Symbol)
    requires c.Var? && a.Var? && c != a
    ensures Vars(Reads(Circular(c, a), c)) == {} && Vars(Reads(Circular(c, a), a)) == {c}
  {
    var defs := Circular(c, a);
    OnePrompt(defs, a, Sym(c));
    assert VisReads(defs[a]) == {c, SymN} && VisReads(defs[c]) == {SymN};
    OneMember(c, a);
    TwoCandReads(defs, Cand(Sym(c), a), Cand(Sym(SymY), a));
    assert PickReads(defs, c, defs[c]) == {SymN, SymY};
    assert Reads(defs, a) == {c, SymN};
  }

  /** Here the warning is needless: a choice finds itself y while it picks, so the condition stands in no way. */
  lemma NeedlessWarning(c: Symbol, a: Symbol)
    requires c.Var? && a.Var? && c != a
    ensures !Acyclic(GraphOf(TableOf(Circular(c, a)))) && !Searchable(Circular(c, a))
    ensures Ranked(Circular(c, a), s => if s == c then 0 else 1)
  {
    CircularWarns(c, a);
    CircularReads(c, a);
    RankedPair(Circular(c, a), c, a);
  }

  lemma LateFollowed(c: Symbol, b: Symbol, a: Symbol)
    requires Three(c, b, a)
    ensures var defs := Late(c, b, a);
            FollowedVars(defs, c) == {} && FollowedVars(defs, a) == {c} && FollowedVars(defs, b) == {c, a}
    ensures var defs := Late(c, b, a); c in Vars(Reads(defs, a)) && a in VisReads(defs[b])
  {
    var defs := Late(c, b, a);
    OnePrompt(defs, c, Sym(SymY));
    OnePrompt(defs, a, Sym(c));
    OnePrompt(defs, b, Bin(AndOp, Sym(c), Sym(a)));
  }

  lemma LateQuiet(c: Symbol, b: Symbol, a: Symbol)
    requires Three(c, b, a)
    ensures Acyclic(GraphOf(TableOf(Late(c, b, a))))
  {
    LateFollowed(c, b, a);
    var defs := Late(c, b, a);
    assert Typed(defs) && defs.Keys == {c, b, a};
    QuietThree(defs, c, b, a);
  }

  lemma QuietThree(defs: Defs, c: Symbol, b: Symbol, a: Symbol)
    requires Typed(defs) && defs.Keys == {c, b, a} && c != b && c != a && b != a
    requires FollowedVars(defs, c) == {} && FollowedVars(defs, a) == {c} && FollowedVars(defs, b) == {c, a}
    ensures Acyclic(GraphOf(TableOf(defs)))
  {
    var rank: Symbol -> nat := s => if s == c then 0 else if s == a then 1 else 2;
    LowerNone(defs, rank, c);
    LowerOne(defs, rank, a, c);
    LowerTwo(defs, rank, b, c, a);
    forall s | s in defs.Keys ensures Lower(defs, rank, s) {}
    QuietIfRanked(defs, rank);
  }

  /** A choice whose first member's prompt reads the second: quiet, but without ranks. */
  lemma LateEscapesSearch(c: Symbol, b: Symbol, a: Symbol)
    requires Three(c, b, a)
    ensures Acyclic(GraphOf(TableOf(Late(c, b, a))))
    ensures !exists rank: Symbol -> nat :: Ranked(Late(c, b, a), rank)
  {
    var defs := Late(c, b, a);
    LateQuiet(c, b, a);
    LateCycle(c, b, a);
  }

  lemma LateCycle(c: Symbol, b: Symbol, a: Symbol)
    requires Three(c, b, a)
    ensures a in Vars(Reads(Late(c, b, a), c)) && c in Vars(Reads(Late(c, b, a), a))
  {
    var defs := Late(c, b, a);
    LateFollowed(c, b, a);
    TwoCands(b, a);
    assert VisReads(DefOf(defs, b)) <= CandReads(defs, Cands(defs[c].role, []));
  }

  lemma StaleFollowed(d: Symbol, e: Symbol, c: Symbol, a: Symbol, b: Symbol)
    requires Five(d, e, c, a, b)
    ensures var defs := Stale(d, e, c, a, b);
            && FollowedVars(defs, d) == {} && FollowedVars(defs, c) == {d} && FollowedVars(defs, a) == {c}
            && FollowedVars(defs, b) == {c} && FollowedVars(defs, e) == {d, a}
  {
    var defs := Stale(d, e, c, a, b);
    OnePrompt(defs, d, Sym(SymY));
    OnePrompt(defs, c, Sym(d));
    OnePrompt(defs, a, Sym(c));
    OnePrompt(defs, b, Sym(c));
    OnePrompt(defs, e, Bin(AndOp, Sym(d), Sym(a)));
  }

  lemma StaleTyped(d: Symbol, e: Symbol, c: Symbol, a: Symbol, b: Symbol)
    requires Five(d, e, c, a, b)
    ensures Typed(Stale(d, e, c, a, b)) && Stale(d, e, c, a, b).Keys == {d, e, c, a, b}
  {
  }

  lemma StaleQuiet(d: Symbol, e: Symbol, c: Symbol, a: Symbol, b: Symbol)
    requires Five(d, e, c, a, b)
    ensures Acyclic(GraphOf(TableOf(Stale(d, e, c, a, b))))
  {
    StaleTyped(d, e, c, a, b);
    StaleFollowed(d, e, c, a, b);
    QuietFive(Stale(d, e, c, a, b), d, e, c, a, b);
  }

  lemma QuietFive(defs: Defs, d: Symbol, e: Symbol, c: Symbol, a: Symbol, b: Symbol)
    requires Typed(defs) && defs.Keys == {d, e, c, a, b} && Five(d, e, c, a, b)
    requires FollowedVars(defs, d) == {} && FollowedVars(defs, c) == {d} && FollowedVars(defs, a) == {c}
    requires FollowedVars(defs, b) == {c} && FollowedVars(defs, e) == {d, a}
    ensures Acyclic(GraphOf(TableOf(defs)))
  {
    var rank: Symbol -> nat := s => if s == d then 0 else if s == c then 1 else if s == e then 3 else 2;
    LowerNone(defs, rank, d);
    LowerOne(defs, rank, c, d);
    LowerOne(defs, rank, a, c);
    LowerOne(defs, rank, b, c);
    LowerTwo(defs, rank, e, d, a);
    forall s | s in defs.Keys ensures Lower(defs, rank, s) {}
    QuietIfRanked(defs, rank);
  }

  /** D reads A through its member E, A reads C, and C reads D. */
  lemma StaleCycle(d: Symbol, e: Symbol, c: Symbol, a: Symbol, b: Symbol)
    requires Five(d, e, c, a, b)
    ensures var defs := Stale(d, e, c, a, b);
            a in Vars(Reads(defs, d)) && c in Vars(Reads(defs, a)) && d in Vars(Reads(defs, c))
  {
    var defs := Stale(d, e, c, a, b);
    StaleTyped(d, e, c, a, b);
    OnePrompt(defs, e, Bin(AndOp, Sym(d), Sym(a)));
    OnePrompt(defs, c, Sym(d));
    assert a in VisReads(DefOf(defs, e));
    assert MemberCands([e])[0] == Cand(Sym(SymY), e);
    assert VisReads(DefOf(defs, e)) <= CandReads(defs, Cands(defs[d].role, []));
    assert d in VisReads(defs[c]);
  }

  /** The declarations with a pick left from before are quiet as well, and without ranks. */
  lemma StaleEscapesSearch(d: Symbol, e: Symbol, c: Symbol, a: Symbol, b: Symbol)
    requires Five(d, e, c, a, b)
    ensures Acyclic(GraphOf(TableOf(Stale(d, e, c, a, b))))
    ensures !exists rank: Symbol -> nat :: Ranked(Stale(d, e, c, a, b), rank)
  {
    var defs := Stale(d, e, c, a, b);
    StaleQuiet(d, e, c, a, b);
    StaleCycle(d, e, c, a, b);
    StaleTyped(d, e, c, a, b);
    forall rank: Symbol -> nat ensures !Ranked(defs, rank) { NoRanksRound(defs, rank, d, a, c); }
  }

  lemma NoRanksRound(defs: Defs, rank: Symbol -> nat, x: Symbol, y: Symbol, z: Symbol)
    requires x in defs && y in defs && z in defs
    requires y in Vars(Reads(defs, x)) && z in Vars(Reads(defs, y)) && x in Vars(Reads(defs, z))
    ensures !Ranked(defs, rank)
  {
  }

  lemma LowerNone(defs: Defs, rank: Symbol -> nat, s: Symbol)
    requires FollowedVars(defs, s) == {}
    ensures Lower(defs, rank, s)
  {
  }

  lemma LowerOne(defs: Defs, rank: Symbol -> nat, s: Symbol, x: Symbol)
    requires FollowedVars(defs, s) == {x} && rank(x) < rank(s)
    ensures Lower(defs, rank, s)
  {
  }

  lemma LowerTwo(defs: Defs, rank: Symbol -> nat, s: Symbol, x: Symbol, y: Symbol)
    requires FollowedVars(defs, s) == {x, y} && rank(x) < rank(s) && rank(y) < rank(s)
    ensures Lower(defs, rank, s)
  {
  }

  ghost predicate Lower(defs: Defs, rank: Symbol -> nat, s: Symbol) {
    forall x :: x in FollowedVars(defs, s) ==> rank(x) < rank(s)
  }

  /** Ranks of the declared symbols are enough: constants have no edges. */
  lemma QuietIfRanked(defs: Defs, rank: Symbol -> nat)
    requires Typed(defs)
    requires forall s {:trigger Lower(defs, rank, s)} :: s in defs ==> Lower(defs, rank, s)
    ensures Acyclic(GraphOf(TableOf(defs)))
  {
    var g := FollowedGraph(defs);
    forall s, x | s in g && x in g[s] ensures rank(x) < rank(s) { assert Lower(defs, rank, s); }
    assert Decreasing(g, rank);
    forall p ensures !Cycle(GraphOf(TableOf(defs)), p) {
      NoSuchCycle(defs, rank, p);
    }
  }

  lemma NoSuchCycle(defs: Defs, rank: Symbol -> nat, p: seq<Symbol>)
    requires Typed(defs) && Decreasing(FollowedGraph(defs), rank)
    ensures !Cycle(GraphOf(TableOf(defs)), p)
  {
    if Cycle(GraphOf(TableOf(defs)), p) {
      VarsOfCycle(defs, p);
      RankAlong(FollowedGraph(defs), rank, p);
      assert false;
    }
  }

  function FollowedGraph(defs: Defs): Graph {
    map s | s in defs :: FollowedVars(defs, s)
  }

  lemma VarsOfCycle(defs: Defs, p: seq<Symbol>)
    requires Typed(defs) && Cycle(GraphOf(TableOf(defs)), p)
    ensures Cycle(FollowedGraph(defs), p)
  {
    var g, h := GraphOf(TableOf(defs)), FollowedGraph(defs);
    forall s, x | s in g && x in g && x in g[s] ensures x in Edges(h, s) { assert x.Var?; }
    CycleElsewhere(g, h, p);
  }
}
