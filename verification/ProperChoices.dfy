/**
 menu_finalize pushes the choice down into the conditions of its members (scripts/config/menu.c:217-241): what it
 leaves is what the memoised calculation needs, a member whose prompts mention the choice or never show.
 */
module ProperChoices {
  import opened Options
  import opened Expressions
  import opened Normalise
  import opened SymbolValues
  import opened ValueDeps
  import opened ValueMemo
  import opened MemoSound
  import opened MenuTree
  import opened MenuMeaning

  /** The condition is n wherever c is. */
  ghost predicate NeedsChoice(e: Option<Expr>, c: Symbol) {
    forall v :: Respects(v) && v(c).tri == No ==> EvalOpt(e, v) == No
  }

  predicate IsChoice(e: Entry) {
    e.sym.Some? && e.choice
  }

  /** x is an entry below the choice c, with no other choice between, as it is after its conditions were pushed down. */
  ghost predicate Inside(parent: Entry, ts: seq<Tree>, c: Symbol, inside: bool, x: (nat, Entry))
    decreases |Preorder(ts)|
  {
    ts != [] &&
    var info := Rewrite(parent, ts[0].info);
    || (inside && x == (ts[0].id, info))
    || Inside(info, ts[0].kids, c, if IsChoice(info) then info.sym.value == c else inside, x)
    || Inside(parent, ts[1..], c, inside, x)
  }

  ghost predicate InsideTree(root: Tree, c: Symbol, x: (nat, Entry)) {
    Inside(root.info, root.kids, c, IsChoice(root.info) && root.info.sym.value == c, x)
  }

  lemma {:induction false} InsideIsEntry(parent: Entry, ts: seq<Tree>, c: Symbol, inside: bool, x: (nat, Entry))
    requires Inside(parent, ts, c, inside, x)
    ensures x in Entries(PushForest(parent, ts))
    decreases |Preorder(ts)|
  {
    var info := Rewrite(parent, ts[0].info);
    if Inside(info, ts[0].kids, c, if IsChoice(info) then info.sym.value == c else inside, x) {
      InsideIsEntry(info, ts[0].kids, c, if IsChoice(info) then info.sym.value == c else inside, x);
    } else if Inside(parent, ts[1..], c, inside, x) {
      InsideIsEntry(parent, ts[1..], c, inside, x);
    }
  }

  /** Such entries are entries of the finished tree. */
  lemma InsideIsFinal(root: Tree, c: Symbol, x: (nat, Entry))
    requires InsideTree(root, c, x)
    ensures x in Entries([Finalize(root, []).tree])
  {
    InsideIsEntry(root.info, root.kids, c, IsChoice(root.info) && root.info.sym.value == c, x);
    FinalizeEntries(root, []);
    var t := PushTree(root);
    assert PushTrees([root]) == [t] by { assert [root][1..] == []; }
    assert [root] + [] == [root];
    EntriesCons(t, []);
    assert [t] + [] == [t];
    assert x in Entries([t]);
    NothingLeft(root);
  }

  lemma NothingLeft(root: Tree)
    ensures Finalize(root, []).rest == []
  {
    PreorderCons(Finalize(root, []).tree, Finalize(root, []).rest);
    if root.kids == [] && root.info.sym.Some? { assert Absorb(root.info, []).rest == []; }
  }

  /** One step down: what the parent needs the child needs, and passes on unless it is a choice of its own. */
  lemma RewriteNeeds(parent: Entry, child: Entry, c: Symbol)
    requires NormalOpt(ParentDep(parent)) && NeedsChoice(ParentDep(parent), c)
    ensures var b := Rewrite(parent, child);
            && (b.prompt.Some? ==> NeedsChoice(b.prompt.value.visible, c))
            && (!IsChoice(b) ==> NeedsChoice(ParentDep(b), c))
  {
    var b := Rewrite(parent, child);
    forall v | Respects(v) && v(c).tri == No
      ensures b.prompt.Some? ==> EvalOpt(b.prompt.value.visible, v) == No
      ensures !IsChoice(b) ==> EvalOpt(ParentDep(b), v) == No
    {
      RewriteMeans(parent, child, EvalOpt(ParentDep(parent), v), v);
    }
  }

  lemma RewriteNormal(parent: Entry, child: Entry, v: Valuation)
    requires NormalOpt(ParentDep(parent)) && Respects(v)
    ensures NormalOpt(ParentDep(Rewrite(parent, child)))
  {
    RewriteMeans(parent, child, EvalOpt(ParentDep(parent), v), v);
  }

  lemma ChoiceNeedsItself(e: Entry)
    requires IsChoice(e)
    ensures NeedsChoice(ParentDep(e), e.sym.value)
  {
  }

  lemma {:induction false} InsideNeeds(parent: Entry, ts: seq<Tree>, c: Symbol, inside: bool, x: (nat, Entry),
                                       v: Valuation)
    requires Respects(v) && NormalOpt(ParentDep(parent)) && (inside ==> NeedsChoice(ParentDep(parent), c))
    requires Inside(parent, ts, c, inside, x)
    ensures x.1.prompt.Some? ==> NeedsChoice(x.1.prompt.value.visible, c)
    decreases |Preorder(ts)|
  {
    var info := Rewrite(parent, ts[0].info);
    if inside { RewriteNeeds(parent, ts[0].info, c); }
    if Inside(info, ts[0].kids, c, if IsChoice(info) then info.sym.value == c else inside, x) {
      RewriteNormal(parent, ts[0].info, v);
      if IsChoice(info) { ChoiceNeedsItself(info); }
      InsideNeeds(info, ts[0].kids, c, if IsChoice(info) then info.sym.value == c else inside, x, v);
    } else if Inside(parent, ts[1..], c, inside, x) {
      InsideNeeds(parent, ts[1..], c, inside, x, v);
    }
  }

  /** A condition that needs the choice mentions it or is n whatever the values. */
  lemma NeedsMentions(e: Option<Expr>, c: Symbol, v: Valuation)
    requires NeedsChoice(e, c) && c.Var? && IsTri(c) && Respects(v)
    ensures (e.Some? && c in Mentions(e.value)) || EvalOpt(e, v) == No
  {
    var v' := x => if x == c then TriValue(No) else v(x);
    forall x ensures RightValue(x, v'(x)) { assert RightValue(x, v(x)); }
    assert EvalOpt(e, v') == No;
    if e.Some? && c !in Mentions(e.value) { EvalAgrees(e.value, v, v'); }
  }

  lemma {:induction false} PromptsNeed(ps: seq<Option<Expr>>, c: Symbol, v: Valuation)
    requires c.Var? && IsTri(c) && Respects(v)
    requires forall k :: 0 <= k < |ps| ==> NeedsChoice(ps[k], c)
    ensures c in Mentions(PromptExpr(ps)) || Eval(PromptExpr(ps), v) == No
  {
    assert RightValue(SymN, v(SymN)) && RightValue(SymY, v(SymY));
    if ps != [] {
      NeedsMentions(ps[0], c, v);
      PromptsNeed(ps[1..], c, v);
    }
  }

  ghost predicate IsPrompt(root: Tree, c: Symbol, p: Option<Expr>) {
    exists x :: InsideTree(root, c, x) && x.1.prompt.Some? && x.1.prompt.value.visible == p
  }

  /** The prompts of every member are those of entries below its choice. */
  ghost predicate PromptsInside(defs: Defs, root: Tree, m: Symbol)
    requires m in defs && defs[m].role.Member?
  {
    var c := defs[m].role.choice;
    IsTri(c) && forall k :: 0 <= k < |defs[m].prompts| ==> IsPrompt(root, c, defs[m].prompts[k])
  }

  /** With the prompts menu_finalize leaves, declarations are as the calculation needs them. */
  lemma FinalizedIsProper(defs: Defs, root: Tree)
    requires Typed(defs) && NormalOpt(ParentDep(root.info))
    requires forall m :: m in defs && defs[m].role.Member? ==> PromptsInside(defs, root, m)
    ensures Proper(defs)
  {
    var v := x => Known(State(map[], map[], {}, map[], map[]), x);
    assert Respects(v) by { forall x ensures RightValue(x, v(x)) {} }
    forall m | m in defs && defs[m].role.Member?
      ensures defs[m].role.choice in VisReads(defs[m]) || NeverShown(defs[m])
    {
      MemberIsProper(defs, root, m, v);
    }
  }

  lemma MemberIsProper(defs: Defs, root: Tree, m: Symbol, v: Valuation)
    requires Typed(defs) && NormalOpt(ParentDep(root.info)) && Respects(v)
    requires m in defs && defs[m].role.Member? && PromptsInside(defs, root, m)
    ensures defs[m].role.choice in VisReads(defs[m]) || NeverShown(defs[m])
  {
    var c, ps := defs[m].role.choice, defs[m].prompts;
    forall k | 0 <= k < |ps| ensures NeedsChoice(ps[k], c) {
      assert IsPrompt(root, c, ps[k]);
      var x :| InsideTree(root, c, x) && x.1.prompt.Some? && x.1.prompt.value.visible == ps[k];
      if IsChoice(root.info) { ChoiceNeedsItself(root.info); }
      InsideNeeds(root.info, root.kids, c, IsChoice(root.info) && root.info.sym.value == c, x, v);
    }
    if c !in VisReads(defs[m]) {
      forall u | Respects(u) ensures Eval(PromptExpr(ps), u) == No { PromptsNeed(ps, c, u); }
    }
  }
}
