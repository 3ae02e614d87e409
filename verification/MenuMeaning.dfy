/**
 What menu_finalize means: absorbed entries are no more visible than what
 absorbs them, pushed-down conditions say what the nested ones said, and the
 moving of entries leaves the result of pushing down alone.
 */
module MenuMeaning {
  import opened Options
  import opened Expressions
  import opened Equality
  import opened Normalise
  import opened Duplicates
  import opened NormalForms
  import opened MenuTree

  // ----- absorption -----

  /** Whether a dependency is taken for n; NULL is y. */
  predicate TakenForNo(e: Option<Expr>, v: Valuation) {
    e.Some? && Taken(e.value, SymN, v)
  }

  /** The comparison with n is right for this dependency. */
  predicate Comparable(e: Option<Expr>, v: Valuation) {
    TakenForNo(e, v) <==> EvalOpt(e, v) == No
  }

  /** As menu_finalize leaves a condition: in normal form, over bool and tristate symbols. */
  predicate Finished(e: Option<Expr>) {
    e.Some? ==> Normal(e.value) && ValueSymbols(e.value)
  }

  /** A finished condition that is n is taken for n; the converse may fail. */
  lemma FinishedTaken(e: Option<Expr>, v: Valuation)
    requires Respects(v) && Finished(e)
    ensures EvalOpt(e, v) == No ==> TakenForNo(e, v)
  {
    if e.Some? { NormalTaken(e.value, SymN, v); }
  }

  /** The rewritten dependency is y or n; it says whether the dependency is other than n iff that is comparable. */
  lemma NotNoValue(e: Option<Expr>, v: Valuation)
    requires Respects(v)
    ensures Eval(NotNo(e), v) == BoolT(!TakenForNo(e, v))
    ensures Eval(NotNo(e), v) == BoolT(EvalOpt(e, v) != No) <==> Comparable(e, v)
  {
    var c := TransCompareOpt(e, false, SymN);
    BuiltIns(SymN, v);
    if e.Some? { TransCompareMeans(e.value, false, SymN, v); }
    TransformKeepsValue(c, v);
    EliminateDupsCorrect(Transform(c), v);
  }

  /** The residue path: the sibling's rewritten dependency is at most the base's, under every valuation. */
  lemma CoversBounds(base: Option<Expr>, dep: Option<Expr>, v: Valuation)
    requires Respects(v)
    requires Covers(base, dep)
    ensures AtMost(Eval(NotNo(dep), v), Eval(NotNo(base), v))
    ensures TakenForNo(base, v) ==> TakenForNo(dep, v)
  {
    UsedUpBounds(NotNo(dep), NotNo(base), v);
    NotNoValue(base, v);
    NotNoValue(dep, v);
  }

  lemma {:induction false} ContainsIsMentions(e: Expr, s: Symbol)
    ensures Contains(e, s) <==> s in Mentions(e)
    ensures Depends(e, s) ==> Contains(e, s)
  {
    match e
    case Sym(_) =>
    case Cmp(_, _, _) =>
    case Not(x) => ContainsIsMentions(x, s);
    case Bin(_, l, r) =>
      ContainsIsMentions(l, s);
      ContainsIsMentions(r, s);
  }

  /** The short cut: an expression that depends on a bool or tristate symbol is n where the symbol is. */
  lemma {:induction false} DependsBounds(e: Expr, s: Symbol, v: Valuation)
    requires Respects(v)
    requires Depends(e, s) && Shows(s)
    ensures Eval(e, v) != No ==> v(s).tri != No
  {
    match e
    case Bin(_, l, r) =>
      if Depends(l, s) { DependsBounds(l, s, v); } else { DependsBounds(r, s, v); }
    case _ =>
  }

  /**
   An absorbed entry whose own condition is comparable is visible only where its new parent's symbol or prompt
   is. Of the parent's condition nothing is asked but the form menu_finalize gives it.
   */
  lemma AbsorbedNeedsBase(base: Entry, sibling: Entry, v: Valuation)
    requires Respects(v)
    requires Absorbs(base, sibling) && Shows(base.sym.value) && Finished(BaseDep(base))
    requires Comparable(OwnDep(sibling), v)
    ensures EvalOpt(OwnDep(sibling), v) != No ==>
              v(base.sym.value).tri != No || EvalOpt(BaseDep(base), v) != No
  {
    var dep := OwnDep(sibling);
    if Depends(dep.value, base.sym.value) {
      DependsBounds(dep.value, base.sym.value, v);
    } else {
      CoversBounds(BaseDep(base), dep, v);
      FinishedTaken(BaseDep(base), v);
    }
  }

  /**
   Below a hidden parent, of symbol and prompt, an absorbed entry shows if and only if its own condition is not
   comparable: the one way for an entry to need nothing of what it is put under.
   */
  lemma ShownWithoutBase(base: Entry, sibling: Entry, v: Valuation)
    requires Respects(v)
    requires Absorbs(base, sibling) && Shows(base.sym.value) && Finished(BaseDep(base)) && Finished(OwnDep(sibling))
    requires v(base.sym.value).tri == No && EvalOpt(BaseDep(base), v) == No
    ensures EvalOpt(OwnDep(sibling), v) != No <==> !Comparable(OwnDep(sibling), v)
  {
    if Comparable(OwnDep(sibling), v) { AbsorbedNeedsBase(base, sibling, v); }
    FinishedTaken(OwnDep(sibling), v);
  }

  /**
   Read from the operands: below a hidden parent an absorbed entry is n as soon as every negated m is read as n, so it
   is n unless some operand of NOT is m.
   */
  lemma HiddenWithoutNegatedMod(base: Entry, sibling: Entry, v: Valuation)
    requires Respects(v)
    requires Absorbs(base, sibling) && Shows(base.sym.value) && Finished(BaseDep(base)) && Finished(OwnDep(sibling))
    requires v(base.sym.value).tri == No && EvalOpt(BaseDep(base), v) == No
    ensures ReadAs(OwnDep(sibling).value, No, v) == No
    ensures NoNegatedMod(OwnDep(sibling).value, v) ==> EvalOpt(OwnDep(sibling), v) == No
  {
    var dep := OwnDep(sibling);
    ShownWithoutBase(base, sibling, v);
    assert TakenForNo(dep, v);
    TakenReads(dep.value, SymN, v);
    if NoNegatedMod(dep.value, v) { ReadAsIs(dep.value, No, v); }
  }

  lemma {:induction false} ReadAsIs(e: Expr, x: Tristate, v: Valuation)
    requires NoNegatedMod(e, v)
    ensures ReadAs(e, x, v) == Eval(e, v)
  {
    match e
    case Bin(_, l, r) =>
      ReadAsIs(l, x, v);
      ReadAsIs(r, x, v);
    case _ =>
  }

  // ----- pushing down -----

  predicate NormalOpt(e: Option<Expr>) {
    e.Some? ==> Normal(e.value)
  }

  lemma PushDownValue(outer: Option<Expr>, own: Option<Expr>, v: Valuation)
    requires Respects(v)
    ensures Sharper(Apply(AndOp, EvalOpt(outer, v), EvalOpt(own, v)), EvalOpt(PushDown(outer, own), v))
    ensures NormalOpt(outer) ==> NormalOpt(PushDown(outer, own))
  {
    var own' := if own.Some? then Some(Transform(own.value)) else None;
    if own.Some? {
      TransformKeepsValue(own.value, v);
      TransformNormal(own.value);
    }
    var both := AllocBin(AndOp, outer, own');
    assert EvalOpt(both, v) == Apply(AndOp, EvalOpt(outer, v), EvalOpt(own, v));
    if both.Some? {
      EliminateDupsCorrect(both.value, v);
      if NormalOpt(outer) { EliminateDupsNormal(both.value); }
    }
  }

  /** A dependency that is pushed down has been through expr_eliminate_dups. */
  lemma PushedForm(outer: Option<Expr>, own: Option<Expr>)
    ensures PushDown(outer, own).None? <==> outer.None? && own.None?
    ensures PushDown(outer, own).Some? ==> Settled(PushDown(outer, own).value)
  {
    var own' := if own.Some? then Some(Transform(own.value)) else None;
    var both := AllocBin(AndOp, outer, own');
    if both.Some? { EliminateDupsCorrect(both.value, s => Default(s)); }
  }

  /** And so has a condition; of a symbol that is no tristate it tests no tristate symbol against n. */
  lemma ConditionForm(sym: Option<Symbol>, dep: Option<Expr>, own: Option<Expr>)
    ensures var c := Condition(sym, dep, own);
            && (c.None? <==> dep.None? && own.None?)
            && (c.Some? ==> if sym.Some? && TypeOf(sym.value) != STristate then NoTest(c.value) else Settled(c.value))
  {
    PushedForm(dep, own);
    if PushDown(dep, own).Some? { TransBoolComplete(PushDown(dep, own).value); }
  }

  /** n stays n; where no symbol is m, y stays y as well. */
  ghost predicate Agrees(before: Tristate, after: Tristate, v: Valuation) {
    (before == No ==> after == No) && (TwoValued(v) ==> Sharper(before, after))
  }

  lemma ConditionValue(sym: Option<Symbol>, dep: Option<Expr>, own: Option<Expr>, outer: Tristate, v: Valuation)
    requires Respects(v) && NormalOpt(dep) && Agrees(outer, EvalOpt(dep, v), v)
    ensures Agrees(Apply(AndOp, outer, EvalOpt(own, v)), EvalOpt(Condition(sym, dep, own), v), v)
    ensures NormalOpt(Condition(sym, dep, own))
  {
    PushedAgrees(dep, own, outer, v);
    var c := PushDown(dep, own);
    if c.Some? { PromotedAgrees(c.value, Apply(AndOp, outer, EvalOpt(own, v)), v); }
  }

  lemma PushedAgrees(dep: Option<Expr>, own: Option<Expr>, outer: Tristate, v: Valuation)
    requires Respects(v) && NormalOpt(dep) && Agrees(outer, EvalOpt(dep, v), v)
    ensures Agrees(Apply(AndOp, outer, EvalOpt(own, v)), EvalOpt(PushDown(dep, own), v), v)
    ensures NormalOpt(PushDown(dep, own))
  {
    PushDownValue(dep, own, v);
  }

  lemma PromotedAgrees(c: Expr, before: Tristate, v: Valuation)
    requires Respects(v) && Normal(c) && Agrees(before, Eval(c, v), v)
    ensures Agrees(before, Eval(TransBool(c), v), v) && Normal(TransBool(c))
  {
    TransBoolKeepsNo(c, v);
    if TwoValued(v) { TransBoolExact(c, v); }
  }

  // ----- the reference: conditions pushed down, nothing moved -----

  ghost function PushForest(parent: Entry, ts: seq<Tree>): (r: seq<Tree>)
    ensures |r| == |ts|
    ensures forall k :: 0 <= k < |r| ==> r[k].id == ts[k].id
    decreases |Preorder(ts)|
  {
    if ts == [] then []
    else
      var info := Rewrite(parent, ts[0].info);
      [Node(ts[0].id, info, PushForest(info, ts[0].kids))] + PushForest(parent, ts[1..])
  }

  /** A tree whose own entry has been rewritten already. */
  ghost function PushTree(t: Tree): Tree {
    t.(kids := PushForest(t.info, t.kids))
  }

  ghost function PushTrees(ts: seq<Tree>): seq<Tree> {
    if ts == [] then [] else [PushTree(ts[0])] + PushTrees(ts[1..])
  }

  /** The entries of a forest in preorder, with what they carry. */
  ghost function Entries(ts: seq<Tree>): seq<(nat, Entry)> {
    if ts == [] then [] else [(ts[0].id, ts[0].info)] + Entries(ts[0].kids) + Entries(ts[1..])
  }

  lemma {:induction false} EntriesConcat(a: seq<Tree>, b: seq<Tree>)
    ensures Entries(a + b) == Entries(a) + Entries(b)
  {
    if a == [] {
      assert a + b == b;
    } else {
      EntriesConcat(a[1..], b);
      assert (a + b)[1..] == a[1..] + b;
      Assoc([(a[0].id, a[0].info)] + Entries(a[0].kids), Entries(a[1..]), Entries(b));
    }
  }

  lemma {:induction false} PushTreesIsForest(parent: Entry, ts: seq<Tree>)
    ensures PushTrees(RewriteAll(parent, ts)) == PushForest(parent, ts)
  {
    if ts != [] { PushTreesIsForest(parent, ts[1..]); }
  }

  lemma {:induction false} EntriesCons(t: Tree, ts: seq<Tree>)
    ensures Entries([t] + ts) == [(t.id, t.info)] + Entries(t.kids) + Entries(ts)
  {
    assert ([t] + ts)[1..] == ts;
  }

  lemma {:induction false} HoistEntries(ts: seq<Tree>)
    ensures Entries(Hoist(ts)) == Entries(ts)
    decreases |Preorder(ts)|
  {
    if ts != [] {
      if MovesUp(ts[0]) {
        PreorderConcat(ts[0].kids, ts[1..]);
        HoistEntries(ts[0].kids + ts[1..]);
        EntriesConcat(ts[0].kids, ts[1..]);
        EntriesCons(ts[0].(kids := []), Hoist(ts[0].kids + ts[1..]));
        Assoc([(ts[0].id, ts[0].info)], Entries(ts[0].kids), Entries(ts[1..]));
      } else {
        HoistEntries(ts[1..]);
        EntriesCons(ts[0], Hoist(ts[1..]));
      }
    }
  }

  /**
   Finalizing moves entries but carries exactly what pushing the conditions
   down the original tree gives, entry by entry in preorder.
   */
  lemma {:induction false} FinalizeEntries(t: Tree, rest: seq<Tree>)
    ensures var r := Finalize(t, rest);
            Entries([r.tree]) + Entries(PushTrees(r.rest)) == Entries(PushTrees([t] + rest))
    decreases |Preorder([t] + rest)|, 0
  {
    PreorderCons(t, rest);
    if t.kids != [] {
      RewriteAllPreorder(t.info, t.kids);
      FinalizeAllEntries(RewriteAll(t.info, t.kids));
      PushTreesIsForest(t.info, t.kids);
      MovedEntries(t, rest, FinalizeAll(RewriteAll(t.info, t.kids)).list, rest);
    } else if t.info.sym.Some? {
      AbsorbEntries(t.info, rest);
      MovedEntries(t, rest, Absorb(t.info, rest).list, Absorb(t.info, rest).rest);
    } else {
      MovedEntries(t, rest, [], rest);
    }
  }

  lemma {:induction false} MovedEntries(t: Tree, rest: seq<Tree>, list: seq<Tree>, rest': seq<Tree>)
    requires Entries(PushForest(t.info, t.kids)) + Entries(PushTrees(rest)) == Entries(list) + Entries(PushTrees(rest'))
    ensures Entries([t.(kids := Hoist(list))]) + Entries(PushTrees(rest')) == Entries(PushTrees([t] + rest))
  {
    HoistEntries(list);
    Prepend([(t.id, t.info)], Entries(list), Entries(PushTrees(rest')),
            Entries(PushForest(t.info, t.kids)), Entries(PushTrees(rest)));
  }

  lemma Regroup<T>(a: seq<T>, b: seq<T>, c: seq<T>, d: seq<T>)
    requires b + c == d
    ensures a + b + c == a + d
  {
    assert a + b + c == a + (b + c);
  }

  lemma Prepend<T>(h: seq<T>, a: seq<T>, b: seq<T>, c: seq<T>, d: seq<T>)
    requires a + b == c + d
    ensures h + a + b == h + c + d
  {
    assert h + a + b == h + (a + b) && h + c + d == h + (c + d);
  }

  lemma {:induction false} FinalizeAllEntries(ts: seq<Tree>)
    ensures Entries(FinalizeAll(ts).list) == Entries(PushTrees(ts))
    decreases |Preorder(ts)|, 1
  {
    if ts != [] {
      assert [ts[0]] + ts[1..] == ts;
      FinalizeEntries(ts[0], ts[1..]);
      var f := Finalize(ts[0], ts[1..]);
      PreorderCons(f.tree, f.rest);
      FinalizeAllEntries(f.rest);
      EntriesConcat([f.tree], FinalizeAll(f.rest).list);
    }
  }

  lemma {:induction false} AbsorbEntries(base: Entry, ts: seq<Tree>)
    ensures var r := Absorb(base, ts); Entries(r.list) + Entries(PushTrees(r.rest)) == Entries(PushTrees(ts))
    decreases |Preorder(ts)|, 1
  {
    if ts != [] && Absorbs(base, ts[0].info) {
      assert [ts[0]] + ts[1..] == ts;
      FinalizeEntries(ts[0], ts[1..]);
      var f := Finalize(ts[0], ts[1..]);
      PreorderCons(f.tree, f.rest);
      AbsorbEntries(base, f.rest);
      var l := Absorb(base, f.rest);
      EntriesConcat([f.tree], l.list);
      Regroup(Entries([f.tree]), Entries(l.list), Entries(PushTrees(l.rest)), Entries(PushTrees(f.rest)));
    }
  }

  // ----- the meaning of the pushed conditions -----

  /** What a child of the entry inherits, read off the original conditions. */
  function Inherited(info: Entry, dep: Tristate, v: Valuation): Tristate {
    if info.sym.Some? && info.choice then v(info.sym.value).tri
    else if info.prompt.Some? then Apply(AndOp, dep, EvalOpt(info.prompt.value.visible, v))
    else dep
  }

  /** Every condition of the pushed forest agrees with the conjunction down its original path. */
  ghost predicate Means(outer: Tristate, ts: seq<Tree>, pushed: seq<Tree>, v: Valuation)
    decreases |Preorder(ts)|
  {
    |pushed| == |ts| &&
    (ts != [] ==>
       var a, b := ts[0].info, pushed[0].info;
       var dep := Apply(AndOp, outer, EvalOpt(a.dep, v));
       && Agrees(dep, EvalOpt(b.dep, v), v)
       && (a.prompt.Some? <==> b.prompt.Some?)
       && (a.prompt.Some? ==>
             Agrees(Apply(AndOp, dep, EvalOpt(a.prompt.value.visible, v)), EvalOpt(b.prompt.value.visible, v), v))
       && |a.conds| == |b.conds|
       && (forall k :: 0 <= k < |a.conds| ==>
             Agrees(Apply(AndOp, dep, EvalOpt(a.conds[k], v)), EvalOpt(b.conds[k], v), v))
       && Means(Inherited(a, dep, v), ts[0].kids, pushed[0].kids, v)
       && Means(outer, ts[1..], pushed[1..], v))
  }

  lemma DepMeans(parent: Entry, child: Entry, outer: Tristate, v: Valuation)
    requires Respects(v) && NormalOpt(ParentDep(parent)) && Agrees(outer, EvalOpt(ParentDep(parent), v), v)
    ensures var d := PushDown(ParentDep(parent), child.dep);
            NormalOpt(d) && Agrees(Apply(AndOp, outer, EvalOpt(child.dep, v)), EvalOpt(d, v), v)
  {
    PushDownValue(ParentDep(parent), child.dep, v);
  }

  lemma PromptMeans(parent: Entry, child: Entry, outer: Tristate, v: Valuation)
    requires Respects(v) && NormalOpt(ParentDep(parent)) && Agrees(outer, EvalOpt(ParentDep(parent), v), v)
    ensures var b, dep := Rewrite(parent, child), Apply(AndOp, outer, EvalOpt(child.dep, v));
            child.prompt.Some? ==>
              && NormalOpt(b.prompt.value.visible)
              && Agrees(Apply(AndOp, dep, EvalOpt(child.prompt.value.visible, v)),
                        EvalOpt(b.prompt.value.visible, v), v)
  {
    var d := PushDown(ParentDep(parent), child.dep);
    DepMeans(parent, child, outer, v);
    if child.prompt.Some? {
      ConditionValue(child.sym, d, child.prompt.value.visible, Apply(AndOp, outer, EvalOpt(child.dep, v)), v);
    }
  }

  lemma RewriteMeans(parent: Entry, child: Entry, outer: Tristate, v: Valuation)
    requires Respects(v) && NormalOpt(ParentDep(parent)) && Agrees(outer, EvalOpt(ParentDep(parent), v), v)
    ensures var b, dep := Rewrite(parent, child), Apply(AndOp, outer, EvalOpt(child.dep, v));
            && Agrees(dep, EvalOpt(b.dep, v), v)
            && (child.prompt.Some? ==>
                  Agrees(Apply(AndOp, dep, EvalOpt(child.prompt.value.visible, v)),
                         EvalOpt(b.prompt.value.visible, v), v))
            && (forall k :: 0 <= k < |child.conds| ==>
                  Agrees(Apply(AndOp, dep, EvalOpt(child.conds[k], v)), EvalOpt(b.conds[k], v), v))
            && NormalOpt(ParentDep(b))
            && Agrees(Inherited(child, dep, v), EvalOpt(ParentDep(b), v), v)
  {
    var d := PushDown(ParentDep(parent), child.dep);
    var dep := Apply(AndOp, outer, EvalOpt(child.dep, v));
    DepMeans(parent, child, outer, v);
    PromptMeans(parent, child, outer, v);
    forall k | 0 <= k < |child.conds|
      ensures Agrees(Apply(AndOp, dep, EvalOpt(child.conds[k], v)), EvalOpt(Rewrite(parent, child).conds[k], v), v)
    {
      ConditionValue(child.sym, d, child.conds[k], dep, v);
    }
  }

  /**
   For the whole tree: a condition is n wherever some condition on the
   entry's original path is n; where no symbol is m it is y wherever all are.
   */
  lemma {:induction false} PushForestMeans(parent: Entry, ts: seq<Tree>, outer: Tristate, v: Valuation)
    requires Respects(v) && NormalOpt(ParentDep(parent)) && Agrees(outer, EvalOpt(ParentDep(parent), v), v)
    ensures Means(outer, ts, PushForest(parent, ts), v)
    decreases |Preorder(ts)|
  {
    if ts != [] {
      var info := Rewrite(parent, ts[0].info);
      RewriteMeans(parent, ts[0].info, outer, v);
      PushForestMeans(info, ts[0].kids, Inherited(ts[0].info, Apply(AndOp, outer, EvalOpt(ts[0].info.dep, v)), v), v);
      PushForestMeans(parent, ts[1..], outer, v);
    }
  }

  // ----- hoisting -----

  /** No children, or a prompt text. */
  predicate KeepsKids(t: Tree) {
    t.kids == [] || (t.info.prompt.Some? && t.info.prompt.value.text)
  }

  /** No entry without a prompt text keeps children, at any depth below the finalized entries. */
  predicate NothingHidden(ts: seq<Tree>)
    decreases |Preorder(ts)|
  {
    ts != [] ==>
      && NothingHidden(ts[0].kids) && NothingHidden(ts[1..])
      && (forall k :: 0 <= k < |ts[0].kids| ==> KeepsKids(ts[0].kids[k]))
  }

  lemma {:induction false} NothingHiddenConcat(a: seq<Tree>, b: seq<Tree>)
    requires NothingHidden(a) && NothingHidden(b)
    ensures NothingHidden(a + b)
  {
    if a == [] {
      assert a + b == b;
    } else {
      NothingHiddenConcat(a[1..], b);
      assert (a + b)[1..] == a[1..] + b;
    }
  }

  lemma {:induction false} HoistHidesNothing(ts: seq<Tree>)
    requires NothingHidden(ts)
    ensures NothingHidden(Hoist(ts))
    decreases |Preorder(ts)|
  {
    if ts != [] {
      if MovesUp(ts[0]) {
        PreorderConcat(ts[0].kids, ts[1..]);
        NothingHiddenConcat(ts[0].kids, ts[1..]);
        HoistHidesNothing(ts[0].kids + ts[1..]);
      } else {
        HoistHidesNothing(ts[1..]);
      }
    }
  }

  lemma {:induction false} FinalizeHidesNothing(t: Tree, rest: seq<Tree>)
    ensures NothingHidden([Finalize(t, rest).tree])
    decreases |Preorder([t] + rest)|, 0
  {
    PreorderCons(t, rest);
    var r := Finalize(t, rest);
    if t.kids != [] {
      RewriteAllPreorder(t.info, t.kids);
      FinalizeAllHidesNothing(RewriteAll(t.info, t.kids));
      HoistHidesNothing(FinalizeAll(RewriteAll(t.info, t.kids)).list);
    } else if t.info.sym.Some? {
      AbsorbHidesNothing(t.info, rest);
      HoistHidesNothing(Absorb(t.info, rest).list);
    }
    assert [r.tree][1..] == [];
  }

  lemma {:induction false} FinalizeAllHidesNothing(ts: seq<Tree>)
    ensures NothingHidden(FinalizeAll(ts).list)
    decreases |Preorder(ts)|, 1
  {
    if ts != [] {
      assert [ts[0]] + ts[1..] == ts;
      var f := Finalize(ts[0], ts[1..]);
      FinalizeHidesNothing(ts[0], ts[1..]);
      PreorderCons(f.tree, f.rest);
      FinalizeAllHidesNothing(f.rest);
      NothingHiddenConcat([f.tree], FinalizeAll(f.rest).list);
    }
  }

  lemma {:induction false} AbsorbHidesNothing(base: Entry, ts: seq<Tree>)
    ensures NothingHidden(Absorb(base, ts).list)
    decreases |Preorder(ts)|, 1
  {
    if ts != [] && Absorbs(base, ts[0].info) {
      assert [ts[0]] + ts[1..] == ts;
      var f := Finalize(ts[0], ts[1..]);
      FinalizeHidesNothing(ts[0], ts[1..]);
      PreorderCons(f.tree, f.rest);
      AbsorbHidesNothing(base, f.rest);
      NothingHiddenConcat([f.tree], Absorb(base, f.rest).list);
    }
  }
}
