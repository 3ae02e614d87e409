/**
 The reverse dependencies menu_finalize builds (scripts/config/menu.c:242-251): for every select property
 the condition `selector && condition` is added to rev_dep of the target, for every deselect to rev_dep_inv.
 */
module ReverseDeps {
  import opened Options
  import opened Expressions
  import opened Normalise
  import opened SymbolValues
  import opened MenuTree
  import opened MenuMeaning

  /** What a property of an entry does besides having a condition. */
  datatype Pull = Nothing | Selects(target: Symbol) | Deselects(target: Symbol)

  /** The pulls of every entry, one for each of its conditions. */
  type Pulls = nat -> seq<Pull>

  predicate Hits(p: Pull, t: Symbol, select: bool) {
    if select then p == Selects(t) else p == Deselects(t)
  }

  /** Lines 244-245 and 249-250. */
  function Added(acc: Option<Expr>, e: Entry, cond: Option<Expr>): Option<Expr> {
    if e.sym.None? then acc else AllocBin(OrOp, acc, AllocBin(AndOp, Some(Sym(e.sym.value)), cond))
  }

  /** After the first k properties of an entry. */
  function OfEntry(acc: Option<Expr>, e: Entry, ps: seq<Pull>, k: nat, t: Symbol, select: bool): Option<Expr>
    requires k <= |ps| && k <= |e.conds|
  {
    if k == 0 then acc
    else
      var before := OfEntry(acc, e, ps, k - 1, t, select);
      if Hits(ps[k - 1], t, select) then Added(before, e, e.conds[k - 1]) else before
  }

  predicate Fitting(entries: seq<(nat, Entry)>, pulls: Pulls) {
    forall i :: 0 <= i < |entries| ==> |pulls(entries[i].0)| == |entries[i].1.conds|
  }

  /** After all entries, each rewritten once. */
  function OfEntries(acc: Option<Expr>, entries: seq<(nat, Entry)>, pulls: Pulls, t: Symbol, select: bool): Option<Expr>
    requires Fitting(entries, pulls)
  {
    if entries == [] then acc
    else
      var n := |entries| - 1;
      var (id, e) := entries[n];
      OfEntry(OfEntries(acc, entries[..n], pulls, t, select), e, pulls(id), |e.conds|, t, select)
  }

  function RevValue(e: Option<Expr>, v: Valuation): Tristate {
    Eval(RevExpr(e), v)
  }

  /** What one property asks for. */
  function Asked(e: Entry, k: nat, v: Valuation): Tristate
    requires k < |e.conds|
  {
    if e.sym.None? then No else Min(v(e.sym.value).tri, EvalOpt(e.conds[k], v))
  }

  lemma AddedValue(acc: Option<Expr>, e: Entry, k: nat, v: Valuation)
    requires Respects(v) && k < |e.conds|
    ensures RevValue(Added(acc, e, e.conds[k]), v) == Max(RevValue(acc, v), Asked(e, k, v))
  {
    assert RightValue(SymN, v(SymN));
    if e.sym.Some? {
      var x := Sym(e.sym.value);
      var both := AllocBin(AndOp, Some(x), e.conds[k]);
      assert Eval(x, v) == v(e.sym.value).tri;
      assert both.Some? && Eval(both.value, v) == Asked(e, k, v);
      assert RevValue(AllocBin(OrOp, acc, both), v) == Max(RevValue(acc, v), Eval(both.value, v));
    }
  }

  lemma {:induction false} EntryAtLeast(acc: Option<Expr>, e: Entry, ps: seq<Pull>, k: nat, t: Symbol, select: bool,
                                        v: Valuation)
    requires Respects(v) && k <= |ps| && k <= |e.conds|
    ensures AtMost(RevValue(acc, v), RevValue(OfEntry(acc, e, ps, k, t, select), v))
    ensures forall j :: 0 <= j < k && Hits(ps[j], t, select) ==>
              AtMost(Asked(e, j, v), RevValue(OfEntry(acc, e, ps, k, t, select), v))
  {
    if k > 0 {
      EntryAtLeast(acc, e, ps, k - 1, t, select, v);
      AddedValue(OfEntry(acc, e, ps, k - 1, t, select), e, k - 1, v);
    }
  }

  lemma {:induction false} EntryAttained(acc: Option<Expr>, e: Entry, ps: seq<Pull>, k: nat, t: Symbol, select: bool,
                                         v: Valuation)
    requires Respects(v) && k <= |ps| && k <= |e.conds|
    ensures var x := RevValue(OfEntry(acc, e, ps, k, t, select), v);
            x == RevValue(acc, v) || exists j :: 0 <= j < k && Hits(ps[j], t, select) && x == Asked(e, j, v)
  {
    if k > 0 {
      EntryAttained(acc, e, ps, k - 1, t, select, v);
      AddedValue(OfEntry(acc, e, ps, k - 1, t, select), e, k - 1, v);
    }
  }

  /** Property k of entry i is among those that pull t. */
  predicate Pulling(entries: seq<(nat, Entry)>, pulls: Pulls, i: nat, k: nat, t: Symbol, select: bool)
    requires Fitting(entries, pulls) && i < |entries|
  {
    k < |entries[i].1.conds| && Hits(pulls(entries[i].0)[k], t, select)
  }

  /** The reverse dependency is at least what was there before and at least what every such property asks for. */
  lemma {:induction false} RevDepAtLeast(acc: Option<Expr>, entries: seq<(nat, Entry)>, pulls: Pulls, t: Symbol,
                                         select: bool,
                                         i: nat, k: nat, v: Valuation)
    requires Respects(v) && Fitting(entries, pulls) && i < |entries| && Pulling(entries, pulls, i, k, t, select)
    ensures AtMost(Asked(entries[i].1, k, v), RevValue(OfEntries(acc, entries, pulls, t, select), v))
  {
    var n := |entries| - 1;
    var (id, e) := entries[n];
    var before := OfEntries(acc, entries[..n], pulls, t, select);
    EntryAtLeast(before, e, pulls(id), |e.conds|, t, select, v);
    if i < n { RevDepAtLeast(acc, entries[..n], pulls, t, select, i, k, v); }
  }

  /** And it is one of these: nothing else adds to it. */
  lemma {:induction false} RevDepAttained(acc: Option<Expr>, entries: seq<(nat, Entry)>, pulls: Pulls, t: Symbol,
                                          select: bool,
                                          v: Valuation) returns (i: nat, k: nat)
    requires Respects(v) && Fitting(entries, pulls)
    ensures RevValue(OfEntries(acc, entries, pulls, t, select), v) != RevValue(acc, v) ==>
              && i < |entries| && Pulling(entries, pulls, i, k, t, select)
              && RevValue(OfEntries(acc, entries, pulls, t, select), v) == Asked(entries[i].1, k, v)
  {
    i, k := 0, 0;
    if entries != [] {
      var n := |entries| - 1;
      var (id, e) := entries[n];
      var before := OfEntries(acc, entries[..n], pulls, t, select);
      EntryAttained(before, e, pulls(id), |e.conds|, t, select, v);
      var x := RevValue(OfEntries(acc, entries, pulls, t, select), v);
      if x == RevValue(before, v) {
        i, k := RevDepAttained(acc, entries[..n], pulls, t, select, v);
      } else {
        i := n;
        k :| 0 <= k < |e.conds| && Hits(pulls(id)[k], t, select) && x == Asked(e, k, v);
      }
    }
  }

  // ----- the order of menu_finalize -----

  /** The entries of one list as it stands. */
  ghost function Heads(ts: seq<Tree>): seq<(nat, Entry)> {
    if ts == [] then [] else [(ts[0].id, ts[0].info)] + Heads(ts[1..])
  }

  /**
   The entries whose conditions menu_finalize(t) rewrites and appends, in this order: first those of its own list
   (lines 223-253), then those of the calls it makes (254-255, 281).
   */
  ghost function Rewritten(t: Tree, rest: seq<Tree>): seq<(nat, Entry)>
    decreases |Preorder([t] + rest)|, 0
  {
    PreorderCons(t, rest);
    if t.kids != [] then
      RewriteAllPreorder(t.info, t.kids);
      Heads(RewriteAll(t.info, t.kids)) + RewrittenAll(RewriteAll(t.info, t.kids))
    else if t.info.sym.Some? then
      RewrittenAbsorbed(t.info, rest)
    else
      []
  }

  ghost function RewrittenAll(ts: seq<Tree>): seq<(nat, Entry)>
    decreases |Preorder(ts)|, 1
  {
    if ts == [] then []
    else
      assert [ts[0]] + ts[1..] == ts;
      var f := Finalize(ts[0], ts[1..]);
      PreorderCons(f.tree, f.rest);
      Rewritten(ts[0], ts[1..]) + RewrittenAll(f.rest)
  }

  ghost function RewrittenAbsorbed(base: Entry, ts: seq<Tree>): seq<(nat, Entry)>
    decreases |Preorder(ts)|, 1
  {
    if ts == [] || !Absorbs(base, ts[0].info) then []
    else
      assert [ts[0]] + ts[1..] == ts;
      var f := Finalize(ts[0], ts[1..]);
      PreorderCons(f.tree, f.rest);
      Rewritten(ts[0], ts[1..]) + RewrittenAbsorbed(base, f.rest)
  }

  // what Finalize gives, case by case

  lemma TreeOfList(t: Tree, rest: seq<Tree>)
    requires t.kids != []
    ensures Finalize(t, rest).tree == t.(kids := Hoist(FinalizeAll(RewriteAll(t.info, t.kids)).list))
    ensures Finalize(t, rest).rest == rest
  {
  }

  lemma TreeAlone(t: Tree, rest: seq<Tree>)
    requires t.kids == []
    ensures t.info.sym.Some? ==> var l := Absorb(t.info, rest);
              Finalize(t, rest).tree == t.(kids := Hoist(l.list)) && Finalize(t, rest).rest == l.rest
    ensures t.info.sym.None? ==> Finalize(t, rest).tree == t && Finalize(t, rest).rest == rest
  {
  }

  /** What a call leaves behind, counted: below t, and not taken in from the siblings. */
  ghost predicate Counted(left: multiset<(nat, Entry)>, right: multiset<(nat, Entry)>,
                          written: seq<(nat, Entry)>, before: multiset<(nat, Entry)>) {
    left + right == multiset(written) + before
  }

  lemma CountedNode(n: (nat, Entry), l: multiset<(nat, Entry)>, r: multiset<(nat, Entry)>,
                    written: seq<(nat, Entry)>, b: multiset<(nat, Entry)>)
    requires Counted(l, r, written, b)
    ensures Counted(multiset{n} + l, r, written, multiset{n} + b)
  {
    assert multiset{n} + l + r == multiset{n} + (l + r);
  }

  lemma CountedList(n: (nat, Entry), l: multiset<(nat, Entry)>, r: multiset<(nat, Entry)>,
                    heads: seq<(nat, Entry)>, written: seq<(nat, Entry)>)
    requires Counted(l, multiset{}, written, multiset(heads))
    ensures Counted(multiset{n} + l, r, heads + written, multiset{n} + r)
  {
    assert l == l + multiset{} == multiset(written) + multiset(heads);
    assert multiset(heads + written) == multiset(heads) + multiset(written);
  }

  lemma CountedChain(a: multiset<(nat, Entry)>, m: multiset<(nat, Entry)>, x: seq<(nat, Entry)>,
                     b: multiset<(nat, Entry)>, c: multiset<(nat, Entry)>, r: multiset<(nat, Entry)>,
                     y: seq<(nat, Entry)>)
    requires Counted(a, m, x, b) && Counted(c, r, y, m)
    ensures Counted(a + c, r, x + y, b)
  {
    assert multiset(x + y) == multiset(x) + multiset(y);
    assert a + c + r == a + (c + r) == a + (multiset(y) + m) == (a + m) + multiset(y);
  }

  /** All entries below t and the siblings it takes in: what it rewrites and what had been rewritten before. */
  lemma {:induction false} RewrittenOnce(t: Tree, rest: seq<Tree>)
    ensures var r := Finalize(t, rest);
            Counted(multiset(Entries([r.tree])), multiset(Heads(r.rest)), Rewritten(t, rest),
                    multiset{(t.id, t.info)} + multiset(Heads(rest)))
    decreases |Preorder([t] + rest)|, 0
  {
    PreorderCons(t, rest);
    var n := (t.id, t.info);
    if t.kids != [] {
      var ts := RewriteAll(t.info, t.kids);
      RewriteAllPreorder(t.info, t.kids);
      RewrittenOnceAll(ts);
      TreeOfList(t, rest);
      HoistedNode(t, FinalizeAll(ts).list);
      CountedList(n, multiset(Entries(FinalizeAll(ts).list)), multiset(Heads(rest)), Heads(ts), RewrittenAll(ts));
    } else {
      TreeAlone(t, rest);
      if t.info.sym.Some? {
        var l := Absorb(t.info, rest);
        RewrittenOnceAbsorbed(t.info, rest);
        HoistedNode(t, l.list);
        CountedNode(n, multiset(Entries(l.list)), multiset(Heads(l.rest)), RewrittenAbsorbed(t.info, rest),
                    multiset(Heads(rest)));
      } else {
        HoistedNode(t, []);
        assert t.(kids := Hoist([])) == t;
      }
    }
  }

  lemma {:induction false} RewrittenOnceAll(ts: seq<Tree>)
    ensures Counted(multiset(Entries(FinalizeAll(ts).list)), multiset{}, RewrittenAll(ts), multiset(Heads(ts)))
    decreases |Preorder(ts)|, 1
  {
    if ts != [] {
      assert [ts[0]] + ts[1..] == ts;
      var f := Finalize(ts[0], ts[1..]);
      PreorderCons(f.tree, f.rest);
      RewrittenOnce(ts[0], ts[1..]);
      RewrittenOnceAll(f.rest);
      CountedChain(multiset(Entries([f.tree])), multiset(Heads(f.rest)), Rewritten(ts[0], ts[1..]), multiset(Heads(ts)),
                   multiset(Entries(FinalizeAll(f.rest).list)), multiset{}, RewrittenAll(f.rest));
      BothEntries(f.tree, FinalizeAll(f.rest).list);
    }
  }

  lemma BothEntries(t: Tree, list: seq<Tree>)
    ensures multiset(Entries([t] + list)) == multiset(Entries([t])) + multiset(Entries(list))
  {
    EntriesConcat([t], list);
  }

  lemma {:induction false} RewrittenOnceAbsorbed(base: Entry, ts: seq<Tree>)
    ensures var l := Absorb(base, ts);
            Counted(multiset(Entries(l.list)), multiset(Heads(l.rest)), RewrittenAbsorbed(base, ts),
                    multiset(Heads(ts)))
    decreases |Preorder(ts)|, 1
  {
    if ts != [] && Absorbs(base, ts[0].info) {
      assert [ts[0]] + ts[1..] == ts;
      var f := Finalize(ts[0], ts[1..]);
      PreorderCons(f.tree, f.rest);
      RewrittenOnce(ts[0], ts[1..]);
      RewrittenOnceAbsorbed(base, f.rest);
      var l := Absorb(base, f.rest);
      CountedChain(multiset(Entries([f.tree])), multiset(Heads(f.rest)), Rewritten(ts[0], ts[1..]), multiset(Heads(ts)),
                   multiset(Entries(l.list)), multiset(Heads(l.rest)), RewrittenAbsorbed(base, f.rest));
      BothEntries(f.tree, l.list);
    }
  }

  lemma HoistedNode(t: Tree, list: seq<Tree>)
    ensures multiset(Entries([t.(kids := Hoist(list))])) == multiset{(t.id, t.info)} + multiset(Entries(list))
    ensures Hoist([]) == []
  {
    HoistEntries(list);
    var t' := t.(kids := Hoist(list));
    EntriesCons(t', []);
    assert [t'] + [] == [t'];
    assert Entries([t']) == [(t.id, t.info)] + Entries(list);
  }

  /** Below the root each entry of the finished tree is rewritten exactly once, with what it carries at the end. */
  lemma RewrittenIsTree(root: Tree)
    ensures var es := Entries([Finalize(root, []).tree]);
            es != [] && es[0] == (root.id, root.info) && multiset(es[1..]) == multiset(Rewritten(root, []))
  {
    var t := Finalize(root, []).tree;
    var es := Entries([t]);
    RewrittenOnce(root, []);
    NothingBehind(root);
    EntriesCons(t, []);
    assert [t] + [] == [t];
    WithoutHead(es, multiset(Rewritten(root, [])));
  }

  lemma WithoutHead(es: seq<(nat, Entry)>, m: multiset<(nat, Entry)>)
    requires es != [] && multiset(es) + multiset{} == m + (multiset{es[0]} + multiset{})
    ensures multiset(es[1..]) == m
  {
    var h, r := multiset{es[0]}, multiset(es[1..]);
    assert es == [es[0]] + es[1..];
    assert h + multiset{} == h && multiset(es) + multiset{} == multiset(es);
    assert h + r == multiset(es) == m + h;
    forall x ensures r[x] == m[x] { assert (h + r)[x] == (m + h)[x]; }
  }

  lemma NothingBehind(root: Tree)
    ensures Finalize(root, []).rest == []
  {
    if root.kids == [] { TreeAlone(root, []); } else { TreeOfList(root, []); }
  }

  // ----- what selecting means -----

  /** The expressions menu_finalize leaves for t. */
  ghost predicate Built(d: Def, root: Tree, pulls: Pulls, t: Symbol)
    requires Fitting(Rewritten(root, []), pulls)
  {
    && d.revDep == OfEntries(None, Rewritten(root, []), pulls, t, true)
    && d.revDepInv == OfEntries(None, Rewritten(root, []), pulls, t, false)
  }

  /** Property k of entry i of the finished tree, not the root, pulls t. */
  ghost predicate PullsAt(root: Tree, pulls: Pulls, i: nat, k: nat, t: Symbol, select: bool) {
    var es := Entries([Finalize(root, []).tree]);
    && 1 <= i < |es| && k < |es[i].1.conds| && k < |pulls(es[i].0)| && Hits(pulls(es[i].0)[k], t, select)
  }

  lemma TreeAtLeast(root: Tree, pulls: Pulls, i: nat, k: nat, t: Symbol, select: bool, v: Valuation)
    requires Respects(v) && Fitting(Rewritten(root, []), pulls) && PullsAt(root, pulls, i, k, t, select)
    ensures AtMost(Asked(Entries([Finalize(root, []).tree])[i].1, k, v),
                   RevValue(OfEntries(None, Rewritten(root, []), pulls, t, select), v))
  {
    var es, rs := Entries([Finalize(root, []).tree]), Rewritten(root, []);
    RewrittenIsTree(root);
    assert es[1..][i - 1] == es[i];
    assert es[i] in multiset(es[1..]);
    assert es[i] in multiset(rs);
    var j :| 0 <= j < |rs| && rs[j] == es[i];
    RevDepAtLeast(None, rs, pulls, t, select, j, k, v);
  }

  /**
   A select does what it says: where selector and condition are at least x, so is the target in every solution,
   unless it is deselected or a member of a choice. The conditions are those menu_finalize leaves in the tree.
   */
  lemma SelectForces(defs: Defs, w: World, t: Symbol, root: Tree, pulls: Pulls, i: nat, k: nat)
    requires Solution(defs, w) && t in defs && IsTri(t) && defs[t].role.Plain? && !Deselected(defs[t], w.v)
    requires Fitting(Rewritten(root, []), pulls) && Built(defs[t], root, pulls, t)
    requires PullsAt(root, pulls, i, k, t, true)
    ensures AtMost(Asked(Entries([Finalize(root, []).tree])[i].1, k, w.v), w.v(t).tri)
  {
    TreeAtLeast(root, pulls, i, k, t, true, w.v);
    assert w.v(t) == Calc(defs, t, w);
    if Max(Visible(t, defs[t], w.v), Selected(t, defs[t], w.v)) != No { CalcBounds(t, defs[t], w); }
  }

  /** A deselect whose selector and condition are y makes its target n. */
  lemma DeselectForces(defs: Defs, w: World, t: Symbol, root: Tree, pulls: Pulls, i: nat, k: nat)
    requires Solution(defs, w) && t in defs && IsTri(t)
    requires Fitting(Rewritten(root, []), pulls) && Built(defs[t], root, pulls, t)
    requires PullsAt(root, pulls, i, k, t, false)
    ensures Asked(Entries([Finalize(root, []).tree])[i].1, k, w.v) == Yes ==> w.v(t).tri == No
  {
    TreeAtLeast(root, pulls, i, k, t, false, w.v);
    assert w.v(t) == Calc(defs, t, w);
  }
}
