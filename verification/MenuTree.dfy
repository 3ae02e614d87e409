/**
 The menu tree and what menu_finalize makes of it (scripts/config/menu.c:197-339):
 dependencies are pushed down, entries that depend on the entry before them
 become its children, and the children of entries without a prompt text move up.
 */
module MenuTree {
  import opened Options
  import opened Expressions
  import opened Equality
  import opened Normalise
  import opened Duplicates

  /** A property of the entry: its condition, and for a prompt whether it has a text. */
  datatype Prompt = Prompt(visible: Option<Expr>, text: bool)

  /** What an entry carries: sym, whether sym is a choice, dep, prompt and the conditions of its other properties. */
  datatype Entry = Entry(sym: Option<Symbol>, choice: bool, dep: Option<Expr>, prompt: Option<Prompt>,
                         conds: seq<Option<Expr>>)

  datatype Tree = Node(id: nat, info: Entry, kids: seq<Tree>)

  // ----- pushing dependencies down (lines 217-241) -----

  function ParentDep(parent: Entry): Option<Expr> {
    if parent.sym.Some? && parent.choice then Some(Sym(parent.sym.value))
    else if parent.prompt.Some? then parent.prompt.value.visible
    else parent.dep
  }

  /** expr_eliminate_dups(expr_alloc_and(expr_copy(outer), expr_transform(own))) */
  function PushDown(outer: Option<Expr>, own: Option<Expr>): Option<Expr> {
    var own' := if own.Some? then Some(Transform(own.value)) else None;
    var both := AllocBin(AndOp, outer, own');
    if both.Some? then Some(EliminateDups(both.value)) else None
  }

  function Condition(sym: Option<Symbol>, dep: Option<Expr>, own: Option<Expr>): Option<Expr> {
    var c := PushDown(dep, own);
    if sym.Some? && TypeOf(sym.value) != STristate && c.Some? then Some(TransBool(c.value)) else c
  }

  function Rewrite(parent: Entry, child: Entry): Entry {
    var dep := PushDown(ParentDep(parent), child.dep);
    child.(dep := dep,
           prompt := if child.prompt.None? then None
                     else Some(child.prompt.value.(visible := Condition(child.sym, dep, child.prompt.value.visible))),
           conds := seq(|child.conds|, i requires 0 <= i < |child.conds| => Condition(child.sym, dep, child.conds[i])))
  }

  // ----- absorption of the following entries (lines 257-281) -----

  /** expr_contains_symbol */
  predicate Contains(e: Expr, s: Symbol) {
    match e
    case Sym(x) => x == s
    case Cmp(_, a, b) => a == s || b == s
    case Not(x) => Contains(x, s)
    case Bin(_, l, r) => Contains(l, s) || Contains(r, s)
  }

  /** expr_depends_symbol */
  predicate Depends(e: Expr, s: Symbol) {
    match e
    case Bin(op, l, r) => op == AndOp && (Depends(l, s) || Depends(r, s))
    case Sym(x) => x == s
    case Cmp(eq, a, b) => a == s && (if eq then b == SymY || b == SymM else b == SymN)
    case Not(_) => false
  }

  /** Whether an expression is other than n, made comparable (lines 258-259, 267-268). */
  function NotNo(e: Option<Expr>): Expr {
    EliminateDups(Transform(TransCompareOpt(e, false, SymN)))
  }

  function OwnDep(entry: Entry): Option<Expr> {
    if entry.prompt.Some? then entry.prompt.value.visible else entry.dep
  }

  function BaseDep(entry: Entry): Option<Expr> {
    if entry.prompt.Some? then entry.prompt.value.visible else None
  }

  /** The residue path: all of the base dependency is found in the sibling's. */
  predicate Covers(base: Option<Expr>, dep: Option<Expr>) {
    EliminateEq(NotNo(dep), NotNo(base)).1 == Sym(SymY)
  }

  predicate Absorbs(base: Entry, sibling: Entry) {
    && base.sym.Some?
    && var dep := OwnDep(sibling);
       dep.Some? && Contains(dep.value, base.sym.value) &&
       (Depends(dep.value, base.sym.value) || Covers(BaseDep(base), dep))
  }

  // ----- the tree -----

  /** The ids of a forest in preorder. */
  function Preorder(ts: seq<Tree>): seq<nat> {
    if ts == [] then [] else [ts[0].id] + Preorder(ts[0].kids) + Preorder(ts[1..])
  }

  lemma Assoc<T>(a: seq<T>, b: seq<T>, c: seq<T>)
    ensures a + b + c == a + (b + c)
  {
  }

  lemma {:induction false} PreorderConcat(a: seq<Tree>, b: seq<Tree>)
    ensures Preorder(a + b) == Preorder(a) + Preorder(b)
  {
    if a == [] {
      assert a + b == b;
    } else {
      PreorderConcat(a[1..], b);
      assert (a + b)[1..] == a[1..] + b;
      Assoc([a[0].id] + Preorder(a[0].kids), Preorder(a[1..]), Preorder(b));
    }
  }

  lemma {:induction false} PreorderCons(t: Tree, ts: seq<Tree>)
    ensures Preorder([t] + ts) == [t.id] + Preorder(t.kids) + Preorder(ts)
  {
    assert ([t] + ts)[1..] == ts;
  }

  function RewriteAll(parent: Entry, ts: seq<Tree>): (r: seq<Tree>)
    ensures |r| == |ts|
  {
    if ts == [] then [] else [ts[0].(info := Rewrite(parent, ts[0].info))] + RewriteAll(parent, ts[1..])
  }

  lemma {:induction false} RewriteAllPreorder(parent: Entry, ts: seq<Tree>)
    ensures Preorder(RewriteAll(parent, ts)) == Preorder(ts)
  {
    if ts != [] { RewriteAllPreorder(parent, ts[1..]); }
  }

  /** menu->list && (!menu->prompt || !menu->prompt->text) */
  predicate MovesUp(t: Tree) {
    t.kids != [] && (t.info.prompt.None? || !t.info.prompt.value.text)
  }

  /** The second loop over parent->list: a spliced child is visited in turn. */
  function Hoist(ts: seq<Tree>): (r: seq<Tree>)
    ensures forall k :: 0 <= k < |r| ==> !MovesUp(r[k])
    decreases |Preorder(ts)|
  {
    if ts == [] then []
    else if MovesUp(ts[0]) then
      PreorderConcat(ts[0].kids, ts[1..]);
      [ts[0].(kids := [])] + Hoist(ts[0].kids + ts[1..])
    else
      [ts[0]] + Hoist(ts[1..])
  }

  lemma {:induction false} HoistPreorder(ts: seq<Tree>)
    ensures Preorder(Hoist(ts)) == Preorder(ts)
    decreases |Preorder(ts)|
  {
    if ts != [] {
      if MovesUp(ts[0]) {
        PreorderConcat(ts[0].kids, ts[1..]);
        HoistPreorder(ts[0].kids + ts[1..]);
        PreorderCons(ts[0].(kids := []), Hoist(ts[0].kids + ts[1..]));
        Assoc([ts[0].id], Preorder(ts[0].kids), Preorder(ts[1..]));
      } else {
        HoistPreorder(ts[1..]);
        PreorderCons(ts[0], Hoist(ts[1..]));
      }
    }
  }

  /** The finalized entry, the entries left behind it, and the order of the calls. */
  datatype Result = Result(tree: Tree, rest: seq<Tree>, calls: seq<nat>)
  datatype ListResult = ListResult(list: seq<Tree>, rest: seq<Tree>, calls: seq<nat>)

  /** menu_finalize(t) where rest follows t in its list. */
  function Finalize(t: Tree, rest: seq<Tree>): (r: Result)
    ensures Preorder([r.tree] + r.rest) == Preorder([t] + rest)
    ensures r.calls == Preorder([r.tree])
    ensures r.tree.id == t.id && r.tree.info == t.info
    decreases |Preorder([t] + rest)|, 0
  {
    PreorderCons(t, rest);
    if t.kids != [] then
      RewriteAllPreorder(t.info, t.kids);
      var l := FinalizeAll(RewriteAll(t.info, t.kids));
      FinalizedPreorder(t, rest, l.list, rest, l.calls);
      Result(t.(kids := Hoist(l.list)), rest, [t.id] + l.calls)
    else if t.info.sym.Some? then
      var l := Absorb(t.info, rest);
      FinalizedPreorder(t, rest, l.list, l.rest, l.calls);
      Result(t.(kids := Hoist(l.list)), l.rest, [t.id] + l.calls)
    else
      FinalizedPreorder(t, rest, [], rest, []);
      Result(t, rest, [t.id])
  }

  lemma {:induction false} FinalizedPreorder(t: Tree, rest: seq<Tree>, list: seq<Tree>, rest': seq<Tree>,
                                             calls: seq<nat>)
    requires Preorder(t.kids) + Preorder(rest) == Preorder(list) + Preorder(rest')
    requires calls == Preorder(list)
    ensures var t' := t.(kids := Hoist(list));
            && Preorder([t'] + rest') == Preorder([t] + rest)
            && [t.id] + calls == Preorder([t'])
  {
    var t' := t.(kids := Hoist(list));
    HoistPreorder(list);
    PreorderCons(t, rest);
    PreorderCons(t', rest');
    PreorderCons(t', []);
    assert [t'] + [] == [t'];
    Assoc([t.id], Preorder(t.kids), Preorder(rest));
    Assoc([t.id], Preorder(list), Preorder(rest'));
  }

  /** One more entry in front of a finalized list. */
  lemma {:induction false} ListStep(f: Result, l: ListResult, pre: seq<nat>)
    requires Preorder([f.tree] + f.rest) == pre && f.calls == Preorder([f.tree])
    requires Preorder(l.list) + Preorder(l.rest) == Preorder(f.rest) && l.calls == Preorder(l.list)
    ensures Preorder([f.tree] + l.list) + Preorder(l.rest) == pre
    ensures f.calls + l.calls == Preorder([f.tree] + l.list)
  {
    PreorderConcat([f.tree], f.rest);
    PreorderConcat([f.tree], l.list);
    Assoc(Preorder([f.tree]), Preorder(l.list), Preorder(l.rest));
  }

  /** The loop over parent->list: an entry may be absorbed before its turn comes. */
  function FinalizeAll(ts: seq<Tree>): (r: ListResult)
    ensures Preorder(r.list) == Preorder(ts) && r.calls == Preorder(r.list) && r.rest == []
    decreases |Preorder(ts)|, 1
  {
    if ts == [] then ListResult([], [], [])
    else
      assert [ts[0]] + ts[1..] == ts;
      var f := Finalize(ts[0], ts[1..]);
      PreorderCons(f.tree, f.rest);
      var l := FinalizeAll(f.rest);
      ListStep(f, l, Preorder(ts));
      ListResult([f.tree] + l.list, [], f.calls + l.calls)
  }

  /** The loop over the siblings behind an entry without a list of its own. */
  function Absorb(base: Entry, ts: seq<Tree>): (r: ListResult)
    ensures Preorder(r.list) + Preorder(r.rest) == Preorder(ts)
    ensures r.calls == Preorder(r.list)
    ensures r.rest == [] || !Absorbs(base, r.rest[0].info)
    ensures forall k :: 0 <= k < |r.list| ==> Absorbs(base, r.list[k].info)
    decreases |Preorder(ts)|, 1
  {
    if ts == [] || !Absorbs(base, ts[0].info) then ListResult([], ts, [])
    else
      assert [ts[0]] + ts[1..] == ts;
      var f := Finalize(ts[0], ts[1..]);
      PreorderCons(f.tree, f.rest);
      var l := Absorb(base, f.rest);
      ListStep(f, l, Preorder(ts));
      ListResult([f.tree] + l.list, l.rest, f.calls + l.calls)
  }
}
