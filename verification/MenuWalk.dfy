/**
 The walk of conf_write over the menu tree (scripts/config/confdata.c:437-520):
 no stack, only the list, next and parent pointers that menu_finalize left.
 */
module MenuWalk {
  import opened MenuTree
  import opened MenuStore

  /** The entry reached from a after n next pointers. */
  function Along(s: Store, a: nat, n: nat): nat
    decreases n
  {
    if n == 0 then a else Along(s, At(s.next, a), n - 1)
  }

  /** The parent pointer of every entry names the entry whose list holds it. */
  lemma {:induction false} ParentHoldsEntry(s: Store, head: nat, p: nat, ts: seq<Tree>, k: nat) returns (n: nat)
    requires Chain(s, head, 0, p, ts) && k in Preorder(ts) && p !in Preorder(ts) && Distinct(Preorder(ts))
    ensures At(s.parent, k) == p || At(s.parent, k) in Preorder(ts)
    ensures Along(s, if At(s.parent, k) == p then head else At(s.list, At(s.parent, k)), n) == k
    decreases |Preorder(ts)|
  {
    DistinctForest(ts);
    if k == head {
      n := 0;
    } else if k in Preorder(ts[0].kids) {
      n := ParentHoldsEntry(s, At(s.list, head), head, ts[0].kids, k);
    } else {
      n := ParentHoldsEntry(s, At(s.next, head), p, ts[1..], k);
      if At(s.parent, k) == p { n := n + 1; }
    }
  }

  /** Where the walk stands: inside the list of id, behind which rest follows in the list above. */
  datatype Place = Top | Under(id: nat, rest: seq<Tree>, up: Place)

  function Owner(root: nat, c: Place): nat {
    if c.Top? then root else c.id
  }

  ghost predicate Placed(s: Store, root: nat, c: Place) {
    if c.Top? then
      root != 0 && At(s.next, root) == 0 && At(s.parent, root) == 0
    else
      && c.id != 0 && At(s.parent, c.id) == Owner(root, c.up)
      && Chain(s, At(s.next, c.id), 0, Owner(root, c.up), c.rest)
      && Placed(s, root, c.up)
  }

  /** What is still to be visited after the current list. */
  ghost function After(c: Place): seq<nat> {
    if c.Top? then [] else Preorder(c.rest) + After(c.up)
  }

  ghost predicate Standing(s: Store, root: nat, menu: nat, cur: seq<Tree>, c: Place) {
    Placed(s, root, c) && Chain(s, menu, 0, Owner(root, c), cur)
  }

  /** else while ((menu = menu->parent)) { if (menu->next) { menu = menu->next; break; } } */
  method Climb(s: Store, root: nat, last: nat, ghost c: Place)
    returns (menu: nat, ghost cur: seq<Tree>, ghost c': Place)
    requires Placed(s, root, c) && At(s.parent, last) == Owner(root, c)
    ensures menu != 0 ==> Standing(s, root, menu, cur, c')
    ensures menu == 0 ==> cur == [] && c' == Top
    ensures Preorder(cur) + After(c') == After(c)
  {
    menu, cur, c' := At(s.parent, last), [], c;
    var climbing := true;
    while menu != 0 && climbing
      invariant Preorder(cur) + After(c') == After(c)
      invariant climbing ==> cur == [] && ((menu == 0 && c' == Top) || (Placed(s, root, c') && menu == Owner(root, c')))
      invariant !climbing ==> menu != 0 && Standing(s, root, menu, cur, c')
      decreases c', menu
    {
      if At(s.next, menu) != 0 {
        assert c'.Under?;
        menu, cur, c' := At(s.next, menu), c'.rest, c'.up;
        climbing := false;
      } else {
        menu := At(s.parent, menu);
        if c'.Under? {
          assert c'.rest == [];
          assert Preorder([]) + After(c'.up) == After(c'.up);
          c' := c'.up;
        }
      }
    }
  }

  /** The loop visits the recursive preorder of the whole tree, each entry once. */
  method Walk(s: Store, root: nat, ghost ts: seq<Tree>) returns (visited: seq<nat>)
    requires Chain(s, At(s.list, root), 0, root, ts)
    requires root != 0 && At(s.next, root) == 0 && At(s.parent, root) == 0
    ensures visited == Preorder(ts)
  {
    visited := [];
    var menu := At(s.list, root);
    ghost var cur, c := ts, Top;
    while menu != 0
      invariant menu != 0 ==> Standing(s, root, menu, cur, c)
      invariant menu == 0 ==> cur == [] && c == Top
      invariant visited + (Preorder(cur) + After(c)) == Preorder(ts)
      decreases |Preorder(cur) + After(c)|
    {
      HeadOf(s, menu, Owner(root, c), cur);
      ghost var t, rest := cur[0], cur[1..];
      VisitOne(visited, t, rest, After(c));
      assert [t] + rest == cur;
      visited := visited + [menu];
      if At(s.list, menu) != 0 {
        c := Under(menu, rest, c);
        menu, cur := At(s.list, menu), t.kids;
      } else if At(s.next, menu) != 0 {
        menu, cur := At(s.next, menu), rest;
      } else {
        assert t.kids == [] && rest == [];
        assert [] + ([] + After(c)) == After(c);
        menu, cur, c := Climb(s, root, menu, c);
      }
    }
  }

  lemma {:induction false} VisitOne(visited: seq<nat>, t: Tree, rest: seq<Tree>, after: seq<nat>)
    ensures visited + (Preorder([t] + rest) + after)
         == visited + [t.id] + (Preorder(t.kids) + (Preorder(rest) + after))
  {
    PreorderCons(t, rest);
    var k, r := Preorder(t.kids), Preorder(rest);
    assert [t.id] + k + r + after == [t.id] + (k + (r + after));
    Assoc(visited, [t.id], k + (r + after));
  }

  /** Written after menu_finalize(&rootmenu), the entries come in the order of the original tree. */
  method FinalizeAndWalk(menus: Menus, root: nat, ghost t: Tree) returns (visited: seq<nat>)
    requires Chain(menus.s, root, 0, 0, [t]) && Distinct(Preorder([t]))
    modifies menus
    ensures visited == Preorder(t.kids)
    ensures menus.calls == old(menus.calls) + Preorder([t])
  {
    assert [t] + [] == [t];
    menus.Finalize(root, 0, t, []);
    RootAlone(t);
    ghost var r := MenuTree.Finalize(t, []);
    assert [r.tree] + [] == [r.tree] && [r.tree][1..] == [];
    HeadOf(menus.s, root, 0, [r.tree]);
    visited := Walk(menus.s, root, r.tree.kids);
  }

  /** With nothing behind it an entry keeps what is below it, in order. */
  lemma Uncons(x: nat, a: seq<nat>, b: seq<nat>)
    requires [x] + a + [] == [x] + b + []
    ensures a == b
  {
    assert a == ([x] + a + [])[1..] && b == ([x] + b + [])[1..];
  }

  lemma {:induction false} RootAlone(t: Tree)
    ensures var r := MenuTree.Finalize(t, []);
            r.rest == [] && Preorder(r.tree.kids) == Preorder(t.kids) && r.calls == Preorder([t])
  {
    var r := MenuTree.Finalize(t, []);
    if t.kids == [] && t.info.sym.Some? { assert Absorb(t.info, []).rest == []; }
    assert [t] + [] == [t] && [r.tree] + [] == [r.tree];
    PreorderCons(t, []);
    PreorderCons(r.tree, []);
    Uncons(t.id, Preorder(t.kids), Preorder(r.tree.kids));
  }
}
