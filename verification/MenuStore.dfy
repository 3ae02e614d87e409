/**
 menu_finalize on the linked menu entries themselves: next, list and parent
 pointers are relinked in place (scripts/config/menu.c:197-339). The walk of
 conf_write over the finished tree (scripts/config/confdata.c:437-520) reads
 the same pointers. A chain of entries spells a list of trees; the lemmas say
 what one assignment of a pointer does to the trees spelled, and the methods
 leave the pointers spelling what the functions of MenuTree give.
 */
module MenuStore {
  import opened MenuTree

  /** Every pointer of every entry; 0 is NULL. */
  datatype Store = Store(next: map<nat, nat>, list: map<nat, nat>, parent: map<nat, nat>, info: map<nat, Entry>)

  function At(m: map<nat, nat>, k: nat): nat {
    if k in m then m[k] else 0
  }

  /**
   From head to end, the next pointers run through the roots of ts, whose
   parent pointers are p and whose lists are their children.
   */
  ghost predicate Chain(s: Store, head: nat, end: nat, p: nat, ts: seq<Tree>)
    decreases |Preorder(ts)|
  {
    if ts == [] then head == end
    else
      && head == ts[0].id && head != 0
      && At(s.parent, head) == p
      && head in s.info && s.info[head] == ts[0].info
      && Chain(s, At(s.list, head), 0, head, ts[0].kids)
      && Chain(s, At(s.next, head), end, p, ts[1..])
  }

  predicate SameAt(s: Store, s': Store, k: nat) {
    && At(s.next, k) == At(s'.next, k)
    && At(s.list, k) == At(s'.list, k)
    && At(s.parent, k) == At(s'.parent, k)
    && (k in s.info <==> k in s'.info)
    && (k in s.info ==> s.info[k] == s'.info[k])
  }

  predicate Distinct(q: seq<nat>) {
    forall i, j :: 0 <= i < j < |q| ==> q[i] != q[j]
  }

  lemma DistinctParts(a: seq<nat>, b: seq<nat>)
    requires Distinct(a + b)
    ensures Distinct(a) && Distinct(b)
    ensures forall x :: x in a ==> x !in b
  {
    assert forall i :: 0 <= i < |a| ==> (a + b)[i] == a[i];
    assert forall i :: 0 <= i < |b| ==> (a + b)[|a| + i] == b[i];
  }

  /** The entries of a nonempty forest fall into its first root, that root's children, and the others. */
  lemma {:induction false} DistinctForest(ts: seq<Tree>)
    requires ts != [] && Distinct(Preorder(ts))
    ensures var id, kids, rest := ts[0].id, Preorder(ts[0].kids), Preorder(ts[1..]);
            && Distinct(kids) && Distinct(rest)
            && id !in kids && id !in rest
            && (forall x :: x in kids ==> x !in rest)
            && (forall x :: x in Preorder(ts) <==> x == id || x in kids || x in rest)
  {
    var id, kids, rest := ts[0].id, Preorder(ts[0].kids), Preorder(ts[1..]);
    DistinctParts([id] + kids, rest);
    DistinctParts([id], kids);
    assert id in [id] && id in [id] + kids;
    assert forall x :: x in kids ==> x in [id] + kids;
  }

  lemma {:induction false} ChainFrame(s: Store, s': Store, head: nat, end: nat, p: nat, ts: seq<Tree>)
    requires Chain(s, head, end, p, ts)
    requires forall k :: k in Preorder(ts) ==> SameAt(s, s', k)
    ensures Chain(s', head, end, p, ts)
    decreases |Preorder(ts)|
  {
    if ts != [] {
      assert head in Preorder(ts);
      assert SameAt(s, s', head);
      assert forall k :: k in Preorder(ts[0].kids) ==> k in Preorder(ts);
      assert forall k :: k in Preorder(ts[1..]) ==> k in Preorder(ts);
      ChainFrame(s, s', At(s.list, head), 0, head, ts[0].kids);
      ChainFrame(s, s', At(s.next, head), end, p, ts[1..]);
    }
  }

  lemma {:induction false} ChainConcat(s: Store, a: nat, b: nat, c: nat, p: nat, xs: seq<Tree>, ys: seq<Tree>)
    requires Chain(s, a, b, p, xs) && Chain(s, b, c, p, ys)
    ensures Chain(s, a, c, p, xs + ys)
    decreases |xs|
  {
    if xs == [] {
      assert xs + ys == ys;
    } else {
      ChainConcat(s, At(s.next, a), b, c, p, xs[1..], ys);
      assert (xs + ys)[1..] == xs[1..] + ys;
    }
  }

  /** Relinking the last entry of a chain. */
  lemma {:induction false} ChainRelink(s: Store, s': Store, head: nat, end: nat, end': nat, p: nat, ts: seq<Tree>,
                                       last: nat)
    requires Chain(s, head, end, p, ts) && ts != [] && Distinct(Preorder(ts))
    requires last == ts[|ts| - 1].id
    requires forall k :: k in Preorder(ts) && k != last ==> SameAt(s, s', k)
    requires SameAt(s.(next := s.next[last := end']), s', last) && At(s'.next, last) == end'
    ensures Chain(s', head, end', p, ts)
    decreases |Preorder(ts)|
  {
    DistinctForest(ts);
    if |ts| == 1 {
      assert ts[1..] == [];
      ChainFrame(s, s', At(s.list, head), 0, head, ts[0].kids);
    } else {
      LastInside(ts[1..]);
      ChainFrame(s, s', At(s.list, head), 0, head, ts[0].kids);
      ChainRelink(s, s', At(s.next, head), end, end', p, ts[1..], last);
    }
  }

  lemma {:induction false} LastInside(ts: seq<Tree>)
    requires ts != []
    ensures ts[|ts| - 1].id in Preorder(ts)
  {
    if |ts| > 1 { LastInside(ts[1..]); }
  }

  /** Changing parent and info of the first entry of a chain. */
  lemma {:induction false} UpdateHead(s: Store, s': Store, a: nat, end: nat, p: nat, ts: seq<Tree>, p': nat,
                                      info': Entry)
    requires Chain(s, a, end, p, ts) && ts != [] && Distinct(Preorder(ts))
    requires forall k :: k in Preorder(ts) && k != a ==> SameAt(s, s', k)
    requires At(s'.next, a) == At(s.next, a) && At(s'.list, a) == At(s.list, a)
    requires At(s'.parent, a) == p' && a in s'.info && s'.info[a] == info'
    ensures Chain(s', a, At(s.next, a), p', [ts[0].(info := info')])
    ensures Chain(s', At(s.next, a), end, p, ts[1..])
  {
    DistinctForest(ts);
    ChainFrame(s, s', At(s.list, a), 0, a, ts[0].kids);
    ChainFrame(s, s', At(s.next, a), end, p, ts[1..]);
  }

  /** The same, with the entries before it. */
  lemma {:induction false} UpdateMiddle(s: Store, s': Store, head: nat, a: nat, end: nat, q: nat, p: nat,
                                        done: seq<Tree>, ts: seq<Tree>, q': Entry)
    requires Chain(s, head, a, q, done) && Chain(s, a, end, p, ts) && ts != []
    requires Distinct(Preorder(done) + Preorder(ts))
    requires forall k :: k != a ==> SameAt(s, s', k)
    requires At(s'.next, a) == At(s.next, a) && At(s'.list, a) == At(s.list, a)
    requires At(s'.parent, a) == q && a in s'.info && s'.info[a] == q'
    ensures Chain(s', head, At(s.next, a), q, done + [ts[0].(info := q')])
    ensures Chain(s', At(s.next, a), end, p, ts[1..])
  {
    DistinctParts(Preorder(done), Preorder(ts));
    assert a in Preorder(ts);
    ChainFrame(s, s', head, a, q, done);
    UpdateHead(s, s', a, end, p, ts, q, q');
    ChainConcat(s', head, a, At(s.next, a), q, done, [ts[0].(info := q')]);
  }

  /** A new parent for an entry in the middle. */
  lemma {:induction false} SetParent(s: Store, head: nat, a: nat, end: nat, q: nat, p: nat, done: seq<Tree>,
                                     ts: seq<Tree>)
    requires Chain(s, head, a, q, done) && Chain(s, a, end, p, ts) && ts != []
    requires Distinct(Preorder(done) + Preorder(ts))
    ensures var s' := s.(parent := s.parent[a := q]);
            && Chain(s', head, At(s.next, a), q, done + [ts[0]])
            && Chain(s', At(s.next, a), end, p, ts[1..])
            && Within(s, s', [a])
  {
    var s' := s.(parent := s.parent[a := q]);
    assert forall k :: k != a ==> SameAt(s, s', k);
    UpdateMiddle(s, s', head, a, end, q, p, done, ts, ts[0].info);
    assert ts[0].(info := ts[0].info) == ts[0];
  }

  /** New data for an entry in the middle. */
  lemma {:induction false} SetInfo(s: Store, head: nat, a: nat, end: nat, p: nat, done: seq<Tree>, ts: seq<Tree>,
                                   x: Entry)
    requires Chain(s, head, a, p, done) && Chain(s, a, end, p, ts) && ts != []
    requires Distinct(Preorder(done) + Preorder(ts))
    ensures var s' := s.(info := s.info[a := x]);
            && Chain(s', head, At(s.next, a), p, done + [ts[0].(info := x)])
            && Chain(s', At(s.next, a), end, p, ts[1..])
            && Within(s, s', [a])
  {
    var s' := s.(info := s.info[a := x]);
    assert forall k :: k != a ==> SameAt(s, s', k);
    UpdateMiddle(s, s', head, a, end, p, p, done, ts, x);
  }

  lemma {:induction false} RewriteAllSnoc(parent: Entry, ts: seq<Tree>, t: Tree)
    ensures RewriteAll(parent, ts + [t]) == RewriteAll(parent, ts) + [t.(info := Rewrite(parent, t.info))]
  {
    if ts == [] {
      assert ts + [t] == [t];
    } else {
      RewriteAllSnoc(parent, ts[1..], t);
      assert (ts + [t])[1..] == ts[1..] + [t];
    }
  }

  lemma {:induction false} PreorderSplit(ts: seq<Tree>, i: nat)
    requires i <= |ts|
    ensures Preorder(ts) == Preorder(ts[..i]) + Preorder(ts[i..])
  {
    assert ts[..i] + ts[i..] == ts;
    PreorderConcat(ts[..i], ts[i..]);
  }

  /** Only entries of ids differ between two stores. */
  ghost predicate Within(s: Store, s': Store, ids: seq<nat>) {
    forall k :: k !in ids ==> SameAt(s, s', k)
  }

  lemma WithinTrans(s: Store, s1: Store, s2: Store, ids: seq<nat>, part: seq<nat>)
    requires Within(s, s1, ids) && Within(s1, s2, part)
    requires forall k :: k in part ==> k in ids
    ensures Within(s, s2, ids)
  {
    forall k | k !in ids ensures SameAt(s, s2, k) {
      assert k !in part;
      assert SameAt(s, s1, k) && SameAt(s1, s2, k);
    }
  }

  // ----- the first loop over parent->list -----

  ghost predicate Rewriting(s0: Store, s: Store, m: nat, e: nat, ts: seq<Tree>, i: nat) {
    && i <= |ts| && m in s0.info && SameAt(s0, s, m)
    && Distinct(Preorder(ts)) && m !in Preorder(ts)
    && Chain(s, At(s.list, m), e, m, RewriteAll(s0.info[m], ts[..i]))
    && Chain(s, e, 0, m, ts[i..])
    && Within(s0, s, Preorder(ts))
  }

  function PushInto(s: Store, m: nat, e: nat): Store
    requires m in s.info && e in s.info
  {
    s.(info := s.info[e := Rewrite(s.info[m], s.info[e])])
  }

  lemma {:induction false} RewritingHead(s0: Store, s: Store, m: nat, e: nat, ts: seq<Tree>, i: nat)
    requires Rewriting(s0, s, m, e, ts, i) && e != 0
    ensures i < |ts| && m in s.info && e in s.info && s.info[e] == ts[i].info && e != m && e in Preorder(ts)
    ensures ts[i..] != [] && ts[i..][0] == ts[i] && ts[i..][1..] == ts[i + 1..]
    ensures Distinct(Preorder(RewriteAll(s0.info[m], ts[..i])) + Preorder(ts[i..]))
  {
    assert i < |ts|;
    PreorderSplit(ts, i);
    RewriteAllPreorder(s0.info[m], ts[..i]);
    assert e in Preorder(ts[i..]);
  }

  lemma {:induction false} RewriteAllNext(parent: Entry, ts: seq<Tree>, i: nat)
    requires i < |ts|
    ensures RewriteAll(parent, ts[..i + 1])
         == RewriteAll(parent, ts[..i]) + [ts[i].(info := Rewrite(parent, ts[i].info))]
  {
    RewriteAllSnoc(parent, ts[..i], ts[i]);
    assert ts[..i + 1] == ts[..i] + [ts[i]];
  }

  lemma {:induction false} RewritingStep(s0: Store, s: Store, m: nat, e: nat, ts: seq<Tree>, i: nat)
    requires Rewriting(s0, s, m, e, ts, i) && e != 0
    ensures i < |ts| && m in s.info && e in s.info
    ensures Rewriting(s0, PushInto(s, m, e), m, At(s.next, e), ts, i + 1)
  {
    RewritingHead(s0, s, m, e, ts, i);
    var par := s0.info[m];
    var s' := PushInto(s, m, e);
    SetInfo(s, At(s.list, m), e, 0, m, RewriteAll(par, ts[..i]), ts[i..], s'.info[e]);
    RewriteAllNext(par, ts, i);
    WithinTrans(s0, s, s', Preorder(ts), [e]);
  }

  // ----- the second loop over parent->list -----

  ghost predicate Finalizing(s0: Store, s: Store, m: nat, e: nat, ts: seq<Tree>,
                             done: seq<Tree>, todo: seq<Tree>, made: seq<nat>) {
    && Distinct(Preorder(ts)) && m !in Preorder(ts) && SameAt(s0, s, m)
    && Chain(s, At(s.list, m), e, m, done) && Chain(s, e, 0, m, todo)
    && Preorder(done) + Preorder(todo) == Preorder(ts)
    && FinalizeAll(ts).list == done + FinalizeAll(todo).list
    && FinalizeAll(ts).calls == made + FinalizeAll(todo).calls
    && Within(s0, s, Preorder(ts))
  }

  lemma {:induction false} FinalizingStep(s0: Store, s: Store, s': Store, m: nat, e: nat, ts: seq<Tree>,
                                          done: seq<Tree>, todo: seq<Tree>, made: seq<nat>)
    requires Finalizing(s0, s, m, e, ts, done, todo, made) && todo != []
    requires var f := MenuTree.Finalize(todo[0], todo[1..]); Chain(s', e, 0, m, [f.tree] + f.rest)
    requires Within(s, s', Preorder(todo))
    ensures var f := MenuTree.Finalize(todo[0], todo[1..]);
            && Finalizing(s0, s', m, At(s'.next, e), ts, done + [f.tree], f.rest, made + f.calls)
            && |Preorder(f.rest)| < |Preorder(todo)|
  {
    var f := MenuTree.Finalize(todo[0], todo[1..]);
    DistinctParts(Preorder(done), Preorder(todo));
    assert [todo[0]] + todo[1..] == todo;
    assert forall k :: k in Preorder(todo) ==> k in Preorder(ts);
    ChainFrame(s, s', At(s.list, m), e, m, done);
    StepPast(s', At(s'.list, m), e, m, done, f);
    PreorderSnoc(done, f, Preorder(todo));
    FinalizeAllStep(done, made, todo);
    WithinTrans(s0, s, s', Preorder(ts), Preorder(todo));
  }

  lemma {:induction false} FinalizingEnd(s0: Store, s: Store, m: nat, ts: seq<Tree>,
                                         done: seq<Tree>, todo: seq<Tree>, made: seq<nat>)
    requires Finalizing(s0, s, m, 0, ts, done, todo, made)
    ensures Chain(s, At(s.list, m), 0, m, FinalizeAll(ts).list) && FinalizeAll(ts).calls == made
  {
    assert done + [] == done && made + [] == made;
    assert todo == [];
  }

  /** What a chain says about its first entry. */
  lemma {:induction false} HeadOf(s: Store, e: nat, p: nat, ts: seq<Tree>)
    requires Chain(s, e, 0, p, ts) && e != 0
    ensures ts != [] && e == ts[0].id && e in s.info && s.info[e] == ts[0].info
    ensures ts[0].kids == [] <==> At(s.list, e) == 0
    ensures ts[1..] == [] <==> At(s.next, e) == 0
  {
  }

  // ----- the loop over the siblings -----

  ghost predicate Absorbing(s0: Store, s: Store, m: nat, p: nat, e: nat, last: nat, rest: seq<Tree>,
                            done: seq<Tree>, todo: seq<Tree>) {
    && Distinct(Preorder(rest)) && m !in Preorder(rest) && SameAt(s0, s, m)
    && Chain(s, At(s.next, m), e, m, done) && Chain(s, e, 0, p, todo)
    && Preorder(done) + Preorder(todo) == Preorder(rest)
    && last == (if done == [] then 0 else done[|done| - 1].id)
    && Within(s0, s, Preorder(rest))
  }

  /** What is still to come completes what was absorbed so far. */
  ghost predicate AbsorbedSoFar(base: Entry, rest: seq<Tree>, done: seq<Tree>, todo: seq<Tree>, made: seq<nat>) {
    && Absorb(base, rest).list == done + Absorb(base, todo).list
    && Absorb(base, rest).calls == made + Absorb(base, todo).calls
    && Absorb(base, rest).rest == Absorb(base, todo).rest
  }

  lemma {:induction false} AbsorbingStep(s0: Store, s: Store, s': Store, m: nat, p: nat, e: nat, last: nat,
                                         rest: seq<Tree>, done: seq<Tree>, todo: seq<Tree>)
    requires Absorbing(s0, s, m, p, e, last, rest, done, todo)
    requires todo != []
    requires var f := MenuTree.Finalize(todo[0], todo[1..]); Chain(s', e, 0, p, [f.tree] + f.rest)
    requires Within(s, s', Preorder(todo))
    ensures var f := MenuTree.Finalize(todo[0], todo[1..]);
            var s2 := s'.(parent := s'.parent[e := m]);
            && Absorbing(s0, s2, m, p, At(s2.next, e), e, rest, done + [f.tree], f.rest)
            && |Preorder(f.rest)| < |Preorder(todo)|
  {
    var f := MenuTree.Finalize(todo[0], todo[1..]);
    var s2 := s'.(parent := s'.parent[e := m]);
    DistinctParts(Preorder(done), Preorder(todo));
    assert [todo[0]] + todo[1..] == todo;
    assert forall k :: k in Preorder(todo) ==> k in Preorder(rest);
    assert e in Preorder(todo);
    ChainFrame(s, s', At(s.next, m), e, m, done);
    PreorderSnoc(done, f, Preorder(todo));
    SetParent(s', At(s'.next, m), e, 0, m, p, done, [f.tree] + f.rest);
    assert ([f.tree] + f.rest)[1..] == f.rest;
    WithinTrans(s0, s, s', Preorder(rest), Preorder(todo));
    WithinTrans(s0, s', s2, Preorder(rest), [e]);
  }

  /** parent->list = parent->next; parent->next = last_menu->next; last_menu->next = NULL; */
  function TakeIn(s: Store, m: nat, last: nat): Store {
    var s1 := s.(list := s.list[m := At(s.next, m)], next := s.next[m := At(s.next, last)]);
    s1.(next := s1.next[last := 0])
  }

  lemma {:induction false} AbsorbingEnd(s0: Store, s: Store, m: nat, p: nat, e: nat, last: nat, rest: seq<Tree>,
                                        done: seq<Tree>, todo: seq<Tree>)
    requires Absorbing(s0, s, m, p, e, last, rest, done, todo)
    requires At(s0.list, m) == 0
    ensures var s' := if last == 0 then s else TakeIn(s, m, last);
            && Chain(s', At(s'.list, m), 0, m, done) && Chain(s', At(s'.next, m), 0, p, todo)
            && At(s'.parent, m) == At(s0.parent, m)
            && (m in s0.info ==> m in s'.info && s'.info[m] == s0.info[m])
            && Within(s0, s', [m] + Preorder(rest))
  {
    if done != [] {
      NonZero(s, At(s.next, m), e, m, done);
      LastInside(done);
      assert last in Preorder(rest);
      TakeInChains(s, m, p, e, last, done, todo);
    }
  }

  lemma {:induction false} AbsorbedEnd(base: Entry, rest: seq<Tree>, done: seq<Tree>, todo: seq<Tree>, made: seq<nat>)
    requires AbsorbedSoFar(base, rest, done, todo, made)
    requires todo == [] || !Absorbs(base, todo[0].info)
    ensures Absorb(base, rest) == ListResult(done, todo, made)
  {
    assert Absorb(base, todo) == ListResult([], todo, []);
    assert done + [] == done && made + [] == made;
  }

  lemma {:induction false} TakeInChains(s: Store, m: nat, p: nat, e: nat, last: nat, done: seq<Tree>, todo: seq<Tree>)
    requires Chain(s, At(s.next, m), e, m, done) && Chain(s, e, 0, p, todo)
    requires Distinct(Preorder(done) + Preorder(todo)) && m !in Preorder(done) && m !in Preorder(todo)
    requires done != [] && last == done[|done| - 1].id
    ensures var s' := TakeIn(s, m, last);
            At(s'.next, m) == e && Chain(s', At(s'.list, m), 0, m, done) && Chain(s', e, 0, p, todo)
  {
    var s' := TakeIn(s, m, last);
    LastInside(done);
    DistinctParts(Preorder(done), Preorder(todo));
    LastNext(s, At(s.next, m), e, m, done);
    ChainRelink(s, s', At(s.next, m), e, 0, m, done, last);
    ChainFrame(s, s', e, 0, p, todo);
  }

  lemma {:induction false} NonZero(s: Store, head: nat, end: nat, p: nat, ts: seq<Tree>)
    requires Chain(s, head, end, p, ts) && ts != []
    ensures ts[|ts| - 1].id != 0
    decreases |ts|
  {
    if |ts| > 1 { NonZero(s, At(s.next, head), end, p, ts[1..]); }
  }

  // ----- the last loop over parent->list -----

  /** Setting the parent of the children of e to m, up to child i. */
  ghost predicate Reparenting(s0: Store, s: Store, e: nat, m: nat, last: nat, kids: seq<Tree>, i: nat) {
    && i < |kids| && last == kids[i].id && Distinct(Preorder(kids)) && e !in Preorder(kids)
    && Chain(s, At(s.list, e), At(s.next, last), m, kids[..i + 1])
    && Chain(s, At(s.next, last), 0, e, kids[i + 1..])
    && s.next == s0.next && s.list == s0.list && s.info == s0.info
    && Within(s0, s, Preorder(kids))
  }

  lemma {:induction false} ReparentingStart(s: Store, e: nat, m: nat, kids: seq<Tree>)
    requires Chain(s, At(s.list, e), 0, e, kids) && kids != [] && Distinct(Preorder(kids)) && e !in Preorder(kids)
    ensures var last := At(s.list, e);
            Reparenting(s, s.(parent := s.parent[last := m]), e, m, last, kids, 0)
  {
    var last := At(s.list, e);
    var s' := s.(parent := s.parent[last := m]);
    assert last in Preorder(kids);
    assert Preorder([]) + Preorder(kids) == Preorder(kids);
    SetParent(s, last, last, 0, m, e, [], kids);
    assert [] + [kids[0]] == kids[..1];
  }

  lemma {:induction false} ReparentingStep(s0: Store, s: Store, e: nat, m: nat, last: nat, kids: seq<Tree>, i: nat)
    requires Reparenting(s0, s, e, m, last, kids, i) && At(s.next, last) != 0
    ensures var x := At(s.next, last);
            i + 1 < |kids| && Reparenting(s0, s.(parent := s.parent[x := m]), e, m, x, kids, i + 1)
  {
    var x := At(s.next, last);
    assert i + 1 < |kids|;
    var s' := s.(parent := s.parent[x := m]);
    PreorderSplit(kids, i + 1);
    assert x in Preorder(kids[i + 1..]);
    SetParent(s, At(s.list, e), x, 0, m, e, kids[..i + 1], kids[i + 1..]);
    assert kids[..i + 1] + [kids[i + 1]] == kids[..i + 2];
    assert kids[i + 1..][1..] == kids[i + 2..];
    WithinTrans(s0, s, s', Preorder(kids), [x]);
  }

  /** last_menu->next = menu->next; menu->next = menu->list; menu->list = NULL; */
  function LinkIn(s: Store, e: nat, last: nat): Store {
    var s1 := s.(next := s.next[last := At(s.next, e)]);
    s1.(next := s1.next[e := At(s1.list, e)], list := s1.list[e := 0])
  }

  lemma {:induction false} ReparentingEnd(s0: Store, s: Store, e: nat, m: nat, last: nat, t: Tree, rest: seq<Tree>,
                                          i: nat)
    requires Chain(s0, e, 0, m, [t] + rest) && Distinct(Preorder([t] + rest))
    requires Reparenting(s0, s, e, m, last, t.kids, i) && At(s.next, last) == 0
    ensures var s' := LinkIn(s, e, last);
            && Chain(s', e, At(s'.next, e), m, [t.(kids := [])])
            && Chain(s', At(s'.next, e), 0, m, t.kids + rest)
            && Within(s0, s', Preorder([t] + rest))
  {
    var kids, s' := t.kids, LinkIn(s, e, last);
    assert ([t] + rest)[1..] == rest;
    PreorderCons(t, rest);
    DistinctForest([t] + rest);
    assert i + 1 == |kids| && kids[..i + 1] == kids;
    LastInside(kids);
    var after := At(s0.next, e);
    assert SameAt(s0, s, e);
    ChainRelink(s, s', At(s.list, e), 0, after, m, kids, last);
    ChainFrame(s0, s', after, 0, m, rest);
    ChainConcat(s', At(s'.next, e), after, 0, m, kids, rest);
  }

  ghost predicate Hoisting(s0: Store, s: Store, m: nat, e: nat, ts: seq<Tree>, done: seq<Tree>, todo: seq<Tree>) {
    && Distinct(Preorder(ts)) && m !in Preorder(ts) && SameAt(s0, s, m)
    && Chain(s, At(s.list, m), e, m, done) && Chain(s, e, 0, m, todo)
    && Preorder(done) + Preorder(todo) == Preorder(ts)
    && Hoist(ts) == done + Hoist(todo)
    && Within(s0, s, Preorder(ts))
  }

  lemma {:induction false} HoistingKept(s0: Store, s: Store, m: nat, e: nat, ts: seq<Tree>, done: seq<Tree>,
                                        todo: seq<Tree>)
    requires Hoisting(s0, s, m, e, ts, done, todo) && todo != [] && !MovesUp(todo[0])
    ensures Hoisting(s0, s, m, At(s.next, e), ts, done + [todo[0]], todo[1..])
    ensures |Preorder(todo[1..])| < |Preorder(todo)|
  {
    assert [todo[0]] + todo[1..] == todo;
    HoistKept(done, todo[0], todo[1..]);
    ChainConcat(s, At(s.list, m), e, At(s.next, e), m, done, [todo[0]]);
  }

  lemma {:induction false} HoistingSpliced(s0: Store, s: Store, s': Store, m: nat, e: nat, ts: seq<Tree>,
                                           done: seq<Tree>, todo: seq<Tree>)
    requires Hoisting(s0, s, m, e, ts, done, todo) && todo != [] && MovesUp(todo[0])
    requires Chain(s', e, At(s'.next, e), m, [todo[0].(kids := [])])
    requires Chain(s', At(s'.next, e), 0, m, todo[0].kids + todo[1..])
    requires Within(s, s', Preorder(todo))
    ensures Hoisting(s0, s', m, At(s'.next, e), ts, done + [todo[0].(kids := [])], todo[0].kids + todo[1..])
    ensures |Preorder(todo[0].kids + todo[1..])| < |Preorder(todo)|
  {
    assert [todo[0]] + todo[1..] == todo;
    HoistSpliced(done, todo[0], todo[1..]);
    PreorderSpliced(done, todo[0], todo[1..]);
    DistinctParts(Preorder(done), Preorder(todo));
    assert forall k :: k in Preorder(todo) ==> k in Preorder(ts);
    ChainFrame(s, s', At(s.list, m), e, m, done);
    ChainConcat(s', At(s'.list, m), e, At(s'.next, e), m, done, [todo[0].(kids := [])]);
    WithinTrans(s0, s, s', Preorder(ts), Preorder(todo));
  }

  class Menus {
    var s: Store
    var calls: seq<nat>  // the entries menu_finalize was called on, in order

    /** menu_finalize(m), where m stands in the list of p and the other trees follow it. */
    method Finalize(m: nat, ghost p: nat, ghost t: Tree, ghost rest: seq<Tree>)
      requires Chain(s, m, 0, p, [t] + rest) && Distinct(Preorder([t] + rest))
      modifies this
      ensures var r := MenuTree.Finalize(t, rest);
              Chain(s, m, 0, p, [r.tree] + r.rest) && calls == old(calls) + r.calls
      ensures Within(old(s), s, Preorder([t] + rest))
      decreases |Preorder([t] + rest)|, 0
    {
      calls := calls + [m];
      FinalizeStart(s, m, p, t, rest);
      if At(s.list, m) != 0 {
        FinalizeList(m, t.kids);
        ghost var l := MenuTree.FinalizeAll(RewriteAll(t.info, t.kids));
        FinalizeEnd(old(s), s, m, p, t, l.list, rest);
        Assoc(old(calls), [m], l.calls);
      } else if s.info[m].sym.Some? {
        FinalizeAlone(m, p, t, rest);
        Assoc(old(calls), [m], MenuTree.Absorb(t.info, rest).calls);
      }
    }

    /** An entry with a symbol and no list: siblings are taken in, and those without a prompt are hoisted. */
    method FinalizeAlone(m: nat, ghost p: nat, ghost t: Tree, ghost rest: seq<Tree>)
      requires m == t.id && m != 0 && m in s.info && s.info[m] == t.info && At(s.parent, m) == p
      requires At(s.list, m) == 0 && Chain(s, At(s.next, m), 0, p, rest) && Distinct([m] + Preorder(rest))
      modifies this
      ensures var l := MenuTree.Absorb(t.info, rest);
              Chain(s, m, 0, p, [t.(kids := Hoist(l.list))] + l.rest) && calls == old(calls) + l.calls
      ensures Within(old(s), s, [m] + Preorder(rest))
      decreases |Preorder(rest)|, 4
    {
      DistinctParts([m], Preorder(rest));
      assert m in [m];
      AbsorbSiblings(m, p, t, rest);
      ghost var s1, l := s, MenuTree.Absorb(t.info, rest);
      AbsorbedDistinct(t, l);
      HoistKids(m, l.list);
      FinalizeEnd(s1, s, m, p, t, l.list, l.rest);
      WithinTrans(old(s), s1, s, [m] + Preorder(rest), Preorder(l.list));
    }

    /** An entry with a list: push down, finalize, hoist. */
    method FinalizeList(m: nat, ghost kids: seq<Tree>)
      requires m in s.info && Chain(s, At(s.list, m), 0, m, kids)
      requires Distinct(Preorder(kids)) && m !in Preorder(kids)
      modifies this
      ensures var r := MenuTree.FinalizeAll(RewriteAll(old(s).info[m], kids));
              Chain(s, At(s.list, m), 0, m, Hoist(r.list)) && calls == old(calls) + r.calls
      ensures Within(old(s), s, Preorder(kids))
      decreases |Preorder(kids)|, 3
    {
      ghost var par := s.info[m];
      RewriteKids(m, kids);
      RewriteAllPreorder(par, kids);
      FinalizeKids(m, RewriteAll(par, kids));
      HoistKids(m, MenuTree.FinalizeAll(RewriteAll(par, kids)).list);
    }

    /** The first loop over parent->list: dependencies are pushed into the children. */
    method RewriteKids(m: nat, ghost kids: seq<Tree>)
      requires m in s.info && Chain(s, At(s.list, m), 0, m, kids)
      requires Distinct(Preorder(kids)) && m !in Preorder(kids)
      modifies this`s
      ensures Chain(s, At(s.list, m), 0, m, RewriteAll(old(s).info[m], kids))
      ensures Within(old(s), s, Preorder(kids))
    {
      var e := At(s.list, m);
      ghost var i := 0;
      assert kids[..0] == [] && kids[0..] == kids;
      while e != 0
        invariant Rewriting(old(s), s, m, e, kids, i)
        decreases |kids| - i
      {
        RewritingStep(old(s), s, m, e, kids, i);
        var e' := At(s.next, e);
        s := PushInto(s, m, e);
        e, i := e', i + 1;
      }
      assert kids[i..] == [] && kids[..i] == kids;
    }

    /** The second loop over parent->list: every entry still standing there is finalized. */
    method FinalizeKids(m: nat, ghost ts: seq<Tree>)
      requires Chain(s, At(s.list, m), 0, m, ts)
      requires Distinct(Preorder(ts)) && m !in Preorder(ts)
      modifies this
      ensures var r := MenuTree.FinalizeAll(ts);
              Chain(s, At(s.list, m), 0, m, r.list) && calls == old(calls) + r.calls
      ensures Within(old(s), s, Preorder(ts))
      decreases |Preorder(ts)|, 2
    {
      var e := At(s.list, m);
      ghost var done, todo, made := [], ts, [];
      while e != 0
        invariant Finalizing(old(s), s, m, e, ts, done, todo, made)
        invariant calls == old(calls) + made
        decreases |Preorder(todo)|
      {
        assert todo != [];
        FinalizeOne(m, e, old(s), ts, done, todo, made);
        ghost var f := MenuTree.Finalize(todo[0], todo[1..]);
        Assoc(old(calls), made, f.calls);
        done, todo, made := done + [f.tree], f.rest, made + f.calls;
        e := At(s.next, e);
      }
      FinalizingEnd(old(s), s, m, ts, done, todo, made);
    }

    method FinalizeOne(m: nat, e: nat, ghost s0: Store, ghost ts: seq<Tree>,
                       ghost done: seq<Tree>, ghost todo: seq<Tree>, ghost made: seq<nat>)
      requires Finalizing(s0, s, m, e, ts, done, todo, made) && todo != []
      modifies this
      ensures var f := MenuTree.Finalize(todo[0], todo[1..]);
              && Finalizing(s0, s, m, At(s.next, e), ts, done + [f.tree], f.rest, made + f.calls)
              && calls == old(calls) + f.calls
              && |Preorder(f.rest)| < |Preorder(todo)|
      decreases |Preorder(ts)|, 1
    {
      FinalizingPart(done, todo, ts);
      Finalize(e, m, todo[0], todo[1..]);
      FinalizingStep(s0, old(s), s, m, e, ts, done, todo, made);
    }

    /** The siblings behind m, and the relinking after the loop over them. */
    method AbsorbSiblings(m: nat, ghost p: nat, ghost t: Tree, ghost rest: seq<Tree>)
      requires m in s.info && s.info[m] == t.info && At(s.list, m) == 0
      requires Chain(s, At(s.next, m), 0, p, rest) && Distinct(Preorder(rest)) && m !in Preorder(rest)
      modifies this
      ensures var r := MenuTree.Absorb(t.info, rest);
              && Chain(s, At(s.list, m), 0, m, r.list)
              && Chain(s, At(s.next, m), 0, p, r.rest)
              && calls == old(calls) + r.calls
      ensures At(s.parent, m) == At(old(s).parent, m) && m in s.info && s.info[m] == t.info
      ensures Within(old(s), s, [m] + Preorder(rest))
      decreases |Preorder(rest)|, 3
    {
      var last, e := AbsorbLoop(m, p, t, rest);
      ghost var r := MenuTree.Absorb(t.info, rest);
      AbsorbingEnd(old(s), s, m, p, e, last, rest, r.list, r.rest);
      if last != 0 {
        s := TakeIn(s, m, last);
      }
    }

    /** The loop over the siblings: where it stops, and the last one absorbed. */
    method AbsorbLoop(m: nat, ghost p: nat, ghost t: Tree, ghost rest: seq<Tree>) returns (last: nat, e: nat)
      requires m in s.info && s.info[m] == t.info
      requires Chain(s, At(s.next, m), 0, p, rest) && Distinct(Preorder(rest)) && m !in Preorder(rest)
      modifies this
      ensures var r := MenuTree.Absorb(t.info, rest);
              Absorbing(old(s), s, m, p, e, last, rest, r.list, r.rest) && calls == old(calls) + r.calls
      decreases |Preorder(rest)|, 2
    {
      e, last := At(s.next, m), 0;
      ghost var done, todo, made := [], rest, [];
      while e != 0
        invariant Absorbing(old(s), s, m, p, e, last, rest, done, todo)
        invariant AbsorbedSoFar(t.info, rest, done, todo, made)
        invariant calls == old(calls) + made
        decreases |Preorder(todo)|
      {
        HeadOf(s, e, p, todo);
        if !Absorbs(s.info[m], s.info[e]) {
          break;
        }
        AbsorbOne(m, e, p, last, old(s), rest, done, todo);
        AbsorbStep(t.info, rest, done, todo, made);
        last := e;
        ghost var f := MenuTree.Finalize(todo[0], todo[1..]);
        Assoc(old(calls), made, f.calls);
        done, todo, made := done + [f.tree], f.rest, made + f.calls;
        e := At(s.next, e);
      }
      AbsorbedEnd(t.info, rest, done, todo, made);
    }

    /** One sibling: it is finalized, which may take in entries behind it, and gets m as its parent. */
    method AbsorbOne(m: nat, e: nat, ghost p: nat, ghost last: nat, ghost s0: Store, ghost rest: seq<Tree>,
                     ghost done: seq<Tree>, ghost todo: seq<Tree>)
      requires Absorbing(s0, s, m, p, e, last, rest, done, todo) && todo != []
      modifies this
      ensures var f := MenuTree.Finalize(todo[0], todo[1..]);
              && Absorbing(s0, s, m, p, At(s.next, e), e, rest, done + [f.tree], f.rest)
              && calls == old(calls) + f.calls
              && |Preorder(f.rest)| < |Preorder(todo)|
      decreases |Preorder(rest)|, 1
    {
      FinalizingPart(done, todo, rest);
      Finalize(e, p, todo[0], todo[1..]);
      AbsorbingStep(s0, old(s), s, m, p, e, last, rest, done, todo);
      s := s.(parent := s.parent[e := m]);
    }

    /** The last loop over parent->list: children of entries without a prompt text move up. */
    method HoistKids(m: nat, ghost ts: seq<Tree>)
      requires Chain(s, At(s.list, m), 0, m, ts)
      requires Distinct(Preorder(ts)) && m !in Preorder(ts)
      modifies this`s
      ensures Chain(s, At(s.list, m), 0, m, Hoist(ts))
      ensures SameAt(old(s), s, m) && Within(old(s), s, Preorder(ts))
    {
      var e := At(s.list, m);
      ghost var done, todo := [], ts;
      while e != 0
        invariant Hoisting(old(s), s, m, e, ts, done, todo)
        decreases |Preorder(todo)|
      {
        HeadOf(s, e, m, todo);
        if At(s.list, e) != 0 && (s.info[e].prompt.None? || !s.info[e].prompt.value.text) {
          ghost var s0 := s;
          FinalizingPart(done, todo, ts);
          Splice(e, m, todo[0], todo[1..]);
          HoistingSpliced(old(s), s0, s, m, e, ts, done, todo);
          done, todo := done + [todo[0].(kids := [])], todo[0].kids + todo[1..];
        } else {
          HoistingKept(old(s), s, m, e, ts, done, todo);
          done, todo := done + [todo[0]], todo[1..];
        }
        e := At(s.next, e);
      }
      assert done + [] == done;
    }

    /** The children of e get parent m and are linked in behind e. */
    method Splice(e: nat, m: nat, ghost t: Tree, ghost rest: seq<Tree>)
      requires Chain(s, e, 0, m, [t] + rest) && Distinct(Preorder([t] + rest)) && At(s.list, e) != 0
      modifies this`s
      ensures Chain(s, e, At(s.next, e), m, [t.(kids := [])]) && Chain(s, At(s.next, e), 0, m, t.kids + rest)
      ensures Within(old(s), s, Preorder([t] + rest))
    {
      FinalizeStart(s, e, m, t, rest);
      var last := At(s.list, e);
      ghost var i := 0;
      ReparentingStart(s, e, m, t.kids);
      s := s.(parent := s.parent[last := m]);
      while At(s.next, last) != 0
        invariant Reparenting(old(s), s, e, m, last, t.kids, i)
        decreases |t.kids| - i
      {
        ReparentingStep(old(s), s, e, m, last, t.kids, i);
        last := At(s.next, last);
        s := s.(parent := s.parent[last := m]);
        i := i + 1;
      }
      ReparentingEnd(old(s), s, e, m, last, t, rest, i);
      s := LinkIn(s, e, last);
    }
  }

  lemma {:induction false} FinalizeStart(s: Store, m: nat, p: nat, t: Tree, rest: seq<Tree>)
    requires Chain(s, m, 0, p, [t] + rest) && Distinct(Preorder([t] + rest))
    ensures m == t.id && m != 0 && m in s.info && s.info[m] == t.info && At(s.parent, m) == p
    ensures Chain(s, At(s.list, m), 0, m, t.kids) && Chain(s, At(s.next, m), 0, p, rest)
    ensures Distinct(Preorder(t.kids)) && m !in Preorder(t.kids)
    ensures Distinct(Preorder(rest)) && m !in Preorder(rest)
    ensures |Preorder(t.kids)| < |Preorder([t] + rest)| && |Preorder(rest)| < |Preorder([t] + rest)|
    ensures t.kids == [] <==> At(s.list, m) == 0
    ensures forall x :: x in Preorder(rest) ==> x !in Preorder(t.kids)
    ensures Preorder([t] + rest) == [t.id] + Preorder(t.kids) + Preorder(rest)
  {
    assert ([t] + rest)[1..] == rest;
    PreorderCons(t, rest);
    DistinctForest([t] + rest);
  }

  lemma {:induction false} FinalizeEnd(s0: Store, s: Store, m: nat, p: nat, t: Tree,
                                       list: seq<Tree>, rest: seq<Tree>)
    requires m == t.id && m != 0 && m in s.info && s.info[m] == t.info && At(s.parent, m) == p
    requires At(s0.next, m) == At(s.next, m) && Chain(s0, At(s0.next, m), 0, p, rest)
    requires Chain(s, At(s.list, m), 0, m, Hoist(list))
    requires forall k :: k in Preorder(rest) ==> SameAt(s0, s, k)
    ensures Chain(s, m, 0, p, [t.(kids := Hoist(list))] + rest)
  {
    ChainFrame(s0, s, At(s.next, m), 0, p, rest);
    ChainConcat(s, m, At(s.next, m), 0, p, [t.(kids := Hoist(list))], rest);
  }

  lemma {:induction false} FinalizingPart(done: seq<Tree>, todo: seq<Tree>, ts: seq<Tree>)
    requires Preorder(done) + Preorder(todo) == Preorder(ts) && Distinct(Preorder(ts))
    ensures Distinct(Preorder(todo)) && |Preorder(todo)| <= |Preorder(ts)|
    ensures todo != [] ==> [todo[0]] + todo[1..] == todo
  {
    DistinctParts(Preorder(done), Preorder(todo));
  }

  lemma {:induction false} AbsorbedDistinct(t: Tree, l: ListResult)
    requires Distinct([t.id] + (Preorder(l.list) + Preorder(l.rest)))
    ensures Distinct(Preorder(l.list)) && t.id !in Preorder(l.list) && t.id !in Preorder(l.rest)
    ensures forall x :: x in Preorder(l.rest) ==> x !in Preorder(l.list)
  {
    DistinctParts([t.id], Preorder(l.list) + Preorder(l.rest));
    DistinctParts(Preorder(l.list), Preorder(l.rest));
    assert t.id in [t.id];
  }

  lemma {:induction false} StepPast(s: Store, head: nat, e: nat, p: nat, done: seq<Tree>, f: Result)
    requires Chain(s, head, e, p, done) && Chain(s, e, 0, p, [f.tree] + f.rest)
    ensures Chain(s, head, At(s.next, e), p, done + [f.tree]) && Chain(s, At(s.next, e), 0, p, f.rest)
  {
    assert ([f.tree] + f.rest)[1..] == f.rest;
    ChainConcat(s, head, e, At(s.next, e), p, done, [f.tree]);
  }

  lemma {:induction false} PreorderSnoc(done: seq<Tree>, f: Result, todo: seq<nat>)
    requires Preorder([f.tree] + f.rest) == todo
    ensures Preorder(done + [f.tree]) + Preorder(f.rest) == Preorder(done) + todo
    ensures |Preorder(f.rest)| < |todo|
  {
    PreorderConcat(done, [f.tree]);
    PreorderConcat([f.tree], f.rest);
    PreorderCons(f.tree, f.rest);
    Assoc(Preorder(done), Preorder([f.tree]), Preorder(f.rest));
  }

  lemma {:induction false} FinalizeAllStep(done: seq<Tree>, made: seq<nat>, todo: seq<Tree>)
    requires todo != []
    ensures var f, l := MenuTree.Finalize(todo[0], todo[1..]), MenuTree.FinalizeAll(todo);
            var l' := MenuTree.FinalizeAll(f.rest);
            done + l.list == done + [f.tree] + l'.list && made + l.calls == made + f.calls + l'.calls
  {
    var f := MenuTree.Finalize(todo[0], todo[1..]);
    var l' := MenuTree.FinalizeAll(f.rest);
    Assoc(done, [f.tree], l'.list);
    Assoc(made, f.calls, l'.calls);
  }

  lemma {:induction false} AbsorbStep(base: Entry, rest: seq<Tree>, done: seq<Tree>, todo: seq<Tree>, made: seq<nat>)
    requires AbsorbedSoFar(base, rest, done, todo, made)
    requires todo != [] && Absorbs(base, todo[0].info)
    ensures var f := MenuTree.Finalize(todo[0], todo[1..]);
            AbsorbedSoFar(base, rest, done + [f.tree], f.rest, made + f.calls)
  {
    var f := MenuTree.Finalize(todo[0], todo[1..]);
    var l' := MenuTree.Absorb(base, f.rest);
    Assoc(done, [f.tree], l'.list);
    Assoc(made, f.calls, l'.calls);
  }

  lemma {:induction false} LastNext(s: Store, head: nat, end: nat, p: nat, ts: seq<Tree>)
    requires Chain(s, head, end, p, ts) && ts != []
    ensures At(s.next, ts[|ts| - 1].id) == end
    decreases |ts|
  {
    if |ts| > 1 { LastNext(s, At(s.next, head), end, p, ts[1..]); }
  }

  lemma {:induction false} HoistSpliced(done: seq<Tree>, t: Tree, rest: seq<Tree>)
    requires MovesUp(t)
    ensures done + Hoist([t] + rest) == done + [t.(kids := [])] + Hoist(t.kids + rest)
  {
    assert ([t] + rest)[1..] == rest;
    Assoc(done, [t.(kids := [])], Hoist(t.kids + rest));
  }

  lemma {:induction false} PreorderSpliced(done: seq<Tree>, t: Tree, rest: seq<Tree>)
    ensures Preorder(done) + Preorder([t] + rest) == Preorder(done + [t.(kids := [])]) + Preorder(t.kids + rest)
    ensures |Preorder(t.kids + rest)| < |Preorder([t] + rest)|
  {
    var t' := t.(kids := []);
    PreorderConcat(done, [t']);
    PreorderConcat(t.kids, rest);
    PreorderCons(t, rest);
    assert Preorder([t']) == [t.id] by {
      PreorderCons(t', []);
      assert [t'] + [] == [t'];
    }
    Assoc([t.id], Preorder(t.kids), Preorder(rest));
    Assoc(Preorder(done), [t.id], Preorder(t.kids) + Preorder(rest));
  }

  lemma {:induction false} HoistKept(done: seq<Tree>, t: Tree, rest: seq<Tree>)
    requires !MovesUp(t)
    ensures done + Hoist([t] + rest) == done + [t] + Hoist(rest)
    ensures Preorder(done) + Preorder([t] + rest) == Preorder(done + [t]) + Preorder(rest)
    ensures |Preorder(rest)| < |Preorder([t] + rest)|
  {
    assert ([t] + rest)[1..] == rest;
    Assoc(done, [t], Hoist(rest));
    PreorderConcat(done, [t]);
    PreorderConcat([t], rest);
    PreorderCons(t, rest);
    Assoc(Preorder(done), Preorder([t]), Preorder(rest));
  }
}
