/** Finite graphs over symbols: paths, cycles, orders of use and ranks. */
module Graphs {
  import opened Expressions

  /** From each node the nodes it uses. */
  type Graph = map<Symbol, set<Symbol>>

  function Edges(g: Graph, s: Symbol): set<Symbol> {
    if s in g then g[s] else {}
  }

  ghost predicate Path(g: Graph, p: seq<Symbol>) {
    forall i, j :: 0 <= i < j < |p| && j == i + 1 ==> p[j] in Edges(g, p[i])
  }

  ghost predicate Cycle(g: Graph, p: seq<Symbol>) {
    p != [] && Path(g, p) && p[0] in Edges(g, p[|p| - 1])
  }

  ghost predicate Acyclic(g: Graph) {
    forall p :: !Cycle(g, p)
  }

  ghost predicate Before(done: seq<Symbol>, i: nat, s: Symbol)
    requires i <= |done|
  {
    exists j :: 0 <= j < i && done[j] == s
  }

  /** Every symbol comes after all that it uses. */
  ghost predicate Ordered(g: Graph, done: seq<Symbol>) {
    forall i, s :: 0 <= i < |done| && s in Edges(g, done[i]) ==> Before(done, i, s)
  }

  /** Numbers that go down along every edge. */
  ghost predicate Decreasing(g: Graph, rank: Symbol -> nat) {
    forall s, x :: s in g && x in g[s] ==> rank(x) < rank(s)
  }

  // ----- an order excludes cycles -----

  /** A symbol in such an order starts no path longer than its place. */
  lemma {:induction false} OrderedPath(g: Graph, done: seq<Symbol>, i: nat, p: seq<Symbol>)
    requires Ordered(g, done) && i < |done|
    requires Path(g, p) && p != [] && p[0] == done[i]
    ensures |p| <= i + 1
    decreases |p|
  {
    if |p| > 1 {
      assert p[1] in Edges(g, p[0]);
      assert Before(done, i, p[1]);
      var j :| 0 <= j < i && done[j] == p[1];
      OrderedPath(g, done, j, p[1..]);
    }
  }

  function Repeat(p: seq<Symbol>, n: nat): (r: seq<Symbol>)
    ensures |r| == |p| * n
  {
    if n == 0 then [] else p + Repeat(p, n - 1)
  }

  lemma {:induction false} RepeatPath(g: Graph, p: seq<Symbol>, n: nat)
    requires Cycle(g, p) && n > 0
    ensures Path(g, Repeat(p, n)) && Repeat(p, n) != [] && Repeat(p, n)[0] == p[0] && |Repeat(p, n)| >= n
  {
    if n > 1 {
      RepeatPath(g, p, n - 1);
    } else {
      assert Repeat(p, 0) == [];
      assert p + [] == p;
    }
  }

  lemma CycleStarts(g: Graph, p: seq<Symbol>)
    requires Cycle(g, p)
    ensures p[0] in g
  {
    if |p| > 1 { assert p[1] in Edges(g, p[0]); }
  }

  lemma {:induction false} OrderedMeansNoCycle(g: Graph, done: seq<Symbol>, p: seq<Symbol>)
    requires Ordered(g, done) && forall s :: s in g ==> s in done
    ensures !Cycle(g, p)
  {
    if Cycle(g, p) {
      CycleStarts(g, p);
      var i :| 0 <= i < |done| && done[i] == p[0];
      RepeatPath(g, p, i + 2);
      OrderedPath(g, done, i, Repeat(p, i + 2));
    }
  }

  // ----- without cycles there is an order -----

  ghost predicate Leads(g: Graph, nodes: set<Symbol>, s: Symbol) {
    exists x :: x in nodes && x in Edges(g, s)
  }

  /** Every node has an edge to another one of the set. */
  ghost predicate Endless(g: Graph, nodes: set<Symbol>) {
    forall s {:trigger Leads(g, nodes, s)} :: s in nodes ==> Leads(g, nodes, s)
  }

  /** Inside such a set paths can be made as long as one likes. */
  lemma {:induction false} LongPath(g: Graph, nodes: set<Symbol>, n: nat) returns (p: seq<Symbol>)
    requires nodes != {} && n > 0 && Endless(g, nodes)
    ensures |p| == n && Path(g, p) && forall i :: 0 <= i < n ==> p[i] in nodes
  {
    if n == 1 {
      var s :| s in nodes;
      p := [s];
    } else {
      var q := LongPath(g, nodes, n - 1);
      assert Leads(g, nodes, q[n - 2]);
      var x :| x in nodes && x in Edges(g, q[n - 2]);
      p := q + [x];
    }
  }

  /** A sequence longer than the set it stays in repeats itself. */
  lemma {:induction false} Pigeon(nodes: set<Symbol>, p: seq<Symbol>) returns (i: nat, j: nat)
    requires |p| > |nodes| && forall k :: 0 <= k < |p| ==> p[k] in nodes
    ensures i < j < |p| && p[i] == p[j]
    decreases |p|
  {
    var n := |p| - 1;
    if k :| 0 <= k < n && p[k] == p[n] {
      i, j := k, n;
    } else {
      i, j := Pigeon(nodes - {p[n]}, p[..n]);
    }
  }

  lemma CycleInside(g: Graph, nodes: set<Symbol>) returns (p: seq<Symbol>)
    requires nodes != {} && Endless(g, nodes)
    ensures Cycle(g, p)
  {
    var q := LongPath(g, nodes, |nodes| + 1);
    var i, j := Pigeon(nodes, q);
    p := q[i..j];
    assert q[j] in Edges(g, q[j - 1]);
  }

  /** Without cycles some node has no edge to the others. */
  lemma FirstNode(g: Graph, nodes: set<Symbol>) returns (s: Symbol)
    requires Acyclic(g) && nodes != {}
    ensures s in nodes && forall x :: x in nodes ==> x !in Edges(g, s)
  {
    if Endless(g, nodes) {
      var p := CycleInside(g, nodes);
      assert false;
    }
    s :| s in nodes && !Leads(g, nodes, s);
  }

  lemma {:induction false} OrderOf(g: Graph, todo: set<Symbol>, done: seq<Symbol>) returns (r: seq<Symbol>)
    requires Acyclic(g) && Ordered(g, done)
    requires forall s, x :: s in g && x in g[s] ==> x in todo || x in done
    ensures Ordered(g, r) && forall s :: s in todo || s in done ==> s in r
    decreases |todo|
  {
    if todo == {} {
      return done;
    }
    var s := FirstNode(g, todo);
    var done' := done + [s];
    forall i, x | 0 <= i < |done'| && x in Edges(g, done'[i]) ensures Before(done', i, x) {
      if i < |done| {
        assert Before(done, i, x);
        var j :| 0 <= j < i && done[j] == x;
        assert done'[j] == x;
      } else {
        var j :| 0 <= j < |done| && done[j] == x;
        assert done'[j] == x;
      }
    }
    forall y, x | y in g && x in g[y] ensures x in todo - {s} || x in done' {
      if x in done {
        var j :| 0 <= j < |done| && done[j] == x;
        assert done'[j] == x;
      } else if x == s {
        assert done'[|done|] == x;
      }
    }
    r := OrderOf(g, todo - {s}, done');
    forall x | x in todo || x in done ensures x in r {
      if x == s { assert done'[|done|] == s; }
      if x in done {
        var j :| 0 <= j < |done| && done[j] == x;
        assert done'[j] == x;
      }
    }
  }

  // ----- orders and ranks -----

  ghost function Place(done: seq<Symbol>, s: Symbol): nat {
    if exists i :: 0 <= i < |done| && done[i] == s && !Before(done, i, s)
    then var i :| 0 <= i < |done| && done[i] == s && !Before(done, i, s); i
    else 0
  }

  lemma {:induction false} FirstPlace(done: seq<Symbol>, s: Symbol, j: nat)
    requires j < |done| && done[j] == s
    ensures Place(done, s) <= j && done[Place(done, s)] == s && !Before(done, Place(done, s), s)
  {
    if Before(done, j, s) {
      var i :| 0 <= i < j && done[i] == s;
      FirstPlace(done, s, i);
    } else {
      var k := Place(done, s);
      assert k < |done| && done[k] == s && !Before(done, k, s);
    }
  }

  /** The places in an order of use go down along every edge. */
  lemma OrderGivesRank(g: Graph, done: seq<Symbol>)
    requires Ordered(g, done) && forall s :: s in g ==> s in done
    ensures Decreasing(g, s => Place(done, s))
  {
    forall s, x | s in g && x in g[s] ensures Place(done, x) < Place(done, s) {
      var j :| 0 <= j < |done| && done[j] == s;
      FirstPlace(done, s, j);
      var i := Place(done, s);
      assert x in Edges(g, done[i]);
      assert Before(done, i, x);
      var k :| 0 <= k < i && done[k] == x;
      FirstPlace(done, x, k);
    }
  }

  lemma {:induction false} RankAlong(g: Graph, rank: Symbol -> nat, p: seq<Symbol>)
    requires Decreasing(g, rank) && Path(g, p) && p != []
    ensures rank(p[|p| - 1]) + |p| <= rank(p[0]) + 1
  {
    if |p| > 1 {
      var n := |p| - 1;
      RankAlong(g, rank, p[..n]);
      assert p[n] in Edges(g, p[n - 1]);
    }
  }

  /** Ranks that go down along every edge exist if and only if there is no cycle. */
  lemma RanksIffAcyclic(g: Graph)
    requires forall s, x :: s in g && x in g[s] ==> x in g
    ensures (exists rank: Symbol -> nat :: Decreasing(g, rank)) <==> Acyclic(g)
  {
    if rank: Symbol -> nat :| Decreasing(g, rank) {
      forall p ensures !Cycle(g, p) {
        if Cycle(g, p) {
          RankAlong(g, rank, p);
        }
      }
    } else if Acyclic(g) {
      var done := OrderOf(g, g.Keys, []);
      OrderGivesRank(g, done);
      assert Decreasing(g, s => Place(done, s));
    }
  }

  /** A cycle stays a cycle in every graph that has its edges. */
  lemma CycleElsewhere(g: Graph, h: Graph, p: seq<Symbol>)
    requires Cycle(g, p)
    requires forall s, x :: s in g && x in g && x in g[s] ==> x in Edges(h, s)
    ensures Cycle(h, p)
  {
    var n := |p| - 1;
    forall i | 0 <= i < |p| ensures p[i] in g {
      if i < n { assert p[i + 1] in Edges(g, p[i]); }
    }
  }
}
