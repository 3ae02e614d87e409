/**
 The search for recursive dependencies, sym_check_deps
 (scripts/config/symbol.c:771-840), with its marks SYMBOL_CHECK and
 SYMBOL_CHECKED set and cleared in place.
 */
module DependencyCheck {
  import opened Options
  import opened Expressions
  import opened Graphs

  datatype PropKind = Prompt | Comment | Menu | Default | Choice | Deselect | Select | Range | Reset

  datatype Prop = Prop(kind: PropKind, visible: Option<Expr>, expr: Option<Expr>)

  datatype SymInfo = SymInfo(revDep: Option<Expr>, choice: bool, props: seq<Prop>)

  function OptSeq(e: Option<Expr>): seq<Expr> {
    if e.Some? then [e.value] else []
  }

  /** The expressions one property contributes, in order. */
  function PropExprs(choice: bool, p: Prop): seq<Expr> {
    if p.kind == Choice || p.kind == Select || p.kind == Deselect then []
    else if p.kind != Default || choice then OptSeq(p.visible)
    else OptSeq(p.visible) + OptSeq(p.expr)
  }

  function PropsExprs(choice: bool, ps: seq<Prop>): seq<Expr> {
    if ps == [] then [] else PropExprs(choice, ps[0]) + PropsExprs(choice, ps[1..])
  }

  /** Everything sym_check_deps follows from a symbol. */
  function Followed(i: SymInfo): seq<Expr> {
    OptSeq(i.revDep) + PropsExprs(i.choice, i.props)
  }

  function MentionsAll(es: seq<Expr>): set<Symbol> {
    if es == [] then {} else Mentions(es[0]) + MentionsAll(es[1..])
  }

  /** The symbols, with what is declared about them. */
  type Table = map<Symbol, SymInfo>

  function Uses(t: Table, s: Symbol): set<Symbol> {
    if s in t then MentionsAll(Followed(t[s])) else {}
  }

  /** What the search follows, as a graph. */
  function GraphOf(t: Table): Graph {
    map s | s in t :: Uses(t, s)
  }

  ghost predicate Follows(g: Graph, t: Table) {
    g.Keys == t.Keys && forall s {:trigger Uses(t, s)} :: Edges(g, s) == Uses(t, s)
  }

  /**
   The marks CHECK are a path of uses from the outermost call. Without a
   warning the other marked symbols are in order of use; with one there is
   a cycle.
   */
  ghost predicate Sound(g: Graph, check: set<Symbol>, checked: set<Symbol>, warned: bool,
                        path: seq<Symbol>, done: seq<Symbol>) {
    && Path(g, path)
    && (forall s :: s in path <==> s in check)
    && (!warned ==> Ordered(g, done) && (forall s :: s in checked <==> s in path || s in done))
    && (warned ==> exists p :: Cycle(g, p))
  }

  lemma Enter(g: Graph, check: set<Symbol>, checked: set<Symbol>, warned: bool,
              path: seq<Symbol>, done: seq<Symbol>, s: Symbol)
    requires Sound(g, check, checked, warned, path, done)
    requires s !in checked && (path != [] ==> s in Edges(g, path[|path| - 1]))
    ensures Sound(g, check + {s}, checked + {s}, warned, path + [s], done)
  {
    var path' := path + [s];
    assert forall i :: 0 <= i < |path| ==> path'[i] == path[i];
    assert forall x :: x in path' <==> x in path || x == s;
  }

  lemma Leave(g: Graph, check: set<Symbol>, checked: set<Symbol>, warned: bool,
              path: seq<Symbol>, done: seq<Symbol>, s: Symbol)
    requires Sound(g, check, checked, warned, path + [s], done) && s !in path
    requires !warned ==> forall x :: x in Edges(g, s) ==> x in done
    ensures Sound(g, check - {s}, checked, warned, path, if warned then done else done + [s])
  {
    var path' := path + [s];
    assert forall i :: 0 <= i < |path| ==> path'[i] == path[i];
    assert forall x :: x in path' <==> x in path || x == s;
    var done' := done + [s];
    assert forall x :: x in done' <==> x in done || x == s;
    if !warned {
      forall i, x | 0 <= i < |done'| && x in Edges(g, done'[i]) ensures Before(done', i, x) {
        if i < |done| {
          assert done'[i] == done[i] && Before(done, i, x);
          var j :| 0 <= j < i && done[j] == x;
          assert done'[j] == x;
        } else {
          var j :| 0 <= j < |done| && done[j] == x;
          assert done'[j] == x;
        }
      }
    }
  }

  lemma MetAgain(g: Graph, path: seq<Symbol>, s: Symbol)
    requires Path(g, path) && s in path && s in Edges(g, path[|path| - 1])
    ensures exists p :: Cycle(g, p)
  {
    var i :| 0 <= i < |path| && path[i] == s;
    assert Cycle(g, path[i..]);
  }

  class Checker {
    const table: Table
    ghost const g: Graph      // what the search follows
    var check: set<Symbol>    // SYMBOL_CHECK
    var checked: set<Symbol>  // SYMBOL_CHECKED
    var warned: bool          // a recursive dependency was printed
    ghost var path: seq<Symbol>
    ghost var done: seq<Symbol>

    constructor (t: Table)
      ensures table == t && g == GraphOf(t) && Valid() && path == [] && !warned && checked == {}
    {
      table, g := t, GraphOf(t);
      check, checked, warned := {}, {}, false;
      path, done := [], [];
    }

    ghost predicate Valid()
      reads this
    {
      Follows(g, table) && Sound(g, check, checked, warned, path, done)
    }

    /** What a call leaves alone. */
    twostate predicate Kept()
      reads this
    {
      && Valid() && path == old(path) && check == old(check) && old(checked) <= checked
      && (old(warned) ==> warned)
      && (!warned ==> old(done) <= done)
    }

    ghost function Unchecked(): set<Symbol>
      reads this
    {
      table.Keys - checked
    }

    /** sym_check_expr_deps */
    method CheckExpr(e: Expr) returns (r: Option<Symbol>)
      requires Valid() && path != [] && Mentions(e) <= Edges(g, path[|path| - 1])
      modifies this
      ensures Kept()
      ensures r.Some? ==> warned && r.value in check
      ensures !warned ==> forall s :: s in Mentions(e) ==> s in done
      decreases Unchecked(), 2, e
    {
      match e
      case Sym(s) => r := CheckSymbol(s);
      case Not(x) => r := CheckExpr(x);
      case Cmp(_, a, b) =>
        r := CheckSymbol(a);
        if r.None? { r := CheckSymbol(b); }
      case Bin(_, x, y) =>
        r := CheckExpr(x);
        if r.None? { r := CheckExpr(y); }
    }

    /** The body of sym_check_deps between the marks: expressions until one reports a symbol. */
    method CheckExprs(es: seq<Expr>) returns (r: Option<Symbol>)
      requires Valid() && path != [] && MentionsAll(es) <= Edges(g, path[|path| - 1])
      modifies this
      ensures Kept()
      ensures r.Some? ==> warned && r.value in check
      ensures !warned ==> forall s :: s in MentionsAll(es) ==> s in done
      decreases Unchecked(), 3, |es|
    {
      r := None;
      if es != [] {
        r := CheckExpr(es[0]);
        if r.None? { r := CheckExprs(es[1..]); }
      }
    }

    /** Everything the marked symbol s depends on. */
    method CheckUses(s: Symbol) returns (r: Option<Symbol>)
      requires Valid() && path != [] && path[|path| - 1] == s && s in table
      modifies this
      ensures Kept()
      ensures r.Some? ==> warned && r.value in check
      ensures !warned ==> forall x :: x in Edges(g, s) ==> x in done
      decreases Unchecked(), 4
    {
      assert Uses(table, s) == Edges(g, s);
      r := CheckExprs(Followed(table[s]));
    }

    /** sym_check_deps */
    method CheckSymbol(s: Symbol) returns (r: Option<Symbol>)
      requires Valid() && (path != [] ==> s in Edges(g, path[|path| - 1]))
      modifies this
      ensures Kept()
      ensures r.Some? ==> warned && r.value in check
      ensures !warned ==> s in done
      decreases Unchecked(), 1
    {
      if s in check {
        MetAgain(g, path, s);
        warned := true;
        return Some(s);
      }
      if s in checked {
        return None;
      }
      r := Visit(s);
    }

    /** The rest of sym_check_deps, for a symbol without a mark. */
    method Visit(s: Symbol) returns (r: Option<Symbol>)
      requires Valid() && (path != [] ==> s in Edges(g, path[|path| - 1]))
      requires s !in check && s !in checked
      modifies this
      ensures Kept()
      ensures r.Some? ==> warned && r.value in check
      ensures !warned ==> s in done
      decreases Unchecked(), 0
    {
      Enter(g, check, checked, warned, path, done, s);
      check, checked := check + {s}, checked + {s};
      path := path + [s];
      r := None;
      if s in table {
        r := CheckUses(s);
      } else {
        assert Uses(table, s) == Edges(g, s);
      }
      if r == Some(s) {
        r := None;
      }
      Leave(g, check, checked, warned, old(path), done, s);
      check := check - {s};
      path := old(path);
      if !warned {
        done := done + [s];
      }
    }

    /** The loop of zconf.y over all symbols: each is a fresh outermost call. */
    method CheckAll(symbols: seq<Symbol>)
      requires Valid() && path == [] && !warned && checked == {}
      requires forall s :: s in table ==> s in symbols
      modifies this
      ensures warned <==> !Acyclic(g)
      ensures !warned ==> Ordered(g, done) && forall s :: s in table ==> s in done
    {
      for k := 0 to |symbols|
        invariant Valid() && path == []
        invariant !warned ==> forall i :: 0 <= i < k ==> symbols[i] in done
      {
        var r := CheckSymbol(symbols[k]);
        assert r == None;
      }
      if !warned {
        forall p ensures !Cycle(g, p) {
          OrderedMeansNoCycle(g, done, p);
        }
      }
    }
  }
}
