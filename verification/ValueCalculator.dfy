/** sym_calc_value and its helpers (scripts/config/symbol.c:114-133, 196-268, 270-392) on the symbols themselves. */
module ValueCalculator {
  import opened Options
  import opened Expressions
  import opened Normalise
  import opened SymbolValues
  import opened ValueMemo

  class Calculator {
    const defs: Defs
    var curr: map<Symbol, Value>           // curr.tri and, but for choices, curr.val
    var pick: map<Symbol, Option<Symbol>>  // curr.val of the choices
    var valid: set<Symbol>                 // SYMBOL_VALID
    ghost var phase: map<Symbol, Phase>    // what curr.val of a choice holds
    ghost var full: map<Symbol, Phase>     // members that got their value while fully visible

    /** Whatever is left from before; no symbol is valid. */
    constructor (defs: Defs, curr: map<Symbol, Value>, pick: map<Symbol, Option<Symbol>>)
      ensures this.defs == defs && Now() == State(curr, pick, {}, map[], map[])
    {
      this.defs, this.curr, this.pick := defs, curr, pick;
      valid, phase, full := {}, map[], map[];
    }

    ghost function Now(): State
      reads this
    {
      State(curr, pick, valid, phase, full)
    }

    /** What is found in a symbol. */
    method Look(s: Symbol) returns (x: Value)
      ensures x == Known(Now(), s)
    {
      match s {
        case SymY => x := Value(Yes, "y");
        case SymM => x := Value(Mod, "m");
        case SymN => x := Value(No, "n");
        case Const(text) => x := Value(No, text);
        case Var(_, _) => x := if s in curr then curr[s] else Value(No, "n");
      }
    }

    /** expr_calc_value */
    method EvalExpr(e: Expr) returns (t: Tristate)
      modifies this
      ensures (Now(), t) == EvalIn(defs, old(Now()), e)
      decreases Left(defs, Now()), 2, e
    {
      match e {
        case Sym(s) =>
          CalcValue(s);
          var x := Look(s);
          t := x.tri;
        case Not(x) =>
          t := EvalExpr(x);
          t := NotT(t);
        case Cmp(eq, a, b) =>
          CalcValue(a);
          CalcValue(b);
          var x := Look(a);
          var y := Look(b);
          t := BoolT((x.str == y.str) == eq);
        case Bin(op, l, r) =>
          var x := EvalExpr(l);
          var y := EvalExpr(r);
          t := Apply(op, x, y);
      }
    }

    /** sym_calc_visibility */
    method CalcVisibility(s: Symbol) returns (deselected: bool, vis: Tristate, rev: Tristate)
      modifies this
      ensures Vis(Now(), deselected, vis, rev) == VisibleIn(defs, old(Now()), s)
      decreases Left(defs, Now()), 4
    {
      var d := DefOf(defs, s);
      vis := EvalExpr(PromptExpr(d.prompts));
      if TypeOf(s) != STristate { vis := Promote(vis); }
      var inv := EvalExpr(RevExpr(d.revDepInv));
      deselected, rev := inv == Yes, No;
      if deselected { vis := No; }
      if !d.role.Member? && !deselected {
        rev := EvalExpr(RevExpr(d.revDep));
        rev := PromoteFor(s, rev);
      }
    }

    /** sym_get_default_prop */
    method FindDefault(ds: seq<Default>) returns (e: Option<Expr>)
      modifies this
      ensures (Now(), e) == DefaultIn(defs, old(Now()), ds)
      decreases Left(defs, Now()), 3, |ds|
    {
      e := None;
      if ds != [] {
        var c := EvalExpr(CondExpr(ds[0].cond));
        if c != No { e := Some(ds[0].expr); } else { e := FindDefault(ds[1..]); }
      }
    }

    method CalcDefault(d: Def) returns (t: Tristate)
      modifies this
      ensures (Now(), t) == DefaultTriIn(defs, old(Now()), d)
      decreases Left(defs, Now()), 4
    {
      t := No;
      if !d.role.Choice? {
        var e := FindDefault(d.defaults);
        if e.Some? { t := EvalExpr(e.value); }
      }
    }

    method CalcTristate(s: Symbol, d: Def, vis: Tristate, rev: Tristate) returns (t: Tristate)
      modifies this
      ensures (Now(), t) == TriIn(defs, old(Now()), s, d, vis, rev)
      decreases Left(defs, Now()), 6
    {
      if d.role.Member? && vis == Yes {
        t := BoolT((if d.role.choice in pick then pick[d.role.choice] else None) == Some(s));
        return;
      }
      var inv := EvalExpr(RevExpr(d.revDepInv));
      if inv == Yes { t := No; } else { t := CalcOpen(s, d, vis, rev); }
    }

    method CalcOpen(s: Symbol, d: Def, vis: Tristate, rev: Tristate) returns (t: Tristate)
      modifies this
      ensures (Now(), t) == OpenIn(defs, old(Now()), s, d, vis, rev)
      decreases Left(defs, Now()), 5
    {
      if Max(vis, rev) != No {
        if d.user.Some? { t := d.user.value.tri; } else { t := CalcDefault(d); }
        t := Max(Min(t, vis), rev);
      } else {
        t := CalcDefault(d);
      }
      t := PromoteFor(s, t);
    }

    method CalcString(d: Def, vis: Tristate) returns (x: string)
      modifies this
      ensures (Now(), x) == StrIn(defs, old(Now()), d, vis)
      decreases Left(defs, Now()), 5
    {
      if vis != No && d.user.Some? {
        return d.user.value.str;
      }
      x := "";
      var e := FindDefault(d.defaults);
      if e.Some? && e.value.Sym? {
        CalcValue(e.value.s);
        var y := Look(e.value.s);
        x := y.str;
      }
    }

    /** sym_calc_choice; its three loops run over one list of candidates. */
    method CalcChoice(cs: seq<Cand>) returns (m: Option<Symbol>)
      modifies this
      ensures (Now(), m) == PickIn(defs, old(Now()), cs)
      decreases Left(defs, Now()), 6, |cs|
    {
      if cs == [] {
        return None;
      }
      var c := EvalExpr(cs[0].cond);
      if c != No {
        var _, vis, _ := CalcVisibility(cs[0].member);
        if vis != No {
          return Some(cs[0].member);
        }
      }
      m := CalcChoice(cs[1..]);
    }

    /** `set default if recursively called` */
    method SetDefault(s: Symbol)
      modifies this
      ensures Now() == Clear(old(Now()), s)
    {
      curr := curr[s := if IsTri(s) then TriValue(No) else Value(No, "")];
      pick, phase := pick[s := None], phase[s := Cleared];
    }

    /** The switch of sym_calc_value, bool and tristate. */
    method CalcTriBody(s: Symbol)
      requires IsTri(s)
      modifies this
      ensures Now() == TriBodyIn(defs, old(Now()), s)
      decreases Left(defs, Now()), 8
    {
      var t := StoreValue(s);
      StoreChoice(s, DefOf(defs, s), t);
    }

    /** Up to the store of the value. */
    method StoreValue(s: Symbol) returns (t: Tristate)
      requires IsTri(s)
      modifies this
      ensures var v := ValueIn(defs, old(Now()), s); Now() == Valued(v, s) && t == v.t
      decreases Left(defs, Now()), 7
    {
      var d := DefOf(defs, s);
      var _, vis, rev := CalcVisibility(s);
      SetDefault(s);
      t := CalcTristate(s, d, vis, rev);
      curr := curr[s := TriValue(t)];
      if d.role.Member? && vis == Yes { full := full[s := PhaseOf(Now(), d.role.choice)]; }
    }

    /** A choice that is y picks its member. */
    method StoreChoice(s: Symbol, d: Def, t: Tristate)
      modifies this
      ensures Now() == PickedIn(defs, old(Now()), s, d, t)
      decreases Left(defs, Now()), 7
    {
      if d.role.Choice? && t == Yes {
        var m := CalcChoice(Cands(d.role, d.defaults));
        if m.None? { curr := curr[s := TriValue(No)]; }
        pick, phase := pick[s := m], phase[s := Stored];
      }
    }

    /** Strings and numbers. */
    method CalcStrBody(s: Symbol)
      requires !IsTri(s)
      modifies this
      ensures Now() == StrBodyIn(defs, old(Now()), s)
      decreases Left(defs, Now()), 7
    {
      var _, vis, _ := CalcVisibility(s);
      SetDefault(s);
      var x := CalcString(DefOf(defs, s), vis);
      curr := curr[s := Value(No, x)];
    }

    /** sym_calc_value */
    method CalcValue(s: Symbol)
      modifies this
      ensures Now() == CalcIn(defs, old(Now()), s)
      decreases Left(defs, Now()), 1
    {
      if !s.Var? || s !in defs || s in valid {
        return;
      }
      valid := valid + {s};
      if IsTri(s) {
        CalcTriBody(s);
      } else if TypeOf(s) == SString || TypeOf(s) == SInt || TypeOf(s) == SHex {
        CalcStrBody(s);
      } else {
        curr := curr[s := Value(No, DefOf(defs, s).name)];
        pick, phase := pick[s := None], phase[s := Cleared];
      }
    }

    method CalcAll(order: seq<Symbol>)
      modifies this
      ensures Now() == CalcAllIn(defs, old(Now()), order)
    {
      for k := 0 to |order|
        invariant Now() == CalcAllIn(defs, old(Now()), order[..k])
      {
        CalcValue(order[k]);
        assert order[..k + 1][..k] == order[..k];
      }
      assert order[..|order|] == order;
    }
  }
}
