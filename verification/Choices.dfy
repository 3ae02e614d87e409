/**
 Choices (scripts/config/symbol.c:231-268, 306-363, 433-460): which visible members are y in every run, when two
 are, and that exactly one is where nothing a pick reads depends on the choice.
 */
module Choices {
  import opened Options
  import opened Expressions
  import opened Normalise
  import opened SymbolValues
  import opened ValueDeps
  import opened ValueMemo
  import opened MemoSound
  import opened ChoiceRuns

  // ----- every run -----

  /** As sym_clear_all_valid leaves it: nothing is calculated; values and picks left from before may be anything. */
  predicate Anew(st: State) {
    st.valid == {} && st.phase == map[] && st.full == map[]
  }

  /** The states at the top of a run have the invariant; the lemmas of ChoiceRuns say so of those inside the calls. */
  lemma RunInv(defs: Defs, st: State, order: seq<Symbol>)
    requires Anew(st)
    ensures Inv(defs, st, CalcAllIn(defs, st, order))
  {
    assert Inv(defs, st, st);
    CalcAllOne(defs, st, st, order);
  }

  /** A member of c that became y while it was fully visible. */
  predicate Winner(defs: Defs, r: State, c: Symbol, m: Symbol) {
    ChoiceOf(defs, m) == Some(c) && FullAt(r, m).Some? && Known(r, m).tri == Yes
  }

  /** Calculated before the choice dropped the pick left from before, and this pick. */
  predicate ByOldPick(st: State, r: State, c: Symbol, m: Symbol) {
    FullAt(r, m) == Some(Old) && PickAt(st, c) == Some(m)
  }

  /** Calculated after the choice stored its new pick, and this pick. */
  predicate ByNewPick(r: State, c: Symbol, m: Symbol) {
    FullAt(r, m) == Some(Stored) && PickAt(r, c) == Some(m)
  }

  /**
   Whatever is declared, in whatever order values are asked for and whatever picks are left from before, a fully
   visible member is y exactly if it is the old pick and was calculated before this was dropped, or the new pick and
   was calculated after this was stored.
   */
  lemma WinnerIs(defs: Defs, st: State, order: seq<Symbol>, c: Symbol, m: Symbol)
    requires Anew(st) && ChoiceOf(defs, m) == Some(c) && FullAt(CalcAllIn(defs, st, order), m).Some?
    ensures var r := CalcAllIn(defs, st, order);
            Known(r, m).tri == Yes <==> ByOldPick(st, r, c, m) || ByNewPick(r, c, m)
  {
    RunInv(defs, st, order);
    TellsOf(defs, st, CalcAllIn(defs, st, order), m);
  }

  /** So two members y are always the old pick and the new one. */
  lemma OldAndNew(defs: Defs, st: State, order: seq<Symbol>, c: Symbol, a: Symbol, b: Symbol)
    requires Anew(st) && a != b
    requires var r := CalcAllIn(defs, st, order); Winner(defs, r, c, a) && Winner(defs, r, c, b)
    ensures var r := CalcAllIn(defs, st, order);
            (ByOldPick(st, r, c, a) && ByNewPick(r, c, b)) || (ByOldPick(st, r, c, b) && ByNewPick(r, c, a))
  {
    WinnerIs(defs, st, order, c, a);
    WinnerIs(defs, st, order, c, b);
  }

  /**
   There are two such members if and only if the old pick was calculated while fully visible before the choice
   dropped it, and another member, newly picked, was so after the choice stored it.
   */
  lemma TwoYesExactly(defs: Defs, st: State, order: seq<Symbol>, c: Symbol)
    requires Anew(st)
    ensures var (r, old', new') := (CalcAllIn(defs, st, order), PickAt(st, c), PickAt(CalcAllIn(defs, st, order), c));
            (exists a, b :: a != b && Winner(defs, r, c, a) && Winner(defs, r, c, b)) <==>
              && old'.Some? && new'.Some? && old' != new'
              && ChoiceOf(defs, old'.value) == Some(c) && FullAt(r, old'.value) == Some(Old)
              && ChoiceOf(defs, new'.value) == Some(c) && FullAt(r, new'.value) == Some(Stored)
  {
    var r := CalcAllIn(defs, st, order);
    var o, n := PickAt(st, c), PickAt(r, c);
    if a, b :| a != b && Winner(defs, r, c, a) && Winner(defs, r, c, b) {
      OldAndNew(defs, st, order, c, a, b);
    }
    if o.Some? && n.Some? && o != n && ChoiceOf(defs, o.value) == ChoiceOf(defs, n.value) == Some(c)
       && FullAt(r, o.value) == Some(Old) && FullAt(r, n.value) == Some(Stored) {
      WinnerIs(defs, st, order, c, o.value);
      WinnerIs(defs, st, order, c, n.value);
      assert Winner(defs, r, c, o.value) && Winner(defs, r, c, n.value);
    }
  }

  /** Without an old pick of this choice, two of its members are never both y. */
  lemma AtMostOneYes(defs: Defs, st: State, order: seq<Symbol>, c: Symbol, a: Symbol, b: Symbol)
    requires Anew(st) && PickAt(st, c) == None
    requires var r := CalcAllIn(defs, st, order); Winner(defs, r, c, a) && Winner(defs, r, c, b)
    ensures a == b
  {
    if a != b { OldAndNew(defs, st, order, c, a, b); }
  }

  /**
   The member the choice points to at the end is y exactly if it was calculated after it was picked, or as the old
   pick before this was dropped: so much, and no more, does the code guarantee of "exactly one".
   */
  lemma PickedIsYes(defs: Defs, st: State, order: seq<Symbol>, c: Symbol, m: Symbol)
    requires Anew(st) && ChoiceOf(defs, m) == Some(c)
    requires var r := CalcAllIn(defs, st, order); PickAt(r, c) == Some(m) && FullAt(r, m).Some?
    ensures var r := CalcAllIn(defs, st, order);
            Known(r, m).tri == Yes <==> FullAt(r, m) == Some(Stored) || ByOldPick(st, r, c, m)
  {
    WinnerIs(defs, st, order, c, m);
  }

  // ----- what the recorded phases are -----

  /** Members calculated since a state found a phase no earlier than the one in that state, and no later than now. */
  lemma FoundBetween(defs: Defs, base: State, st: State, c: Symbol, m: Symbol)
    requires Inv(defs, base, st) && ChoiceOf(defs, m) == Some(c) && FullAt(st, m).Some? && m !in base.valid
    ensures Nr(PhaseOf(base, c)) <= Nr(FullAt(st, m).value) <= Nr(PhaseOf(st, c))
  {
    TellsOf(defs, base, st, m);
  }

  /** What is recorded of a member stays. */
  lemma RecordStays(a: State, b: State, m: Symbol)
    requires Stays(a, b) && Tidy(a) && FullAt(b, m).Some? && m in a.valid
    ensures FullAt(a, m) == FullAt(b, m)
  {
  }

  /** Up to the visibility of the choice itself its old pick stands. */
  lemma OldUntilCleared(defs: Defs, base: State, st: State, c: Symbol, m: Symbol)
    requires Inv(defs, base, st) && IsNew(defs, st, c) && ChoiceOf(defs, m) == Some(c) && m !in base.valid
    requires FullAt(VisibleIn(defs, Mark(st, c), c).st, m).Some?
    ensures FullAt(VisibleIn(defs, Mark(st, c), c).st, m) == Some(Old)
  {
    MarkOne(defs, base, st, c);
    VisibleOne(defs, base, Mark(st, c), c);
    var h := VisibleIn(defs, Mark(st, c), c).st;
    assert PhaseOf(h, c) == PhaseOf(Mark(st, c), c);
    FoundBetween(defs, base, h, c, m);
  }

  /** From there to the store of the value nothing is picked. */
  lemma NoneInTri(defs: Defs, st: State, c: Symbol, vis: Tristate, rev: Tristate, m: Symbol)
    requires Tidy(st) && PhaseOf(st, c) == Cleared && c in st.valid && ChoiceOf(defs, m) == Some(c) && m !in st.valid
    requires FullAt(TriIn(defs, st, c, DefOf(defs, c), vis, rev).0, m).Some?
    ensures FullAt(TriIn(defs, st, c, DefOf(defs, c), vis, rev).0, m) == Some(Cleared)
  {
    TriOne(defs, st, st, c, DefOf(defs, c), vis, rev);
    FoundBetween(defs, st, TriIn(defs, st, c, DefOf(defs, c), vis, rev).0, c, m);
  }

  lemma ClearTidy(st: State, c: Symbol)
    requires Tidy(st) && IsTri(c) && c in st.valid
    ensures Tidy(Clear(st, c)) && PhaseOf(Clear(st, c), c) == Cleared && Clear(st, c).valid == st.valid
    ensures forall m :: FullAt(Clear(st, c), m) == FullAt(st, m)
  {
    var r := Clear(st, c);
    forall x ensures FullAt(r, x) == FullAt(st, x) {}
    forall x | x != c ensures PhaseOf(r, x) == PhaseOf(st, x) && PickAt(r, x) == PickAt(st, x) {}
  }

  /** Nor while it looks at its members. */
  lemma NoneInPick(defs: Defs, st: State, c: Symbol, cs: seq<Cand>, m: Symbol)
    requires Tidy(st) && PhaseOf(st, c) == Cleared && c in st.valid && ChoiceOf(defs, m) == Some(c) && m !in st.valid
    requires FullAt(PickIn(defs, st, cs).0, m).Some?
    ensures FullAt(PickIn(defs, st, cs).0, m) == Some(Cleared)
  {
    PickInOne(defs, st, st, cs);
    FoundBetween(defs, st, PickIn(defs, st, cs).0, c, m);
  }

  lemma ValuedTidy(defs: Defs, st: State, c: Symbol)
    requires Inv(defs, st, st) && IsNew(defs, st, c) && IsTri(c) && DefOf(defs, c).role.Choice?
    ensures var v := ValueIn(defs, Mark(st, c), c);
            && v.full == None && c in v.st.valid && Tidy(Valued(v, c)) && PhaseOf(Valued(v, c), c) == Cleared
  {
    MarkOne(defs, st, st, c);
    ValueOne(defs, st, Mark(st, c), c);
    var h := VisibleIn(defs, Mark(st, c), c).st;
    var v := ValueIn(defs, Mark(st, c), c);
    assert PhaseOf(Clear(h, c), c) == Cleared;
    assert PhaseOf(Valued(v, c), c) == PhaseOf(v.st, c) == PhaseOf(Clear(h, c), c);
  }

  lemma CallIsPicked(defs: Defs, st: State, c: Symbol)
    requires IsNew(defs, st, c) && IsTri(c)
    ensures var v := ValueIn(defs, Mark(st, c), c);
            && CalcIn(defs, st, c) == PickedIn(defs, Valued(v, c), c, DefOf(defs, c), v.t)
            && Valued(v, c).valid == v.st.valid && VisibleIn(defs, Mark(st, c), c).st.valid <= v.st.valid
  {
    assert CalcIn(defs, st, c) == TriBodyIn(defs, Mark(st, c), c);
  }

  lemma ValuedRecords(defs: Defs, st: State, c: Symbol, m: Symbol)
    requires IsTri(c) && m != c
    ensures var h, v := VisibleIn(defs, Mark(st, c), c), ValueIn(defs, Mark(st, c), c);
            && FullAt(Valued(v, c), m) == FullAt(v.st, m) && FullAt(Clear(h.st, c), m) == FullAt(h.st, m)
            && (m in h.st.valid ==> FullAt(v.st, m) == FullAt(h.st, m))
  {
    var h, v := VisibleIn(defs, Mark(st, c), c), ValueIn(defs, Mark(st, c), c);
    assert Kept(Clear(h.st, c), v.st);
    assert FullAt(Clear(h.st, c), m) == FullAt(h.st, m);
  }

  /** The three parts of the call: before the clear, before the store of the value, and while picking. */
  lemma FoundInCall(defs: Defs, base: State, st: State, c: Symbol, m: Symbol)
    requires Inv(defs, base, st) && IsNew(defs, st, c) && IsTri(c) && DefOf(defs, c).role.Choice?
    requires ChoiceOf(defs, m) == Some(c) && m != c && m !in base.valid && FullAt(CalcIn(defs, st, c), m).Some?
    ensures var h := VisibleIn(defs, Mark(st, c), c);
            FullAt(CalcIn(defs, st, c), m) == Some(if m in h.st.valid then Old else Cleared)
    ensures PhaseOf(CalcIn(defs, st, c), c) != Old && c in CalcIn(defs, st, c).valid
  {
    var st0, d := Mark(st, c), DefOf(defs, c);
    var h := VisibleIn(defs, st0, c);
    var v := ValueIn(defs, st0, c);
    var r := CalcIn(defs, st, c);
    assert Inv(defs, st, st);
    ValuedTidy(defs, st, c);
    assert r == PickedIn(defs, Valued(v, c), c, d, v.t) by { CallIsPicked(defs, st, c); }
    MarkOne(defs, base, st, c);
    VisibleOne(defs, base, st0, c);
    ClearTidy(h.st, c);
    var st2 := Valued(v, c);
    ValuedRecords(defs, st, c, m);
    PickedRecords(defs, st2, c, d, v.t, m);
    if m in h.st.valid {
      assert FullAt(h.st, m) == FullAt(st2, m) == FullAt(r, m);
      OldUntilCleared(defs, base, st, c, m);
    } else if m in st2.valid {
      NoneInTri(defs, Clear(h.st, c), c, h.vis, h.rev, m);
    } else {
      NoneInPick(defs, st2, c, Cands(d.role, d.defaults), m);
    }
  }

  /** Storing the pick records nothing of the members. */
  lemma PickedRecords(defs: Defs, st: State, c: Symbol, d: Def, t: Tristate, m: Symbol)
    requires m != c && c in st.valid && PhaseOf(st, c) == Cleared && Tidy(st)
    ensures var r := PickedIn(defs, st, c, d, t);
            && PhaseOf(r, c) != Old && c in r.valid && (m in st.valid ==> FullAt(r, m) == FullAt(st, m))
            && (m !in st.valid && FullAt(r, m).Some? ==>
                 FullAt(r, m) == FullAt(PickIn(defs, st, Cands(d.role, d.defaults)).0, m))
  {
  }

  /**
   The recorded phases around a call for c, read from the times at which a member became valid. st is the state of the
   call, at the top or inside the calculation of other symbols; what follows it is any sequence of calls.
   */
  lemma FoundInRun(defs: Defs, base: State, st: State, c: Symbol, after: seq<Symbol>, m: Symbol)
    requires Inv(defs, base, st) && base.valid == {} && IsTri(c) && DefOf(defs, c).role.Choice? && IsNew(defs, st, c)
    requires ChoiceOf(defs, m) == Some(c) && m != c
    requires FullAt(CalcAllIn(defs, CalcIn(defs, st, c), after), m).Some?
    ensures var (h, st1) := (VisibleIn(defs, Mark(st, c), c).st, CalcIn(defs, st, c));
            var found := FullAt(CalcAllIn(defs, st1, after), m);
            && (m in h.valid ==> found == Some(Old))
            && (m in st1.valid && m !in h.valid ==> found == Some(Cleared))
            && (m !in st1.valid && PhaseOf(st1, c) == Stored ==> found == Some(Stored))
  {
    CalcOne(defs, base, st, c);
    var st1 := CalcIn(defs, st, c);
    CallIsPicked(defs, st, c);
    if m in st1.valid {
      assert Tidy(st1);
      RecordStays(st1, CalcAllIn(defs, st1, after), m);
      FoundInCall(defs, base, st, c, m);
    } else {
      FoundLater(defs, st1, after, c, m);
    }
  }

  /** Where the pick is stored, all that follows finds it. */
  lemma FoundLater(defs: Defs, st: State, after: seq<Symbol>, c: Symbol, m: Symbol)
    requires Tidy(st) && ChoiceOf(defs, m) == Some(c) && m !in st.valid
    requires c in st.valid && FullAt(CalcAllIn(defs, st, after), m).Some?
    ensures PhaseOf(st, c) == Stored ==> FullAt(CalcAllIn(defs, st, after), m) == Some(Stored)
  {
    assert Inv(defs, st, st);
    CalcAllOne(defs, st, st, after);
    FoundBetween(defs, st, CalcAllIn(defs, st, after), c, m);
  }

  /**
   A visible member that is calculated by the end of the call for its choice, a nested call or not, is y exactly if it
   is the old pick and was calculated before this was dropped.
   */
  lemma BeforeThePick(defs: Defs, base: State, st: State, c: Symbol, m: Symbol)
    requires Inv(defs, base, st) && base.valid == {} && IsTri(c) && DefOf(defs, c).role.Choice? && IsNew(defs, st, c)
    requires ChoiceOf(defs, m) == Some(c) && m != c && FullAt(CalcIn(defs, st, c), m).Some?
    ensures Known(CalcIn(defs, st, c), m).tri == Yes <==>
              m in VisibleIn(defs, Mark(st, c), c).st.valid && PickAt(base, c) == Some(m)
  {
    FoundInCall(defs, base, st, c, m);
    CalcOne(defs, base, st, c);
    TellsOf(defs, base, CalcIn(defs, st, c), m);
  }

  // ----- solutions -----

  /** The first candidate that may be taken is taken. */
  lemma {:induction false} FirstCandIs(defs: Defs, cs: seq<Cand>, v: Valuation, k: nat)
    requires k < |cs| && Takes(defs, cs[k], v) && forall i :: 0 <= i < k ==> !Takes(defs, cs[i], v)
    ensures FirstCand(defs, cs, v) == Some(cs[k].member)
  {
    if k > 0 {
      assert forall i :: 0 <= i < k - 1 ==> cs[1..][i] == cs[i + 1];
      FirstCandIs(defs, cs[1..], v, k - 1);
    }
  }

  lemma {:induction false} FirstCandTakes(defs: Defs, cs: seq<Cand>, v: Valuation) returns (k: nat)
    requires FirstCand(defs, cs, v).Some?
    ensures k < |cs| && Takes(defs, cs[k], v) && FirstCand(defs, cs, v) == Some(cs[k].member)
  {
    if Takes(defs, cs[0], v) { k := 0; } else {
      k := FirstCandTakes(defs, cs[1..], v);
      k := k + 1;
    }
  }

  /** Members, the user's choice and the defaults are bool or tristate members of the choice. */
  ghost predicate Members(defs: Defs, c: Symbol, cs: seq<Cand>) {
    forall k :: 0 <= k < |cs| ==> ChoiceOf(defs, cs[k].member) == Some(c) && IsTri(cs[k].member)
  }

  lemma HeldVisible(defs: Defs, v: Valuation, c: Symbol, m: Symbol)
    requires v(c) == TriValue(Yes)
    ensures Visible(m, DefOf(defs, m), Held(v, c)) == Visible(m, DefOf(defs, m), v)
  {
    VisibleAgrees(m, DefOf(defs, m), Held(v, c), v);
  }

  /**
   In a solution a choice that is y points to a visible member, and of all visible members this one alone is y, if it
   is fully visible; a member visible as m is not.
   */
  lemma ExactlyOneYes(defs: Defs, w: World, c: Symbol) returns (p: Symbol)
    requires Solution(defs, w) && c in defs && IsTri(c) && defs[c].role.Choice? && w.v(c).tri == Yes
    requires Members(defs, c, Cands(defs[c].role, defs[c].defaults))
    ensures p in defs && ChoiceOf(defs, p) == Some(c) && Visible(p, defs[p], w.v) != No && w.pick(c) == Some(p)
    ensures forall m :: m in defs && ChoiceOf(defs, m) == Some(c) && Visible(m, defs[m], w.v) != No ==>
              (w.v(m).tri == Yes <==> m == p && Visible(p, defs[p], w.v) == Yes)
  {
    var d := defs[c];
    assert w.v(c) == Calc(defs, c, w) && w.pick(c) == PickOf(defs, c, w);
    var cs := Cands(d.role, d.defaults);
    var k := FirstCandTakes(defs, cs, Held(w.v, c));
    p := cs[k].member;
    HeldVisible(defs, w.v, c, p);
    forall m | m in defs && ChoiceOf(defs, m) == Some(c) && Visible(m, defs[m], w.v) != No
      ensures w.v(m).tri == Yes <==> m == p && Visible(p, defs[p], w.v) == Yes
    {
      MemberOfSolution(defs, w, c, p, m);
    }
  }

  /** A visible member is y exactly if it is fully visible and the one pointed to. */
  lemma MemberOfSolution(defs: Defs, w: World, c: Symbol, p: Symbol, m: Symbol)
    requires Solution(defs, w) && w.pick(c) == Some(p) && IsTri(p)
    requires m in defs && ChoiceOf(defs, m) == Some(c) && Visible(m, defs[m], w.v) != No
    ensures w.v(m).tri == Yes <==> m == p && Visible(m, defs[m], w.v) == Yes
  {
    assert w.v(m) == Calc(defs, m, w);
  }

  /** Setting a member makes it the member picked, and y, wherever it is visible and its choice is y. */
  lemma ChosenIsYes(defs: Defs, w: World, c: Symbol, m: Symbol)
    requires Solution(defs, w) && c in defs && IsTri(c) && defs[c].role.Choice? && defs[c].role.chosen == Some(m)
    requires m in defs && ChoiceOf(defs, m) == Some(c) && IsTri(m)
    requires w.v(c).tri == Yes && Visible(m, defs[m], w.v) == Yes
    ensures w.pick(c) == Some(m) && w.v(m).tri == Yes
  {
    var cs := Cands(defs[c].role, defs[c].defaults);
    assert w.v(c) == Calc(defs, c, w) && w.pick(c) == PickOf(defs, c, w) && w.v(m) == Calc(defs, m, w);
    HeldVisible(defs, w.v, c, m);
    assert RightValue(SymY, w.v(SymY));
    assert cs[0] == Cand(Sym(SymY), m) && Takes(defs, cs[0], Held(w.v, c));
    FirstCandIs(defs, cs, Held(w.v, c), 0);
  }

  /**
   Every run over acyclic declarations, in any order and from any values left before, ends so for each choice that
   is y; with bool members only, exactly one visible member is y.
   */
  lemma RunExactlyOne(defs: Defs, rank: Symbol -> nat, st: State, order: seq<Symbol>, c: Symbol)
    returns (w: World, p: Symbol)
    requires Proper(defs) && Ranked(defs, rank) && st.valid == {} && forall s :: s in order <==> s in defs
    requires c in defs && defs[c].role.Choice? && Known(CalcAllIn(defs, st, order), c).tri == Yes
    requires Members(defs, c, Cands(defs[c].role, defs[c].defaults))
    ensures Solution(defs, w) && (forall s :: s in defs ==> w.v(s) == Known(CalcAllIn(defs, st, order), s))
    ensures p in defs && ChoiceOf(defs, p) == Some(c) && Visible(p, defs[p], w.v) != No
    ensures TypeOf(p) == SBoolean ==> Visible(p, defs[p], w.v) == Yes
    ensures forall m :: m in defs && ChoiceOf(defs, m) == Some(c) && Visible(m, defs[m], w.v) != No ==>
              (Known(CalcAllIn(defs, st, order), m).tri == Yes <==> m == p && Visible(p, defs[p], w.v) == Yes)
  {
    w := RunSolves(defs, rank, st, order);
    forall s | s in defs ensures w.v(s) == Known(CalcAllIn(defs, st, order), s) {
      assert At(w, CalcAllIn(defs, st, order), s);
    }
    p := ExactlyOneYes(defs, w, c);
  }

  /** Invisible members are outside the rule: two of them can both be y through their defaults. */
  lemma InvisibleMembersBothYes(c: Symbol, a: Symbol, b: Symbol, w: World)
    requires Respects(w.v) && TypeOf(a) == SBoolean && TypeOf(b) == SBoolean
    ensures var d := Def("", Member(c), [], None, None, [Default(None, Sym(SymY))], None);
            && Visible(a, d, w.v) == No && Visible(b, d, w.v) == No
            && CalcTri(a, d, w) == Yes && CalcTri(b, d, w) == Yes
  {
    assert RightValue(SymY, w.v(SymY)) && RightValue(SymN, w.v(SymN));
    assert FirstDefault([Default(None, Sym(SymY))], w.v) == Some(Sym(SymY));
  }
}
