/**
 Setting a member of a choice (scripts/config/symbol.c:433-460): y is stored in the choice as well, as the member
 the user chose, and the members that are visible stop being new.
 */
module MemberSetting {
  import opened Options
  import opened Expressions
  import opened Normalise
  import opened SymbolValues
  import opened ValueDeps
  import opened ValueSetting

  /** `flags &= ~SYMBOL_NEW`: the user's value counts, which is n unless another was given. */
  function NotNew(d: Def): Def {
    if d.user.None? then SetUser(d, No) else d
  }

  /** s is a member of the declared choice c, and all members of c are its own. */
  ghost predicate Listed(defs: Defs, c: Symbol, s: Symbol) {
    && c in defs && s in defs && c != s && defs[c].role.Choice? && s in defs[c].role.members
    && forall x :: x in defs[c].role.members && x in defs ==> defs[x].role == Member(c)
  }

  /** What y for the member s stores in the declaration x. */
  function Stored(defs: Defs, v: Valuation, c: Symbol, s: Symbol, x: Symbol): Def
    requires x in defs && c in defs && defs[c].role.Choice?
  {
    if x == s then SetUser(defs[x], Yes)
    else if x == c then NotNew(defs[x]).(role := defs[c].role.(chosen := Some(s)))
    else if x in defs[c].role.members && Visible(x, defs[x], v) != No then NotNew(defs[x])
    else defs[x]
  }

  function SetMember(defs: Defs, v: Valuation, c: Symbol, s: Symbol): Defs
    requires c in defs && defs[c].role.Choice?
  {
    map x | x in defs :: Stored(defs, v, c, s, x)
  }

  /** sym_set_tristate_value, once it accepts. */
  function SetTo(defs: Defs, v: Valuation, s: Symbol, val: Tristate): Defs
    requires s in defs
  {
    var d := defs[s];
    if d.role.Member? && val == Yes && d.role.choice in defs && defs[d.role.choice].role.Choice? then
      SetMember(defs, v, d.role.choice, s)
    else defs[s := SetUser(d, val)]
  }

  // ----- what the stored values leave alone -----

  /** The same up to the user's value and the chosen member. */
  predicate SameButUser(d: Def, d': Def) {
    && d'.prompts == d.prompts && d'.revDep == d.revDep && d'.revDepInv == d.revDepInv && d'.defaults == d.defaults
    && d'.role.Choice? == d.role.Choice? && (!d.role.Choice? ==> d'.role == d.role) && d'.name == d.name
  }

  ghost predicate AllSameButUser(defs: Defs, defs': Defs) {
    defs'.Keys == defs.Keys && forall x {:trigger defs'[x]} :: x in defs ==> SameButUser(defs[x], defs'[x])
  }

  lemma SetSameButUser(defs: Defs, v: Valuation, c: Symbol, s: Symbol)
    requires c in defs && defs[c].role.Choice?
    ensures AllSameButUser(defs, SetMember(defs, v, c, s))
  {
    forall x | x in defs ensures SameButUser(defs[x], Stored(defs, v, c, s, x)) {}
  }

  lemma VisibleSame(s: Symbol, d: Def, d': Def, v: Valuation)
    requires SameButUser(d, d')
    ensures Visible(s, d', v) == Visible(s, d, v) && Selected(s, d', v) == Selected(s, d, v)
    ensures Deselected(d', v) == Deselected(d, v) && VisReads(d') == VisReads(d)
    ensures DefaultTri(d', v) == DefaultTri(d, v)
  {
  }

  lemma {:induction false} CandsSame(defs: Defs, defs': Defs, cs: seq<Cand>, v: Valuation)
    requires AllSameButUser(defs, defs')
    ensures FirstCand(defs', cs, v) == FirstCand(defs, cs, v) && CandReads(defs', cs) == CandReads(defs, cs)
  {
    if cs != [] {
      var m := cs[0].member;
      if m in defs { VisibleSame(m, defs[m], defs'[m], v); }
      CandsSame(defs, defs', cs[1..], v);
    }
  }

  lemma LikeIfSame(defs: Defs, defs': Defs, y: Symbol)
    requires AllSameButUser(defs, defs') && y in defs && defs'[y] == defs[y]
    ensures CalcLike(defs, defs', y)
  {
    forall u ensures Calc(defs', y, u) == Calc(defs, y, u) && PickOf(defs', y, u) == PickOf(defs, y, u) {
      if defs[y].role.Choice? { CandsSame(defs, defs', Cands(defs[y].role, defs[y].defaults), Held(u.v, y)); }
    }
  }

  /** Below the choice nothing is stored: its members are above it. */
  lemma LikeBelowChoice(defs: Defs, rank: Symbol -> nat, v: Valuation, c: Symbol, s: Symbol)
    requires Typed(defs) && Ranked(defs, rank) && Listed(defs, c, s)
    ensures LikeBelow(defs, SetMember(defs, v, c, s), rank, rank(c))
  {
    var defs' := SetMember(defs, v, c, s);
    SetSameButUser(defs, v, c, s);
    forall y | y in defs && y in defs[c].role.members ensures rank(c) < rank(y) { MemberAbove(defs, rank, c, y); }
    forall y | y in defs && rank(y) < rank(c) ensures CalcLike(defs, defs', y) { LikeIfSame(defs, defs', y); }
  }

  lemma MemberAbove(defs: Defs, rank: Symbol -> nat, c: Symbol, y: Symbol)
    requires Typed(defs) && Ranked(defs, rank) && y in defs && defs[y].role == Member(c)
    ensures c in defs && rank(c) < rank(y)
  {
    assert c in Vars(Reads(defs, y));
  }

  // ----- the choice afterwards -----

  function RestCands(d: Def): seq<Cand>
    requires d.role.Choice?
  {
    DefaultCands(d.defaults) + MemberCands(d.role.members)
  }

  lemma {:induction false} ListedIsCand(defs: Defs, ds: seq<Cand>, ms: seq<Symbol>, s: Symbol)
    requires s in ms
    ensures VisReads(DefOf(defs, s)) <= CandReads(defs, ds + MemberCands(ms))
    decreases |ds| + |ms|
  {
    if ds != [] {
      assert (ds + MemberCands(ms))[1..] == ds[1..] + MemberCands(ms);
      ListedIsCand(defs, ds[1..], ms, s);
    } else {
      assert [] + MemberCands(ms) == MemberCands(ms);
      assert MemberCands(ms)[1..] == MemberCands(ms[1..]);
      if ms[0] != s {
        ListedIsCand(defs, [], ms[1..], s);
        assert [] + MemberCands(ms[1..]) == MemberCands(ms[1..]);
      }
    }
  }

  /** A member that may be picked keeps the list from giving nobody. */
  lemma {:induction false} ListedIsTaken(defs: Defs, ds: seq<Cand>, ms: seq<Symbol>, s: Symbol, v: Valuation)
    requires Respects(v) && s in ms && Visible(s, DefOf(defs, s), v) != No
    ensures FirstCand(defs, ds + MemberCands(ms), v).Some?
    decreases |ds| + |ms|
  {
    if ds != [] {
      assert (ds + MemberCands(ms))[1..] == ds[1..] + MemberCands(ms);
      ListedIsTaken(defs, ds[1..], ms, s, v);
    } else {
      assert [] + MemberCands(ms) == MemberCands(ms);
      assert MemberCands(ms)[1..] == MemberCands(ms[1..]);
      assert RightValue(SymY, v(SymY));
      if ms[0] != s {
        ListedIsTaken(defs, [], ms[1..], s, v);
        assert [] + MemberCands(ms[1..]) == MemberCands(ms[1..]);
      }
    }
  }

  /** With s as the user's member: s if it may be picked, and else as without any. */
  lemma ChosenFirst(defs: Defs, d: Def, s: Symbol, v: Valuation)
    requires Respects(v) && d.role.Choice?
    ensures FirstCand(defs, Cands(d.role.(chosen := Some(s)), d.defaults), v) ==
            if Visible(s, DefOf(defs, s), v) != No then Some(s) else FirstCand(defs, RestCands(d), v)
  {
    var cs := Cands(d.role.(chosen := Some(s)), d.defaults);
    assert cs == [Cand(Sym(SymY), s)] + RestCands(d) && cs[1..] == RestCands(d);
    assert RightValue(SymY, v(SymY));
  }

  /** If nobody could be picked before, nobody is found behind the user's member. */
  lemma NobodyBefore(defs: Defs, d: Def, v: Valuation)
    requires d.role.Choice? && FirstCand(defs, Cands(d.role, d.defaults), v).None?
    ensures FirstCand(defs, RestCands(d), v).None?
  {
    var cs := Cands(d.role, d.defaults);
    if d.role.chosen.Some? {
      assert cs == [Cand(Sym(SymY), d.role.chosen.value)] + RestCands(d) && cs[1..] == RestCands(d);
    } else {
      assert cs == [] + RestCands(d) == RestCands(d);
    }
  }

  lemma HeldRespects(v: Valuation, c: Symbol)
    requires Respects(v) && c.Var? && IsTri(c)
    ensures Respects(Held(v, c))
  {
    forall x ensures RightValue(x, Held(v, c)(x)) { assert RightValue(x, v(x)); }
  }

  /** Whom the choice would pick is told by the old values. */
  lemma ChosenAfter(defs: Defs, c: Symbol, s: Symbol, v: Valuation, v': Valuation)
    requires Listed(defs, c, s) && Respects(v) && Respects(v') && c.Var? && IsTri(c) && Agree(v, v', Reads(defs, c))
    ensures var (defs', h) := (SetMember(defs, v, c, s), Held(v, c));
            Chosen(defs', c, defs'[c], v') ==
              if Visible(s, defs[s], h) != No then Some(s) else FirstCand(defs, RestCands(defs[c]), h)
  {
    var defs', d := SetMember(defs, v, c, s), defs[c];
    var cs := Cands(d.role.(chosen := Some(s)), d.defaults);
    SetSameButUser(defs, v, c, s);
    CandsSame(defs, defs', cs, Held(v', c));
    NewCandsAgree(defs, c, s, v, v');
    HeldRespects(v, c);
    ChosenFirst(defs, d, s, Held(v, c));
    assert defs'[c].role == d.role.(chosen := Some(s)) && defs'[c].defaults == d.defaults;
  }

  lemma NewCandsAgree(defs: Defs, c: Symbol, s: Symbol, v: Valuation, v': Valuation)
    requires Listed(defs, c, s) && Respects(v) && Respects(v') && Agree(v, v', Reads(defs, c))
    ensures var cs := Cands(defs[c].role.(chosen := Some(s)), defs[c].defaults);
            FirstCand(defs, cs, Held(v, c)) == FirstCand(defs, cs, Held(v', c))
  {
    var cs := Cands(defs[c].role.(chosen := Some(s)), defs[c].defaults);
    NewCandReads(defs, c, s);
    assert RightValue(SymY, v(SymY)) && RightValue(SymY, v'(SymY));
    CandsAgree(defs, cs, Held(v, c), Held(v', c));
  }

  /** What the choice reads stands, and so does its value before the pick. */
  lemma ChoiceStands(defs: Defs, rank: Symbol -> nat, c: Symbol, s: Symbol, w: World, w': World)
    requires Typed(defs) && Ranked(defs, rank) && Listed(defs, c, s)
    requires Solution(defs, w) && Solution(SetMember(defs, w.v, c, s), w')
    ensures CalcTri(c, SetMember(defs, w.v, c, s)[c], w') == CalcTri(c, defs[c], w)
    ensures Agree(w.v, w'.v, Reads(defs, c))
  {
    var defs' := SetMember(defs, w.v, c, s);
    SetSameButUser(defs, w.v, c, s);
    LikeBelowChoice(defs, rank, w.v, c, s);
    ReadsBelowSame(defs, defs', rank, c, w, w');
    ChoiceTriStands(c, defs[c], defs'[c], w, w');
  }

  /** The choice keeps its value, and where the member set is fully visible points to it if and only if it is y. */
  lemma ChoiceAfter(defs: Defs, rank: Symbol -> nat, c: Symbol, s: Symbol, w: World, w': World)
    requires Typed(defs) && Ranked(defs, rank) && Listed(defs, c, s)
    requires Solution(defs, w) && Solution(SetMember(defs, w.v, c, s), w')
    requires Visible(s, defs[s], w.v) == Yes
    ensures w'.v(c) == w.v(c) && (w'.pick(c) == Some(s) <==> w.v(c).tri == Yes)
  {
    var defs', h := SetMember(defs, w.v, c, s), Held(w.v, c);
    ChoiceStands(defs, rank, c, s, w, w');
    ChosenAfter(defs, c, s, w.v, w'.v);
    PickBefore(defs, c, s, w);
    assert w'.v(c) == Calc(defs', c, w') && w'.pick(c) == PickOf(defs', c, w');
    assert w.v(c) == Calc(defs, c, w);
  }

  /** A choice that is y sees the member; one that has fallen to n has nobody to pick, then and now. */
  lemma PickBefore(defs: Defs, c: Symbol, s: Symbol, w: World)
    requires Listed(defs, c, s) && Solution(defs, w) && c.Var? && IsTri(c) && Visible(s, defs[s], w.v) == Yes
    ensures var h := Held(w.v, c);
            && (w.v(c).tri == Yes ==> Visible(s, defs[s], h) == Yes && CalcTri(c, defs[c], w) == Yes)
            && (w.v(c).tri != Yes && CalcTri(c, defs[c], w) == Yes ==>
                 w.v(c).tri == No && Visible(s, defs[s], h) == No && FirstCand(defs, RestCands(defs[c]), h).None?)
  {
    var h := Held(w.v, c);
    assert w.v(c) == Calc(defs, c, w);
    HeldRespects(w.v, c);
    if w.v(c).tri == Yes {
      VisibleAgrees(s, defs[s], h, w.v);
    } else if CalcTri(c, defs[c], w) == Yes {
      NobodyBefore(defs, defs[c], h);
      if Visible(s, defs[s], h) != No {
        ListedIsTaken(defs, DefaultCands(defs[c].defaults), defs[c].role.members, s, h);
      }
    }
  }

  /** Above the choice the member's own visibility stands as well. */
  lemma MemberStands(defs: Defs, rank: Symbol -> nat, c: Symbol, s: Symbol, w: World, w': World)
    requires Typed(defs) && Ranked(defs, rank) && Listed(defs, c, s)
    requires Solution(defs, w) && Solution(SetMember(defs, w.v, c, s), w') && w'.v(c) == w.v(c)
    ensures Visible(s, SetMember(defs, w.v, c, s)[s], w'.v) == Visible(s, defs[s], w.v)
  {
    ChoiceStands(defs, rank, c, s, w, w');
    ListedIsCand(defs, DefaultCands(defs[c].defaults), defs[c].role.members, s);
    NewCandReads(defs, c, s);
    CandHead(defs, c, s);
    assert RightValue(SymY, w.v(SymY)) && RightValue(SymY, w'.v(SymY));
    VisibleAgrees(s, defs[s], w.v, w'.v);
    SetSameButUser(defs, w.v, c, s);
    VisibleSame(s, defs[s], SetMember(defs, w.v, c, s)[s], w'.v);
  }

  lemma CandHead(defs: Defs, c: Symbol, s: Symbol)
    requires Listed(defs, c, s)
    ensures VisReads(defs[s]) <= CandReads(defs, Cands(defs[c].role.(chosen := Some(s)), defs[c].defaults))
  {
    var cs := Cands(defs[c].role.(chosen := Some(s)), defs[c].defaults);
    assert cs == [Cand(Sym(SymY), s)] + RestCands(defs[c]);
  }

  /**
   A fully visible member for which y is accepted is y afterwards if and only if its choice is y already: accepting
   does not look at the choice.
   */
  lemma AcceptedMember(defs: Defs, rank: Symbol -> nat, c: Symbol, s: Symbol, w: World, w': World)
    requires Typed(defs) && Ranked(defs, rank) && Listed(defs, c, s) && IsTri(s)
    requires Solution(defs, w) && Solution(SetMember(defs, w.v, c, s), w')
    requires Visible(s, defs[s], w.v) == Yes
    ensures w'.v(s).tri == Yes <==> w.v(c).tri == Yes
    ensures w'.v(c) == w.v(c) && (w'.pick(c) == Some(s) <==> w.v(c).tri == Yes)
  {
    var defs' := SetMember(defs, w.v, c, s);
    ChoiceAfter(defs, rank, c, s, w, w');
    MemberStands(defs, rank, c, s, w, w');
    assert w'.v(s) == Calc(defs', s, w') && defs'[s].role == Member(c);
  }

  lemma NewCandReads(defs: Defs, c: Symbol, s: Symbol)
    requires Listed(defs, c, s)
    ensures CandReads(defs, Cands(defs[c].role.(chosen := Some(s)), defs[c].defaults)) <= Reads(defs, c) + {c, SymY}
  {
    var d := defs[c];
    var cs := Cands(d.role.(chosen := Some(s)), d.defaults);
    assert cs == [Cand(Sym(SymY), s)] + RestCands(d) && cs[1..] == RestCands(d);
    ListedIsCand(defs, DefaultCands(d.defaults), d.role.members, s);
    var before := Cands(d.role, d.defaults);
    if d.role.chosen.Some? {
      assert before == [Cand(Sym(SymY), d.role.chosen.value)] + RestCands(d) && before[1..] == RestCands(d);
    } else {
      assert before == [] + RestCands(d) == RestCands(d);
    }
  }

  lemma ChoiceTriStands(c: Symbol, d: Def, d': Def, w: World, w': World)
    requires d.role.Choice? && SameButUser(d, d') && d'.user == NotNew(d).user && Agree(w.v, w'.v, VisReads(d))
    ensures CalcTri(c, d', w') == CalcTri(c, d, w)
  {
    VisibleSame(c, d, d', w'.v);
    VisibleAgrees(c, d, w.v, w'.v);
  }

  // ----- a hidden member that is y already -----

  lemma SetRanked(defs: Defs, rank: Symbol -> nat, v: Valuation, c: Symbol, s: Symbol)
    requires Typed(defs) && Ranked(defs, rank) && Listed(defs, c, s)
    ensures Typed(SetMember(defs, v, c, s)) && Ranked(SetMember(defs, v, c, s), rank)
  {
    var defs' := SetMember(defs, v, c, s);
    SetSameButUser(defs, v, c, s);
    forall x | x in defs' ensures Downward(defs', rank, x) {
      SetReads(defs, v, c, s, x);
      StillDownward(defs, defs', rank, x);
    }
    RankedBy(defs', rank);
  }

  lemma StillDownward(defs: Defs, defs': Defs, rank: Symbol -> nat, x: Symbol)
    requires Ranked(defs, rank) && x in defs && defs'.Keys == defs.Keys
    requires Vars(Reads(defs', x)) <= Vars(Reads(defs, x))
    ensures Downward(defs', rank, x)
  {
  }

  lemma SetReads(defs: Defs, v: Valuation, c: Symbol, s: Symbol, x: Symbol)
    requires Listed(defs, c, s) && x in defs
    ensures Vars(Reads(SetMember(defs, v, c, s), x)) <= Vars(Reads(defs, x))
  {
    var defs' := SetMember(defs, v, c, s);
    SetSameButUser(defs, v, c, s);
    VisibleSame(x, defs[x], defs'[x], v);
    if defs[x].role.Choice? {
      CandsSame(defs, defs', Cands(defs'[x].role, defs[x].defaults), v);
      if x == c { NewCandReads(defs, c, s); }
    }
  }

  /** The choice goes on pointing to whom it points, and no member that is new is visible as m. */
  ghost predicate Undisturbed(defs: Defs, c: Symbol, s: Symbol, w: World)
    requires Listed(defs, c, s)
  {
    && PickOf(SetMember(defs, w.v, c, s), c, w) == w.pick(c)
    && forall x :: x in defs[c].role.members && x in defs && Visible(x, defs[x], w.v) == Mod ==> defs[x].user.Some?
  }

  lemma UserUnread(x: Symbol, d: Def, w: World)
    requires d.role.Member? && Visible(x, d, w.v) == Yes
    ensures CalcTri(x, NotNew(d), w) == CalcTri(x, d, w)
  {
    VisibleSame(x, d, NotNew(d), w.v);
  }

  lemma SetStays(defs: Defs, c: Symbol, s: Symbol, w: World, x: Symbol)
    requires Listed(defs, c, s) && Solution(defs, w) && x in defs && c.Var? && IsTri(c) && Undisturbed(defs, c, s, w)
    requires IsTri(s) && Visible(s, defs[s], w.v) == No
    requires x in defs[c].role.members ==> IsTri(x)
    ensures var defs' := SetMember(defs, w.v, c, s); w.v(x) == Calc(defs', x, w) && w.pick(x) == PickOf(defs', x, w)
  {
    var defs' := SetMember(defs, w.v, c, s);
    SetSameButUser(defs, w.v, c, s);
    assert w.v(x) == Calc(defs, x, w) && w.pick(x) == PickOf(defs, x, w);
    if x == s {
      HiddenIgnoresUser(s, defs[s], Some(TriValue(Yes)), w);
    } else if x == c {
      assert Agree(w.v, w.v, VisReads(defs[c]));
      ChoiceTriStands(c, defs[c], defs'[c], w, w);
      StillNone(defs, c, s, w);
    } else if defs'[x] == defs[x] {
      LikeIfSame(defs, defs', x);
    } else {
      UserUnread(x, defs[x], w);
    }
  }

  lemma StillNone(defs: Defs, c: Symbol, s: Symbol, w: World)
    requires Listed(defs, c, s) && Solution(defs, w) && c.Var? && IsTri(c)
    requires CalcTri(c, SetMember(defs, w.v, c, s)[c], w) == CalcTri(c, defs[c], w)
    requires PickOf(SetMember(defs, w.v, c, s), c, w) == w.pick(c)
    ensures Calc(SetMember(defs, w.v, c, s), c, w) == w.v(c)
  {
    assert w.v(c) == Calc(defs, c, w) && w.pick(c) == PickOf(defs, c, w);
  }

  /** Then nothing moves at all. */
  lemma HiddenMemberStays(defs: Defs, rank: Symbol -> nat, c: Symbol, s: Symbol, w: World, w': World)
    requires Typed(defs) && Ranked(defs, rank) && Listed(defs, c, s) && IsTri(s)
    requires forall x :: x in defs[c].role.members ==> IsTri(x)
    requires Solution(defs, w) && Solution(SetMember(defs, w.v, c, s), w')
    requires Visible(s, defs[s], w.v) == No && Undisturbed(defs, c, s, w)
    ensures forall x :: x in defs ==> SameAt(w, w', x)
  {
    var defs' := SetMember(defs, w.v, c, s);
    forall x | x in defs' ensures w.v(x) == Calc(defs', x, w) && w.pick(x) == PickOf(defs', x, w) {
      SetStays(defs, c, s, w, x);
    }
    SetRanked(defs, rank, w.v, c, s);
    forall x | x in defs ensures SameAt(w, w', x) { OneSolution(defs', rank, w, w', x); }
  }

  // ----- what is accepted -----

  /** Members are declared as such with their choice and are bool or tristate. */
  ghost predicate Registered(defs: Defs, s: Symbol)
    requires s in defs && defs[s].role.Member?
  {
    Listed(defs, defs[s].role.choice, s) && forall x :: x in defs[defs[s].role.choice].role.members ==> IsTri(x)
  }

  /** y is stored for a member of a choice. */
  predicate Picks(d: Def, val: Tristate) {
    d.role.Member? && val == Yes
  }

  /**
   What sym_set_tristate_value accepts is the value calculated afterwards, whatever else the change moves, but for y
   of a member. A fully visible member is y afterwards if and only if its choice was y before; a hidden one, which is
   y before, stays so if the choice and the new members are left undisturbed.
   */
  lemma AcceptedIsRecomputed(defs: Defs, rank: Symbol -> nat, s: Symbol, val: Tristate, w: World, w': World)
    requires s in defs && IsTri(s) && !defs[s].role.Choice? && Typed(defs) && Ranked(defs, rank)
    requires defs[s].role.Member? ==> Registered(defs, s)
    requires Solution(defs, w) && Solution(SetTo(defs, w.v, s, val), w') && Accepts(s, defs[s], w.v, val)
    ensures !Picks(defs[s], val) ==> w'.v(s).tri == val
    ensures Picks(defs[s], val) && Visible(s, defs[s], w.v) == Yes ==>
              (w'.v(s).tri == val <==> w.v(defs[s].role.choice).tri == Yes)
    ensures Picks(defs[s], val) && Visible(s, defs[s], w.v) != Yes ==>
              w.v(s).tri == val && (Undisturbed(defs, defs[s].role.choice, s, w) ==> w'.v(s).tri == val)
  {
    var d := defs[s];
    if !Picks(d, val) {
      AcceptedOfOwn(defs, rank, s, val, w, w');
    } else if Visible(s, d, w.v) == Yes {
      AcceptedMember(defs, rank, d.role.choice, s, w, w');
    } else {
      HiddenIsYes(defs, s, w);
      if Undisturbed(defs, d.role.choice, s, w) { HiddenMemberStays(defs, rank, d.role.choice, s, w, w'); }
    }
  }

  /** A member that is visible as m is at most m, so y is not accepted. */
  lemma HiddenIsYes(defs: Defs, s: Symbol, w: World)
    requires s in defs && IsTri(s) && defs[s].role.Member? && Solution(defs, w)
    requires Accepts(s, defs[s], w.v, Yes) && Visible(s, defs[s], w.v) != Yes
    ensures w.v(s).tri == Yes && Visible(s, defs[s], w.v) == No
  {
    assert w.v(s) == Calc(defs, s, w);
  }
}
