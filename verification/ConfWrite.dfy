/**
 Which entries conf_write prints (scripts/config/confdata.c:437-502): the walk meets the menus in preorder, a
 symbol may have several of them, and SYMBOL_WRITE is taken back when it is printed.
 */
module ConfWrite {
  import opened Options
  import opened ConfFile

  /** What a menu of the walk is: a menu without symbol (with its prompt, if visible), a choice, or a symbol. */
  datatype Met = Heading(title: Option<string>) | AChoice | Of(name: string)

  datatype Info = Info(kind: Kind, value: Value)

  function Names(ms: seq<Met>): set<string> {
    set k | 0 <= k < |ms| && ms[k].Of? :: ms[k].name
  }

  /** What is printed for one menu, with the flags as they are. */
  function ItemsOf(m: Met, info: string -> Info, flags: set<string>): seq<Item> {
    match m
    case Heading(t) => if t.Some? then [Title(t.value)] else []
    case AChoice => []
    case Of(n) => if n in flags then [Setting(n, info(n).kind, info(n).value)] else []
  }

  /** What is printed for all menus: a symbol with SYMBOL_WRITE at the first of its menus. */
  function Items(ms: seq<Met>, info: string -> Info, flags: set<string>): seq<Item> {
    if ms == [] then []
    else
      var init := ms[..|ms| - 1];
      Items(init, info, flags) + ItemsOf(ms[|ms| - 1], info, flags - Names(init))
  }

  lemma NamesNext(ms: seq<Met>, k: nat)
    requires k < |ms|
    ensures Names(ms[..k + 1]) == Names(ms[..k]) + if ms[k].Of? then {ms[k].name} else {}
  {
    var a, b := ms[..k], ms[..k + 1];
    forall n | n in Names(b) ensures n in Names(a) || (ms[k].Of? && n == ms[k].name) {
      var i :| 0 <= i < |b| && b[i].Of? && b[i].name == n;
      if i < k { assert a[i] == b[i]; }
    }
    forall n | n in Names(a) ensures n in Names(b) {
      var i :| 0 <= i < |a| && a[i].Of? && a[i].name == n;
      assert b[i] == a[i];
    }
    if ms[k].Of? { assert b[k].Of? && b[k].name == ms[k].name; }
  }

  function Shown(items: seq<Item>): string
    requires |items| <= 1
  {
    if items == [] then "" else Joined(Lines(items[0]))
  }

  lemma ItemsNext(ms: seq<Met>, k: nat, info: string -> Info, flags: set<string>)
    requires k < |ms|
    ensures var items := ItemsOf(ms[k], info, flags - Names(ms[..k]));
            && |items| <= 1
            && Printed(Items(ms[..k + 1], info, flags)) == Printed(Items(ms[..k], info, flags)) + Shown(items)
  {
    assert ms[..k + 1][..k] == ms[..k];
    var before, items := Items(ms[..k], info, flags), ItemsOf(ms[k], info, flags - Names(ms[..k]));
    if items == [] {
      assert before + [] == before && Printed(before) + "" == Printed(before);
    } else {
      assert items == [items[0]];
      PrintedNext(before, items[0]);
    }
  }

  method WriteMenu(m: Met, info: string -> Info, flags: set<string>) returns (text: string, left: set<string>)
    ensures |ItemsOf(m, info, flags)| <= 1 && text == Shown(ItemsOf(m, info, flags))
    ensures left == flags - if m.Of? then {m.name} else {}
  {
    text, left := "", flags;
    match m
    case Heading(t) => if t.Some? { text := WriteItem(Title(t.value)); }
    case AChoice =>
    case Of(n) =>
      if n in flags {
        text := WriteItem(Setting(n, info(n).kind, info(n).value));
        left := flags - {n};
      }
  }

  /** The loop over the menus of the walk. */
  method WriteMenus(ms: seq<Met>, info: string -> Info, flags: set<string>) returns (out: string, left: set<string>)
    ensures out == Printed(Items(ms, info, flags)) && left == flags - Names(ms)
  {
    out, left := "", flags;
    for k := 0 to |ms|
      invariant left == flags - Names(ms[..k])
      invariant out == Printed(Items(ms[..k], info, flags))
    {
      NamesNext(ms, k);
      ItemsNext(ms, k, info, flags);
      var text;
      text, left := WriteMenu(ms[k], info, left);
      out := out + text;
    }
    assert ms[..|ms|] == ms;
  }

  lemma PrintedNext(items: seq<Item>, x: Item)
    ensures Printed(items + [x]) == Printed(items) + Joined(Lines(x))
  {
    assert (items + [x])[..|items|] == items;
  }

  lemma EffectNext(v: Values, items: seq<Item>, x: Item)
    ensures EffectAll(v, items + [x]) == Effect(EffectAll(v, items), x)
  {
    assert (items + [x])[..|items|] == items;
  }

  /** Reading what is printed sets exactly the symbols with SYMBOL_WRITE that have a menu, each to its value. */
  lemma {:induction false} EffectOfItems(v: Values, ms: seq<Met>, info: string -> Info, flags: set<string>, n: string)
    ensures var r := EffectAll(v, Items(ms, info, flags));
            if n in flags && n in Names(ms) then n in r && r[n] == info(n).value
            else (n in r <==> n in v) && (n in v ==> r[n] == v[n])
  {
    if ms != [] {
      var k := |ms| - 1;
      EffectOfItems(v, ms[..k], info, flags, n);
      NamesNext(ms, k);
      assert ms[..k + 1] == ms;
      EffectOfMenu(v, Items(ms[..k], info, flags), ms[k], info, flags - Names(ms[..k]));
    }
  }

  /** What the items of one more menu add to the effect. */
  lemma EffectOfMenu(v: Values, before: seq<Item>, m: Met, info: string -> Info, flags: set<string>)
    ensures EffectAll(v, before + ItemsOf(m, info, flags)) ==
            if m.Of? && m.name in flags then EffectAll(v, before)[m.name := info(m.name).value]
            else EffectAll(v, before)
  {
    var items := ItemsOf(m, info, flags);
    if items == [] {
      assert before + items == before;
    } else {
      assert items == [items[0]];
      EffectNext(v, before, items[0]);
    }
  }

  /** Every symbol written has its value back after reading, whatever was set before; all others are as before. */
  lemma WrittenIsRestored(kinds: Kinds, v: Values, ms: seq<Met>, info: string -> Info, flags: set<string>, n: string)
    requires forall k :: 0 <= k < |Items(ms, info, flags)| ==> Good(kinds, Items(ms, info, flags)[k])
    ensures var r := ReadText(kinds, v, Printed(Items(ms, info, flags)));
            if n in flags && n in Names(ms) then n in r && r[n] == info(n).value
            else (n in r <==> n in v) && (n in v ==> r[n] == v[n])
  {
    RoundTrip(kinds, v, Items(ms, info, flags));
    EffectOfItems(v, ms, info, flags, n);
  }

  // ----- what is printed, and in which order -----

  function TitleOf(x: Item): seq<string> {
    if x.Title? then [x.text] else []
  }

  function Titles(items: seq<Item>): seq<string> {
    if items == [] then [] else Titles(items[..|items| - 1]) + TitleOf(items[|items| - 1])
  }

  /** The prompts of the menus without a symbol. */
  function Headings(ms: seq<Met>): seq<string> {
    if ms == [] then []
    else
      var m := ms[|ms| - 1];
      Headings(ms[..|ms| - 1]) + if m.Heading? && m.title.Some? then [m.title.value] else []
  }

  /** All headings are printed, in the order of the walk. */
  lemma {:induction false} TitlesAreHeadings(ms: seq<Met>, info: string -> Info, flags: set<string>)
    ensures Titles(Items(ms, info, flags)) == Headings(ms)
  {
    if ms != [] {
      var k := |ms| - 1;
      var before, items := Items(ms[..k], info, flags), ItemsOf(ms[k], info, flags - Names(ms[..k]));
      TitlesAreHeadings(ms[..k], info, flags);
      if items == [] {
        assert before + items == before;
      } else {
        assert items == [items[0]];
        assert (before + items)[..|before|] == before;
      }
    }
  }

  /** Every symbol set is one of these, and is set once. */
  predicate Once(items: seq<Item>, names: set<string>) {
    && (forall n :: 0 <= n < |items| && items[n].Setting? ==> items[n].name in names)
    && (forall n, k :: 0 <= k < n < |items| && items[k].Setting? && items[n].Setting? ==>
          items[k].name != items[n].name)
  }

  /** No symbol is printed twice, and only symbols with a menu are. */
  lemma {:induction false} PrintedOnce(ms: seq<Met>, info: string -> Info, flags: set<string>)
    ensures Once(Items(ms, info, flags), Names(ms))
  {
    if ms != [] {
      var k := |ms| - 1;
      var before, items := Items(ms[..k], info, flags), ItemsOf(ms[k], info, flags - Names(ms[..k]));
      PrintedOnce(ms[..k], info, flags);
      NamesNext(ms, k);
      assert ms[..k + 1] == ms;
      if items == [] {
        assert before + items == before;
      } else {
        assert items == [items[0]];
        assert items[0].Setting? ==> items[0].name in Names(ms) && items[0].name !in Names(ms[..k]);
      }
    }
  }
}
