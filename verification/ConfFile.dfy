/**
 Configuration files: what conf_write prints for each entry (scripts/config/confdata.c:446-502) and how
 conf_read_file takes it in again (scripts/config/confdata.c:112-242). Text holds no NUL, as C strings do not.
 */
module ConfFile {
  import opened Options
  import opened Expressions

  datatype Kind = IsBool | IsTristate | IsInt | IsHex | IsString
  datatype Value = Tri(tri: Tristate) | Text(text: string)

  /** The user values: a name is missing while the symbol is still SYMBOL_NEW. */
  type Values = map<string, Value>
  type Kinds = map<string, Kind>

  // ----- strings -----

  /** strchr: the first place of c, or the end. */
  function Find(s: string, c: char): (i: nat)
    ensures i <= |s| && (i < |s| ==> s[i] == c) && forall k :: 0 <= k < i ==> s[k] != c
  {
    if s == [] || s[0] == c then 0 else 1 + Find(s[1..], c)
  }

  predicate Without(c: char, s: string) {
    forall k :: 0 <= k < |s| ==> s[k] != c
  }

  lemma {:induction false} FindAfter(s: string, c: char, rest: string)
    requires Without(c, s)
    ensures Find(s + [c] + rest, c) == |s|
  {
    var t := s + [c] + rest;
    assert t[|s|] == c;
    assert forall k :: 0 <= k < |s| ==> t[k] == s[k];
  }

  predicate Special(c: char) {
    c == '\"' || c == '\\'
  }

  function Escaped(s: string): string {
    if s == [] then [] else (if Special(s[0]) then ['\\', s[0]] else [s[0]]) + Escaped(s[1..])
  }

  /** The text up to the closing quote, with each backslash dropped and the character behind it kept. */
  function Unescaped(s: string): Option<string> {
    if s == [] then None
    else if s[0] == '\"' then Some([])
    else
      var n := if s[0] == '\\' then 1 else 0;
      if n == |s| then None
      else
        var rest := Unescaped(s[n + 1..]);
        if rest.None? then None else Some([s[n]] + rest.value)
  }

  lemma {:induction false} EscapedBack(s: string, rest: string)
    ensures Unescaped(Escaped(s) + (['\"'] + rest)) == Some(s)
  {
    if s == [] {
      assert Escaped(s) + (['\"'] + rest) == ['\"'] + rest;
    } else {
      var tail := Escaped(s[1..]) + (['\"'] + rest);
      EscapedBack(s[1..], rest);
      HeadBack(s[0], tail);
      assert Escaped(s) + (['\"'] + rest) == (if Special(s[0]) then ['\\', s[0]] else [s[0]]) + tail;
      assert [s[0]] + s[1..] == s;
    }
  }

  lemma HeadBack(c: char, tail: string)
    requires Unescaped(tail).Some?
    ensures Unescaped((if Special(c) then ['\\', c] else [c]) + tail) == Some([c] + Unescaped(tail).value)
  {
    if Special(c) {
      assert (['\\', c] + tail)[2..] == tail;
    } else {
      assert ([c] + tail)[1..] == tail;
    }
  }

  function SlashOne(c: char, more: bool): string {
    if Special(c) || more then ['\\', c] else [c]
  }

  /** A text with backslashes before quotes and backslashes, and wherever else it is asked for. */
  function Slashed(s: string, more: seq<bool>): string
    requires |more| == |s|
  {
    if s == [] then [] else SlashOne(s[0], more[0]) + Slashed(s[1..], more[1..])
  }

  lemma SlashedHead(c: char, more: bool, tail: string)
    requires Unescaped(tail).Some?
    ensures Unescaped(SlashOne(c, more) + tail) == Some([c] + Unescaped(tail).value)
  {
    if Special(c) || more {
      assert (['\\', c] + tail)[2..] == tail;
    } else {
      assert ([c] + tail)[1..] == tail;
    }
  }

  lemma Grouped(a: string, b: string, c: string)
    ensures a + b + c == a + (b + c)
  {
  }

  /** A backslash is dropped before any character, whether it had to be there or not. */
  lemma {:induction false} SlashedBack(s: string, more: seq<bool>, rest: string)
    requires |more| == |s|
    ensures Unescaped(Slashed(s, more) + (['\"'] + rest)) == Some(s)
  {
    var close := ['\"'] + rest;
    if s == [] {
      assert Slashed(s, more) + close == close;
    } else {
      var t := Slashed(s[1..], more[1..]);
      SlashedBack(s[1..], more[1..], rest);
      SlashedHead(s[0], more[0], t + close);
      Grouped(SlashOne(s[0], more[0]), t, close);
      assert [s[0]] + s[1..] == s;
    }
  }

  /** Without a closing quote there is no text. */
  lemma {:induction false} Unclosed(s: string)
    requires Without('\"', s)
    ensures Unescaped(s) == None
  {
    if s != [] {
      var n := if s[0] == '\\' then 1 else 0;
      if n < |s| { Unclosed(s[n + 1..]); }
    }
  }

  // ----- numbers -----

  predicate Digit(c: char) {
    '0' <= c <= '9'
  }

  predicate HexDigit(c: char) {
    Digit(c) || 'a' <= c <= 'f' || 'A' <= c <= 'F'
  }

  predicate AllHex(d: string) {
    forall k :: 0 <= k < |d| ==> HexDigit(d[k])
  }

  /** Digits without a needless zero in front. */
  predicate Plain(d: string) {
    d != [] && (forall k :: 0 <= k < |d| ==> Digit(d[k])) && (d[0] == '0' ==> |d| == 1)
  }

  /** sym_string_valid */
  predicate Valid(kind: Kind, s: string) {
    match kind
    case IsString => true
    case IsInt =>
      Plain(if s != [] && s[0] == '-' then s[1..] else s)
    case IsHex =>
      var d := if |s| >= 2 && s[0] == '0' && (s[1] == 'x' || s[1] == 'X') then s[2..] else s;
      d != [] && AllHex(d)
    case _ => s != [] && s[0] in "yYmMnN"
  }

  function DigitChar(n: nat): char
    requires n < 10
  {
    '0' + n as char
  }

  /** A number in decimal. */
  function Decimal(n: nat): string {
    if n < 10 then [DigitChar(n)] else Decimal(n / 10) + [DigitChar(n % 10)]
  }

  function Numeral(n: int): string {
    if n < 0 then ['-'] + Decimal(-n) else Decimal(n)
  }

  lemma {:induction false} DecimalPlain(n: nat)
    ensures Plain(Decimal(n)) && (Decimal(n)[0] == '0' <==> n == 0)
  {
    if n >= 10 { DecimalPlain(n / 10); }
  }

  function DigitValue(c: char): (n: nat)
    requires Digit(c)
    ensures n < 10 && DigitChar(n) == c
  {
    c as int - '0' as int
  }

  function Amount(d: string): nat
    requires forall k :: 0 <= k < |d| ==> Digit(d[k])
  {
    if d == [] then 0 else 10 * Amount(d[..|d| - 1]) + DigitValue(d[|d| - 1])
  }

  lemma {:induction false} DecimalOf(d: string)
    requires Plain(d)
    ensures Decimal(Amount(d)) == d && (Amount(d) == 0 ==> d == "0") && (|d| > 1 ==> Amount(d) >= 10)
  {
    var n := |d| - 1;
    assert d == d[..n] + [d[n]];
    if n == 0 {
      assert Amount(d[..0]) == 0;
    } else {
      DecimalOf(d[..n]);
      if n == 1 { assert Amount(d[..1][..0]) == 0; }
    }
  }

  /** An int is valid if it is the decimal form of some number, or -0. */
  lemma IntIsNumeral(s: string)
    ensures Valid(IsInt, s) <==> s == "-0" || exists n: int :: s == Numeral(n)
  {
    if Valid(IsInt, s) {
      if s[0] == '-' {
        assert s == ['-'] + s[1..];
        DecimalOf(s[1..]);
        var n: int := Amount(s[1..]);
        if n > 0 { assert s == Numeral(0 - n); }
      } else {
        DecimalOf(s);
        assert s == Numeral(Amount(s));
      }
    }
    if n: int :| s == Numeral(n) { NumeralValid(n); }
  }

  lemma NumeralValid(n: int)
    ensures Valid(IsInt, Numeral(n))
  {
    DecimalPlain(if n < 0 then 0 - n else n);
    if n < 0 { assert Numeral(n)[1..] == Decimal(0 - n); }
  }

  predicate HexNumeral(s: string, prefix: string, d: string) {
    s == prefix + d && prefix in {"", "0x", "0X"} && d != [] && AllHex(d)
  }

  /** A hex is valid if it is hexadecimal digits, with 0x or 0X in front or without. */
  lemma HexIsNumeral(s: string)
    ensures Valid(IsHex, s) <==> exists prefix, d :: HexNumeral(s, prefix, d)
  {
    if Valid(IsHex, s) {
      if |s| >= 2 && s[0] == '0' && (s[1] == 'x' || s[1] == 'X') {
        assert s == s[..2] + s[2..];
        assert s[..2] == ['0', s[1]];
        assert HexNumeral(s, s[..2], s[2..]);
      } else {
        assert HexNumeral(s, "", s);
      }
    }
    if prefix, d :| HexNumeral(s, prefix, d) { HexAccepted(s, prefix, d); }
  }

  lemma HexAccepted(s: string, prefix: string, d: string)
    requires HexNumeral(s, prefix, d)
    ensures Valid(IsHex, s)
  {
    if prefix == "" {
      assert s == d;
      if |s| >= 2 { assert HexDigit(d[1]); }
    } else {
      assert s[2..] == d;
    }
  }

  // ----- writing -----

  /** What conf_write prints something for: the prompt of a menu, or a symbol to be written. */
  datatype Item = Title(text: string) | Setting(name: string, kind: Kind, value: Value)

  /** What is printed behind the '='. */
  function ValueText(kind: Kind, value: Value): string {
    match value
    case Tri(t) => if t == Mod then "m" else "y"
    case Text(s) => if kind == IsString then ['\"'] + (Escaped(s) + ['\"']) else s
  }

  /** The line of a setting, without its newline. */
  function LineOf(x: Item): string
    requires x.Setting?
  {
    if x.value == Tri(No) then "# CONFIG_" + x.name + " is not set"
    else "CONFIG_" + x.name + "=" + ValueText(x.kind, x.value)
  }

  function Lines(x: Item): seq<string> {
    if x.Title? then ["", "#", "# " + x.text, "#"] else [LineOf(x)]
  }

  /** Lines as they stand in a file. */
  function Joined(lines: seq<string>): string {
    if lines == [] then "" else lines[0] + ['\n'] + Joined(lines[1..])
  }

  function Printed(items: seq<Item>): string {
    if items == [] then "" else Printed(items[..|items| - 1]) + Joined(Lines(items[|items| - 1]))
  }

  // ----- reading -----

  const LineSize := 1024

  /** fgets: up to and with the first newline, but at most LineSize - 1 characters. */
  function Gets(text: string): (n: nat)
    requires text != []
    ensures 0 < n <= |text|
  {
    var i := Find(text, '\n');
    var n := if i < |text| then i + 1 else i;
    if n <= LineSize - 1 then n else LineSize - 1
  }

  predicate StartsWith(s: string, prefix: string) {
    prefix <= s
  }

  /** "NAME is not set" for a bool or tristate symbol. */
  predicate SetsNo(kinds: Kinds, s: string) {
    var i := Find(s, ' ');
    i < |s| && StartsWith(s[i + 1..], "is not set") && s[..i] in kinds && kinds[s[..i]] in {IsBool, IsTristate}
  }

  /** What stands behind the prefix of a comment. */
  function ReadNotSet(kinds: Kinds, v: Values, s: string): Values {
    if SetsNo(kinds, s) then v[s[..Find(s, ' ')] := Tri(No)] else v
  }

  /** The value behind the '=' of a line, for a symbol of this kind; None when it is not taken. */
  function ReadValue(kind: Kind, p: string): Option<Value> {
    match kind
    case IsTristate =>
      if p == [] then None
      else if p[0] == 'm' then Some(Tri(Mod))
      else if p[0] == 'y' then Some(Tri(Yes))
      else if p[0] == 'n' then Some(Tri(No))
      else None
    case IsBool =>
      if p == [] then None
      else if p[0] == 'y' then Some(Tri(Yes))
      else if p[0] == 'n' then Some(Tri(No))
      else None
    case IsString =>
      if p == [] || p[0] != '\"' then None
      else
        var u := Unescaped(p[1..]);
        if u.None? then None else Some(Text(u.value))
    case _ => if Valid(kind, p) then Some(Text(p)) else None
  }

  /** "NAME=value", behind the prefix. */
  function ReadPair(kinds: Kinds, v: Values, s: string): Values {
    var i := Find(s, '=');
    if i == |s| || s[..i] !in kinds then v
    else
      var p := s[i + 1..];
      var x := ReadValue(kinds[s[..i]], p[..Find(p, '\n')]);
      if x.None? then v else v[s[..i] := x.value]
  }

  function ReadLine(kinds: Kinds, v: Values, line: string): Values {
    if line == [] then v
    else if line[0] == '#' then
      if |line| < 2 || !StartsWith(line[2..], "CONFIG_") then v else ReadNotSet(kinds, v, line[9..])
    else if line[0] == 'C' then
      if !StartsWith(line, "CONFIG_") then v else ReadPair(kinds, v, line[7..])
    else v
  }

  function ReadText(kinds: Kinds, v: Values, text: string): Values
    decreases |text|
  {
    if text == [] then v
    else
      var n := Gets(text);
      ReadText(kinds, ReadLine(kinds, v, text[..n]), text[n..])
  }

  // ----- reading back what was printed -----

  predicate GoodName(name: string) {
    Without(' ', name) && Without('=', name) && Without('\n', name)
  }

  /** The values that occur: a bool is never m, numbers are well formed, strings are single lines. */
  predicate GoodValue(kind: Kind, value: Value) {
    match kind
    case IsBool => value.Tri? && value.tri != Mod
    case IsTristate => value.Tri?
    case IsString => value.Text? && Without('\n', value.text)
    case _ => value.Text? && Valid(kind, value.text)
  }

  /** A title that does not read like a line the writer prints for n. */
  predicate Harmless(kinds: Kinds, title: string) {
    !StartsWith(title, "CONFIG_") || !SetsNo(kinds, title[7..])
  }

  predicate Good(kinds: Kinds, x: Item) {
    if x.Title? then Without('\n', x.text) && Harmless(kinds, x.text) && |x.text| + 2 < LineSize
    else
      && GoodName(x.name) && x.name in kinds && kinds[x.name] == x.kind
      && GoodValue(x.kind, x.value) && |LineOf(x)| < LineSize
  }

  function Effect(v: Values, x: Item): Values {
    if x.Title? then v else v[x.name := x.value]
  }

  function EffectAll(v: Values, items: seq<Item>): Values {
    if items == [] then v else Effect(EffectAll(v, items[..|items| - 1]), items[|items| - 1])
  }

  /** One turn of fgets. */
  lemma Piece(kinds: Kinds, v: Values, a: string, b: string)
    requires a != [] && Gets(a + b) == |a|
    ensures ReadText(kinds, v, a + b) == ReadText(kinds, ReadLine(kinds, v, a), b)
  {
    assert (a + b)[..|a|] == a && (a + b)[|a|..] == b;
  }

  lemma ShortLine(kinds: Kinds, v: Values, l: string, rest: string)
    requires Without('\n', l) && |l| < LineSize - 1
    ensures ReadText(kinds, v, l + ['\n'] + rest) == ReadText(kinds, ReadLine(kinds, v, l + ['\n']), rest)
  {
    FindAfter(l, '\n', rest);
    Piece(kinds, v, l + ['\n'], rest);
  }

  lemma LongLine(kinds: Kinds, v: Values, l: string, rest: string)
    requires Without('\n', l) && |l| == LineSize - 1
    ensures ReadText(kinds, v, l + ['\n'] + rest) == ReadText(kinds, ReadLine(kinds, v, l), rest)
  {
    var next := ['\n'] + rest;
    FindAfter(l, '\n', rest);
    assert l + ['\n'] + rest == l + next;
    Piece(kinds, v, l, next);
    FindAfter([], '\n', rest);
    assert [] + ['\n'] + rest == next;
    Piece(kinds, ReadLine(kinds, v, l), ['\n'], rest);
    assert ReadLine(kinds, ReadLine(kinds, v, l), ['\n']) == ReadLine(kinds, v, l);
  }

  /** A line that fits is read in one piece; its newline may come in a piece of its own. */
  lemma ReadTextLine(kinds: Kinds, v: Values, l: string, rest: string)
    requires Without('\n', l) && |l| < LineSize
    ensures ReadText(kinds, v, l + ['\n'] + rest)
         == ReadText(kinds, ReadLine(kinds, v, l + if |l| < LineSize - 1 then ['\n'] else []), rest)
  {
    if |l| < LineSize - 1 {
      ShortLine(kinds, v, l, rest);
    } else {
      LongLine(kinds, v, l, rest);
      assert l + [] == l;
    }
  }

  predicate End(e: string) {
    e == [] || e == ['\n']
  }

  lemma NotSetRead(kinds: Kinds, v: Values, name: string, e: string)
    requires GoodName(name) && name in kinds && kinds[name] in {IsBool, IsTristate}
    ensures ReadNotSet(kinds, v, name + [' '] + ("is not set" + e)) == v[name := Tri(No)]
  {
    var tail := "is not set" + e;
    var s := name + [' '] + tail;
    FindAfter(name, ' ', tail);
    assert s[..|name|] == name && s[|name| + 1..] == tail;
    assert tail[..10] == "is not set";
  }

  lemma PairRead(kinds: Kinds, v: Values, name: string, p: string, e: string)
    requires GoodName(name) && End(e) && name in kinds && Without('\n', p)
    ensures var x := ReadValue(kinds[name], p);
            ReadPair(kinds, v, name + ['='] + (p + e)) == if x.None? then v else v[name := x.value]
  {
    var s := name + ['='] + (p + e);
    FindAfter(name, '=', p + e);
    assert s[..|name|] == name && s[|name| + 1..] == p + e;
    CutNewline(p, e);
  }

  lemma CommentLine(kinds: Kinds, v: Values, s: string)
    ensures ReadLine(kinds, v, "# CONFIG_" + s) == ReadNotSet(kinds, v, s)
  {
    var line := "# CONFIG_" + s;
    assert line[2..][..7] == "CONFIG_" && line[9..] == s;
  }

  lemma CutNewline(p: string, e: string)
    requires Without('\n', p) && End(e)
    ensures (p + e)[..Find(p + e, '\n')] == p
  {
    if e == [] {
      assert p + e == p;
    } else {
      FindAfter(p, '\n', []);
      assert p + e == p + ['\n'] + [];
    }
  }

  lemma {:induction false} EscapedOneLine(s: string)
    requires Without('\n', s)
    ensures Without('\n', Escaped(s))
  {
    if s != [] { EscapedOneLine(s[1..]); }
  }

  /** What stands behind the '=' of a setting gives its value back. */
  lemma ValueBack(kind: Kind, value: Value)
    requires GoodValue(kind, value) && value != Tri(No)
    ensures ReadValue(kind, ValueText(kind, value)) == Some(value)
    ensures Without('\n', ValueText(kind, value))
  {
    if kind == IsString {
      EscapedOneLine(value.text);
      EscapedBack(value.text, []);
      assert ['\"'] + [] == ['\"'];
      assert ValueText(kind, value)[1..] == Escaped(value.text) + ['\"'];
    } else if value.Text? {
      NumberOneLine(kind, value.text);
    }
  }

  lemma NumberOneLine(kind: Kind, s: string)
    requires kind in {IsInt, IsHex} && Valid(kind, s)
    ensures Without('\n', s)
  {
    if kind == IsInt {
      var d := if s[0] == '-' then s[1..] else s;
      forall k | 0 <= k < |s| ensures s[k] != '\n' {
        if |s| == |d| { assert Digit(d[k]); } else if k > 0 { assert Digit(d[k - 1]); }
      }
    } else {
      var d := if |s| >= 2 && s[0] == '0' && (s[1] == 'x' || s[1] == 'X') then s[2..] else s;
      forall k | 0 <= k < |s| ensures s[k] != '\n' {
        if |s| == |d| { assert HexDigit(d[k]); } else if k > 1 { assert HexDigit(d[k - 2]); }
      }
    }
  }

  lemma LineParts(x: Item, e: string)
    requires x.Setting?
    ensures x.value == Tri(No) ==> LineOf(x) + e == "# CONFIG_" + (x.name + [' '] + ("is not set" + e))
    ensures x.value != Tri(No) ==> LineOf(x) + e == "CONFIG_" + (x.name + ['='] + (ValueText(x.kind, x.value) + e))
  {}

  lemma SettingRead(kinds: Kinds, v: Values, x: Item, e: string)
    requires x.Setting? && Good(kinds, x) && End(e)
    ensures ReadLine(kinds, v, LineOf(x) + e) == v[x.name := x.value]
  {
    LineParts(x, e);
    if x.value == Tri(No) { NoRead(kinds, v, x.name, e); } else { ValueRead(kinds, v, x.name, x.kind, x.value, e); }
  }

  lemma NoRead(kinds: Kinds, v: Values, name: string, e: string)
    requires GoodName(name) && name in kinds && kinds[name] in {IsBool, IsTristate}
    ensures ReadLine(kinds, v, "# CONFIG_" + (name + [' '] + ("is not set" + e))) == v[name := Tri(No)]
  {
    NotSetRead(kinds, v, name, e);
    CommentLine(kinds, v, name + [' '] + ("is not set" + e));
  }

  lemma ValueRead(kinds: Kinds, v: Values, name: string, kind: Kind, value: Value, e: string)
    requires GoodName(name) && name in kinds && kinds[name] == kind && GoodValue(kind, value) && value != Tri(No)
    requires End(e)
    ensures ReadLine(kinds, v, "CONFIG_" + (name + ['='] + (ValueText(kind, value) + e))) == v[name := value]
  {
    var p := ValueText(kind, value);
    ValueBack(kind, value);
    PairRead(kinds, v, name, p, e);
    PairLine(kinds, v, name + ['='] + (p + e));
  }

  /** A line that gives a bool or tristate symbol a value by its first letter; the writer prints y and m only. */
  function ByLetter(kind: Kind, c: char): Option<Value> {
    if kind !in {IsBool, IsTristate} then None
    else if c == 'n' then Some(Tri(No))
    else if c == 'y' then Some(Tri(Yes))
    else if c == 'm' && kind == IsTristate then Some(Tri(Mod))
    else None
  }

  lemma LetterValue(kind: Kind, c: char)
    requires c in "nym"
    ensures ReadValue(kind, [c]) == ByLetter(kind, c)
  {
    assert [c][0] == c;
    if kind == IsHex { assert AllHex([c]) ==> HexDigit([c][0]); }
    if kind == IsInt { assert Valid(kind, [c]) ==> Digit([c][0]); }
  }

  lemma UnknownRead(kinds: Kinds, v: Values, name: string, tail: string)
    requires GoodName(name) && name !in kinds
    ensures ReadPair(kinds, v, name + ['='] + tail) == v
  {
    FindAfter(name, '=', tail);
    assert (name + ['='] + tail)[..|name|] == name;
  }

  lemma PairLine(kinds: Kinds, v: Values, s: string)
    ensures ReadLine(kinds, v, "CONFIG_" + s) == ReadPair(kinds, v, s)
  {
    assert ("CONFIG_" + s)[7..] == s && "CONFIG_" <= "CONFIG_" + s && ("CONFIG_" + s)[0] == 'C';
  }

  lemma LetterLine(kinds: Kinds, v: Values, name: string, c: char, e: string)
    requires GoodName(name) && c in "nym" && End(e)
    ensures var x := if name in kinds then ByLetter(kinds[name], c) else None;
            ReadLine(kinds, v, "CONFIG_" + (name + ['='] + ([c] + e))) == if x.None? then v else v[name := x.value]
  {
    PairLine(kinds, v, name + ['='] + ([c] + e));
    if name in kinds {
      PairRead(kinds, v, name, [c], e);
      LetterValue(kinds[name], c);
    } else {
      UnknownRead(kinds, v, name, [c] + e);
    }
  }

  lemma LetterText(name: string, c: char, e: string)
    requires GoodName(name) && c in "nym"
    ensures Without('\n', "CONFIG_" + (name + ['=', c]))
    ensures "CONFIG_" + (name + ['=', c]) + e == "CONFIG_" + (name + ['='] + ([c] + e))
  {
    assert ['=', c] == ['='] + [c];
  }

  /** `CONFIG_NAME=n` sets a bool or tristate symbol to n, and so on; no other symbol is touched by such a line. */
  lemma LetterRead(kinds: Kinds, v: Values, name: string, c: char, rest: string)
    requires GoodName(name) && c in "nym" && |name| + 9 < LineSize
    ensures var x := if name in kinds then ByLetter(kinds[name], c) else None;
            ReadText(kinds, v, "CONFIG_" + (name + ['=', c]) + ['\n'] + rest)
            == ReadText(kinds, if x.None? then v else v[name := x.value], rest)
  {
    var l := "CONFIG_" + (name + ['=', c]);
    var e := if |l| < LineSize - 1 then ['\n'] else [];
    LetterText(name, c, e);
    ReadTextLine(kinds, v, l, rest);
    LetterLine(kinds, v, name, c, e);
  }

  /** " is not set" from place i on, behind the name of a bool or tristate symbol. */
  predicate OffAt(kinds: Kinds, s: string, i: nat) {
    && i + 11 <= |s| && s[i..i + 11] == " is not set" && Without(' ', s[..i])
    && s[..i] in kinds && (kinds[s[..i]] == IsBool || kinds[s[..i]] == IsTristate)
  }

  /** The eleven characters as the reader looks at them. */
  lemma CutOff(s: string, i: nat)
    requires i < |s| && s[i] == ' '
    ensures "is not set" <= s[i + 1..] <==> i + 11 <= |s| && s[i..i + 11] == " is not set"
  {
    var t, n := s[i + 1..], "is not set";
    assert |n| == 10 && " is not set" == [' '] + n;
    if n <= t {
      assert t[..10] == n && t[..10] == s[i + 1..i + 11];
      assert s[i..i + 11] == [' '] + s[i + 1..i + 11];
    }
    if i + 11 <= |s| && s[i..i + 11] == " is not set" {
      assert s[i + 1..i + 11] == s[i..i + 11][1..];
      assert t[..10] == s[i + 1..i + 11] == n;
    }
  }

  lemma FindIs(s: string, c: char, i: nat)
    requires i < |s| && s[i] == c && Without(c, s[..i])
    ensures Find(s, c) == i
  {
    assert forall k :: 0 <= k < i ==> s[k] == s[..i][k];
  }

  /** A comment switches a symbol off if and only if this stands behind its "CONFIG_", with anything behind it. */
  lemma SetsNoExact(kinds: Kinds, s: string)
    ensures SetsNo(kinds, s) <==> exists i: nat :: OffAt(kinds, s, i)
  {
    var j := Find(s, ' ');
    if SetsNo(kinds, s) {
      CutOff(s, j);
      assert OffAt(kinds, s, j);
    }
    if i: nat :| OffAt(kinds, s, i) {
      assert s[i] == s[i..i + 11][0];
      CutOff(s, i);
      FindIs(s, ' ', i);
    }
  }

  /** A line that changes nothing. */
  predicate Quiet(kinds: Kinds, v: Values, l: string) {
    Without('\n', l) && |l| < LineSize && ReadLine(kinds, v, l + []) == v && ReadLine(kinds, v, l + ['\n']) == v
  }

  lemma QuietLine(kinds: Kinds, v: Values, l: string, rest: string)
    requires Quiet(kinds, v, l)
    ensures ReadText(kinds, v, l + ['\n'] + rest) == ReadText(kinds, v, rest)
  {
    ReadTextLine(kinds, v, l, rest);
  }

  lemma {:induction false} QuietLines(kinds: Kinds, v: Values, lines: seq<string>, rest: string)
    requires forall k :: 0 <= k < |lines| ==> Quiet(kinds, v, lines[k])
    ensures ReadText(kinds, v, Joined(lines) + rest) == ReadText(kinds, v, rest)
  {
    if lines == [] {
      assert Joined(lines) + rest == rest;
    } else {
      QuietLines(kinds, v, lines[1..], rest);
      assert Quiet(kinds, v, lines[0]);
      QuietLine(kinds, v, lines[0], Joined(lines[1..]) + rest);
      JoinedFirst(lines, rest);
    }
  }

  lemma JoinedFirst(lines: seq<string>, rest: string)
    requires lines != []
    ensures Joined(lines) + rest == lines[0] + ['\n'] + (Joined(lines[1..]) + rest)
  {
  }

  lemma SetsNoLine(kinds: Kinds, s: string)
    requires Without('\n', s)
    ensures SetsNo(kinds, s + ['\n']) <==> SetsNo(kinds, s)
  {
    var i, t := Find(s, ' '), s + ['\n'];
    if i < |s| {
      FindSame(s, t, ' ');
      assert t[..i] == s[..i] && t[i + 1..] == s[i + 1..] + ['\n'];
      PrefixKept(s[i + 1..], "is not set");
    }
  }

  lemma {:induction false} FindSame(s: string, t: string, c: char)
    requires s <= t && Find(s, c) < |s|
    ensures Find(t, c) == Find(s, c)
  {
  }

  lemma PrefixKept(t: string, prefix: string)
    requires Without('\n', prefix)
    ensures StartsWith(t + ['\n'], prefix) <==> StartsWith(t, prefix)
  {
    var n := |prefix|;
    if n <= |t| {
      assert (t + ['\n'])[..n] == t[..n];
    } else if n == |t| + 1 {
      assert (t + ['\n'])[n - 1] == '\n';
    }
  }

  /** A title is read without effect if and only if it is harmless. */
  lemma TitleExact(kinds: Kinds, v: Values, title: string, e: string)
    requires Without('\n', title) && End(e)
    ensures Harmless(kinds, title) ==> ReadLine(kinds, v, "# " + title + e) == v
    ensures !Harmless(kinds, title) ==>
              exists name :: name in kinds && ReadLine(kinds, v, "# " + title + e) == v[name := Tri(No)]
  {
    var line := "# " + title + e;
    assert line[2..] == title + e;
    assert Without('\n', "CONFIG_");
    if e == [] { assert title + e == title; } else { PrefixKept(title, "CONFIG_"); }
    if StartsWith(title, "CONFIG_") {
      assert line[9..] == title[7..] + e;
      if e == [] { assert title[7..] + e == title[7..]; } else { SetsNoLine(kinds, title[7..]); }
    }
  }

  /** A menu with this title switches the symbol off when the file is read again. */
  function OffTitle(name: string): string {
    "CONFIG_" + (name + [' '] + "is not set")
  }

  lemma TitleDoesHarm(kinds: Kinds, v: Values, name: string)
    requires GoodName(name) && name in kinds && kinds[name] in {IsBool, IsTristate}
    ensures ReadLine(kinds, v, "# " + OffTitle(name) + ['\n']) == v[name := Tri(No)]
    ensures !Harmless(kinds, OffTitle(name))
  {
    NotSetRead(kinds, v, name, ['\n']);
    CommentLine(kinds, v, name + [' '] + ("is not set" + ['\n']));
    Regrouped("# ", "CONFIG_", name + [' '], "is not set", ['\n']);
    assert "# " + "CONFIG_" == "# CONFIG_";
    NameSetsNo(kinds, name);
    SkipPrefix("CONFIG_", name + [' '] + "is not set");
  }

  lemma Regrouped(a: string, b: string, c: string, d: string, e: string)
    ensures a + (b + (c + d)) + e == (a + b) + (c + (d + e))
  {
  }

  lemma SkipPrefix(a: string, b: string)
    ensures StartsWith(a + b, a) && (a + b)[|a|..] == b
  {
  }

  lemma NameSetsNo(kinds: Kinds, name: string)
    requires GoodName(name) && name in kinds && kinds[name] in {IsBool, IsTristate}
    ensures SetsNo(kinds, name + [' '] + "is not set")
  {
    var s := name + [' '] + "is not set";
    FindAfter(name, ' ', "is not set");
    assert s[..|name|] == name && s[|name| + 1..] == "is not set";
  }

  lemma TitleRead(kinds: Kinds, v: Values, title: string, rest: string)
    requires Good(kinds, Title(title))
    ensures ReadText(kinds, v, Joined(Lines(Title(title))) + rest) == ReadText(kinds, v, rest)
  {
    assert Quiet(kinds, v, "") && Quiet(kinds, v, "#");
    TitleExact(kinds, v, title, []);
    TitleExact(kinds, v, title, ['\n']);
    QuietLines(kinds, v, Lines(Title(title)), rest);
  }

  lemma LineOneLine(x: Item)
    requires x.Setting? && GoodName(x.name) && GoodValue(x.kind, x.value)
    ensures Without('\n', LineOf(x))
  {
    if x.value != Tri(No) { ValueBack(x.kind, x.value); }
  }

  lemma JoinedOne(l: string, rest: string)
    ensures Joined([l]) + rest == l + ['\n'] + rest
  {
    assert [l][1..] == [];
  }

  lemma OneLineRead(kinds: Kinds, v: Values, l: string, rest: string)
    requires Without('\n', l) && |l| < LineSize
    ensures ReadText(kinds, v, Joined([l]) + rest)
         == ReadText(kinds, ReadLine(kinds, v, l + if |l| < LineSize - 1 then ['\n'] else []), rest)
  {
    ReadTextLine(kinds, v, l, rest);
    JoinedOne(l, rest);
  }

  lemma ItemRead(kinds: Kinds, v: Values, x: Item, rest: string)
    requires Good(kinds, x)
    ensures ReadText(kinds, v, Joined(Lines(x)) + rest) == ReadText(kinds, Effect(v, x), rest)
  {
    if x.Title? {
      TitleRead(kinds, v, x.text, rest);
    } else {
      var l := LineOf(x);
      SettingRead(kinds, v, x, if |l| < LineSize - 1 then ['\n'] else []);
      LineOneLine(x);
      OneLineRead(kinds, v, l, rest);
    }
  }

  lemma {:induction false} ItemsRead(kinds: Kinds, v: Values, items: seq<Item>, rest: string)
    requires forall k :: 0 <= k < |items| ==> Good(kinds, items[k])
    ensures ReadText(kinds, v, Printed(items) + rest) == ReadText(kinds, EffectAll(v, items), rest)
  {
    if items == [] {
      assert Printed(items) + rest == rest;
    } else {
      var n := |items| - 1;
      var last := Joined(Lines(items[n]));
      assert Printed(items) + rest == Printed(items[..n]) + (last + rest);
      ItemsRead(kinds, v, items[..n], last + rest);
      ItemRead(kinds, EffectAll(v, items[..n]), items[n], rest);
    }
  }

  /** Reading a printed file sets exactly the printed symbols to the printed values. */
  lemma RoundTrip(kinds: Kinds, v: Values, items: seq<Item>)
    requires forall k :: 0 <= k < |items| ==> Good(kinds, items[k])
    ensures ReadText(kinds, v, Printed(items)) == EffectAll(v, items)
  {
    ItemsRead(kinds, v, items, []);
    assert Printed(items) + [] == Printed(items);
  }

  /** Every symbol that is written once is restored, whatever was read before. */
  lemma {:induction false} Restored(v: Values, items: seq<Item>, k: nat)
    requires k < |items| && items[k].Setting?
    requires forall j :: k < j < |items| && items[j].Setting? ==> items[j].name != items[k].name
    ensures items[k].name in EffectAll(v, items) && EffectAll(v, items)[items[k].name] == items[k].value
  {
    if k < |items| - 1 {
      Restored(v, items[..|items| - 1], k);
    }
  }

  // ----- the loops -----

  lemma {:induction false} EscapedPrefix(s: string, i: nat)
    requires i < |s|
    ensures Escaped(s[..i + 1]) == Escaped(s[..i]) + if Special(s[i]) then ['\\', s[i]] else [s[i]]
  {
    if i > 0 {
      EscapedPrefix(s[1..], i - 1);
      assert s[1..][..i] == s[..i + 1][1..] && s[1..][..i - 1] == s[..i][1..];
    } else {
      assert s[..1] == [s[0]] && [s[0]][1..] == [] && s[..0] == [];
      assert Escaped([]) + ['\\', s[0]] == ['\\', s[0]] && Escaped([]) + [s[0]] == [s[0]];
    }
  }

  /** The do loop that prints a string: runs of plain characters, and special ones behind a backslash. */
  method PutEscaped(str: string) returns (out: string)
    ensures out == Escaped(str)
  {
    out := [];
    var i, again := 0, true;
    while again
      invariant 0 <= i <= |str| && out == Escaped(str[..i]) && (!again ==> i == |str|)
      decreases |str| - i, again
    {
      ghost var start := i;
      while i < |str| && !Special(str[i])
        invariant start <= i <= |str| && out == Escaped(str[..i])
      {
        EscapedPrefix(str, i);
        out := out + [str[i]];
        i := i + 1;
      }
      while i < |str| && Special(str[i])
        invariant start <= i <= |str| && out == Escaped(str[..i])
        invariant i == start ==> i == |str| || Special(str[i])
      {
        EscapedPrefix(str, i);
        out := out + ['\\', str[i]];
        i := i + 1;
      }
      again := i < |str|;
    }
    assert str[..i] == str;
  }

  function Prefixed(head: string, tail: Option<string>): Option<string> {
    if tail.None? then None else Some(head + tail.value)
  }

  /** The loop that takes a string in: each backslash is moved out of the line, up to the closing quote. */
  method TakeString(p: string) returns (r: Option<string>)
    ensures r == Unescaped(p)
  {
    var line, p2 := p, 0;
    assert p[0..] == p && (Unescaped(p).Some? ==> [] + Unescaped(p).value == Unescaped(p).value);
    while p2 < |line|
      invariant 0 <= p2 <= |line| && Unescaped(p) == Prefixed(line[..p2], Unescaped(line[p2..]))
      decreases |line| - p2
    {
      var c := line[p2];
      if c == '\"' {
        assert line[..p2] + [] == line[..p2];
        return Some(line[..p2]);
      }
      if c == '\\' {
        if p2 + 1 == |line| {
          return None;
        }
        UnescapeMoves(line, p2);
        line := line[..p2] + line[p2 + 1..];
      } else {
        UnescapePasses(line, p2);
      }
      p2 := p2 + 1;
    }
    return None;
  }

  lemma UnescapePasses(line: string, i: nat)
    requires i < |line| && !Special(line[i])
    ensures Prefixed(line[..i], Unescaped(line[i..])) == Prefixed(line[..i + 1], Unescaped(line[i + 1..]))
  {
    assert line[i..][1..] == line[i + 1..];
    var t := Unescaped(line[i + 1..]);
    if t.Some? { assert line[..i] + ([line[i]] + t.value) == line[..i + 1] + t.value; }
  }

  lemma UnescapeMoves(line: string, i: nat)
    requires i + 1 < |line| && line[i] == '\\'
    ensures var moved := line[..i] + line[i + 1..];
            Prefixed(line[..i], Unescaped(line[i..])) == Prefixed(moved[..i + 1], Unescaped(moved[i + 1..]))
  {
    var moved := line[..i] + line[i + 1..];
    assert line[i..][2..] == line[i + 2..] == moved[i + 1..];
    var t := Unescaped(line[i + 2..]);
    if t.Some? { assert line[..i] + ([line[i + 1]] + t.value) == moved[..i + 1] + t.value; }
  }

  /** conf_write for the entries met by the walk over the menus. */
  method WriteItems(items: seq<Item>) returns (out: string)
    ensures out == Printed(items)
  {
    out := "";
    for k := 0 to |items|
      invariant out == Printed(items[..k])
    {
      var text := WriteItem(items[k]);
      out := out + text;
      assert items[..k + 1][..k] == items[..k];
    }
    assert items[..|items|] == items;
  }

  method WriteItem(x: Item) returns (out: string)
    ensures out == Joined(Lines(x))
  {
    match x
    case Title(text) => out := Joined(["", "#", "# " + text, "#"]);
    case Setting(name, kind, value) =>
      var line;
      if value.Text? && kind == IsString {
        var body := PutEscaped(value.text);
        line := "CONFIG_" + name + "=" + (['\"'] + (body + ['\"']));
      } else {
        line := LineOf(x);
      }
      out := line + ['\n'];
      JoinedOne(line, []);
      assert line + ['\n'] + [] == out && Joined([line]) + [] == Joined([line]);
  }

  class Reader {
    const kinds: Kinds
    var user: Values

    constructor (kinds: Kinds)
      ensures this.kinds == kinds && user == map[]
    {
      this.kinds, user := kinds, map[];
    }

    /** conf_read_file */
    method ReadFile(text: string)
      modifies this
      ensures user == ReadText(kinds, old(user), text)
    {
      var rest := text;
      while rest != []
        invariant ReadText(kinds, user, rest) == ReadText(kinds, old(user), text)
        decreases |rest|
      {
        var n := Gets(rest);
        TakeLine(rest[..n]);
        rest := rest[n..];
      }
    }

    method TakeLine(line: string)
      modifies this
      ensures user == ReadLine(kinds, old(user), line)
    {
      if line != [] && line[0] == '#' {
        if |line| >= 2 && StartsWith(line[2..], "CONFIG_") {
          user := ReadNotSet(kinds, user, line[9..]);
        }
      } else if line != [] && line[0] == 'C' && StartsWith(line, "CONFIG_") {
        TakePair(line[7..]);
      }
    }

    method TakePair(s: string)
      modifies this
      ensures user == ReadPair(kinds, old(user), s)
    {
      var i := Find(s, '=');
      if i < |s| && s[..i] in kinds {
        var p := s[i + 1..];
        var x := TakeValue(kinds[s[..i]], p[..Find(p, '\n')]);
        if x.Some? {
          user := user[s[..i] := x.value];
        }
      }
    }
  }

  method TakeValue(kind: Kind, p: string) returns (x: Option<Value>)
    ensures x == ReadValue(kind, p)
  {
    if kind == IsString && p != [] && p[0] == '\"' {
      var u := TakeString(p[1..]);
      x := if u.None? then None else Some(Text(u.value));
    } else {
      x := ReadValue(kind, p);
    }
  }
}
