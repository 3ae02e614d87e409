/**
 The bounded shell quoter of bcclient (package/bcclient/src/bcclient.c:151-223)
 and the reading of its output by the quoting rules of sections 2.2.2
 (single quotes) and 2.2.3 (double quotes) of the POSIX Shell Command Language.
 */
module ShellQuote {

  /** A character other than NUL. */
  type Ch = c: char | c != '\0' witness 'a'

  datatype Mode = Plain | Single | Double

  /** The word read so far and the open quote; Bad for an unquoted character that is no quote, or a special one. */
  datatype Read = Reading(word: seq<char>, mode: Mode) | Bad

  /** One character of a shell word. Outside quotes only quotes occur in what the quoter writes. */
  function ReadChar(r: Read, c: char): Read {
    match r
    case Bad => Bad
    case Reading(w, Plain) =>
      if c == '\'' then Reading(w, Single) else if c == '\"' then Reading(w, Double) else Bad
    case Reading(w, Single) => if c == '\'' then Reading(w, Plain) else Reading(w + [c], Single)
    case Reading(w, Double) =>
      if c == '\"' then Reading(w, Plain)
      else if c == '$' || c == '`' || c == '\\' then Bad
      else Reading(w + [c], Double)
  }

  function ReadAll(s: seq<char>): Read {
    if s == [] then Reading([], Plain) else ReadChar(ReadAll(s[..|s| - 1]), s[|s| - 1])
  }

  /** The output is one complete word, equal to w. */
  predicate ReadsAs(s: seq<char>, w: seq<char>) {
    s != [] && ReadAll(s) == Reading(w, Plain)
  }

  lemma {:induction false} ReadSnoc(s: seq<char>, c: char)
    ensures ReadAll(s + [c]) == ReadChar(ReadAll(s), c)
  {
    assert (s + [c])[..|s|] == s;
  }

  // ----- what is written -----

  /** The output so far and whether a single quote is open (the flag sq). */
  datatype Out = Out(text: seq<char>, sq: bool)

  function Close(o: Out): seq<char> {
    if o.sq then o.text + ['\''] else o.text
  }

  /** One input character: a single quote goes into double quotes, anything else into single quotes. */
  function Add(o: Out, c: char): Out {
    if c == '\'' then Out(Close(o) + ['\"', c, '\"'], false)
    else if o.sq then Out(o.text + [c], true)
    else Out(o.text + ['\'', c], true)
  }

  function Body(s: seq<char>): Out {
    if s == [] then Out([], false) else Add(Body(s[..|s| - 1]), s[|s| - 1])
  }

  /** The whole quoted word, without the terminating NUL. */
  function Quoted(s: seq<char>): seq<char> {
    if s == [] then ['\"', '\"'] else Close(Body(s))
  }

  lemma {:induction false} BodySnoc(s: seq<char>, i: nat)
    requires i < |s|
    ensures Body(s[..i + 1]) == Add(Body(s[..i]), s[i])
  {
    assert s[..i + 1][..i] == s[..i];
  }

  lemma {:induction false} ReadDoubled(t: seq<char>, w: seq<char>)
    requires ReadAll(t) == Reading(w, Plain)
    ensures ReadAll(t + ['\"', '\'', '\"']) == Reading(w + ['\''], Plain)
  {
    ReadSnoc(t, '\"');
    ReadSnoc(t + ['\"'], '\'');
    ReadSnoc(t + ['\"'] + ['\''], '\"');
    assert t + ['\"'] + ['\''] + ['\"'] == t + ['\"', '\'', '\"'];
  }

  lemma {:induction false} AddReads(o: Out, c: char, w: seq<char>)
    requires ReadAll(o.text) == Reading(w, if o.sq then Single else Plain)
    ensures ReadAll(Add(o, c).text) == Reading(w + [c], if Add(o, c).sq then Single else Plain)
  {
    if c == '\'' {
      if o.sq { ReadSnoc(o.text, '\''); }
      ReadDoubled(Close(o), w);
    } else if o.sq {
      ReadSnoc(o.text, c);
    } else {
      ReadSnoc(o.text, '\'');
      ReadSnoc(o.text + ['\''], c);
      assert o.text + ['\''] + [c] == o.text + ['\'', c];
    }
  }

  lemma {:induction false} BodyReads(s: seq<char>)
    ensures ReadAll(Body(s).text) == Reading(s, if Body(s).sq then Single else Plain)
    ensures s != [] ==> |Close(Body(s))| >= 3
  {
    if s != [] {
      var t := s[..|s| - 1];
      BodyReads(t);
      AddReads(Body(t), s[|s| - 1], t);
      assert t + [s[|s| - 1]] == s;
    }
  }

  /** The shell reads the quoted text as one word equal to the input, whatever characters it holds. */
  lemma QuotedReads(s: seq<char>)
    ensures ReadsAs(Quoted(s), s)
  {
    if s == [] {
      ReadSnoc([], '\"');
      ReadSnoc(['\"'], '\"');
      assert [] + ['\"'] == ['\"'] && ['\"'] + ['\"'] == ['\"', '\"'];
    } else {
      BodyReads(s);
      if Body(s).sq { ReadSnoc(Body(s).text, '\''); }
    }
  }

  /** A longer input never has a shorter quoted form, so what does not fit stays too long. */
  lemma {:induction false} QuotedGrows(s: seq<char>, i: nat)
    requires 0 < i < |s|
    ensures |Quoted(s[..i])| < |Quoted(s)|
  {
    BodySnoc(s, |s| - 1);
    assert s[..|s|] == s;
    if i < |s| - 1 {
      var t := s[..|s| - 1];
      assert t[..i] == s[..i];
      QuotedGrows(t, i);
    }
  }

  // ----- the loop -----

  /** The text fits with its closing quote and the terminating NUL. */
  predicate Fits(o: Out, bufSize: int) {
    |Close(o)| + 1 <= bufSize
  }

  /** The two writes `out_str[j++] = c` of one step, seen as an append. */
  method Put(buf: array<char>, j: nat, text: seq<char>) returns (next: nat)
    requires j + |text| <= buf.Length
    modifies buf
    ensures next == j + |text| && buf[..next] == old(buf[..j]) + text
  {
    for n := 0 to |text|
      invariant buf[..j + n] == old(buf[..j]) + text[..n]
    {
      buf[j + n] := text[n];
      assert buf[..j + n + 1] == buf[..j + n] + [text[n]];
    }
    assert text[..|text|] == text;
    next := j + |text|;
  }

  /**
   The body of the loop for one character: either the character is added, or the buffer is left with the
   output closed up as far as it got, and no buffer of this size holds the input with the character added.
   */
  method Step(c: char, buf: array<char>, bufSize: int, sq: bool, j: nat) returns (more: bool, sq': bool, j': nat)
    requires bufSize <= buf.Length && j <= buf.Length
    requires j > 0 ==> Fits(Out(buf[..j], sq), bufSize)
    requires j == 0 ==> !sq
    modifies buf
    ensures j' <= buf.Length
    ensures more ==> Out(buf[..j'], sq') == Add(old(Out(buf[..j], sq)), c) && Fits(Out(buf[..j'], sq'), bufSize)
    ensures !more ==> Close(Out(buf[..j'], sq')) == Close(old(Out(buf[..j], sq)))
    ensures !more ==> !Fits(Add(old(Out(buf[..j], sq)), c), bufSize)
    ensures !more && j > 0 ==> Fits(Out(buf[..j'], sq'), bufSize)
    ensures !more && j == 0 ==> j' == 0 && !sq'
  {
    more, sq', j' := true, sq, j;
    if c == '\'' {
      if sq {
        assert j + 1 < bufSize; // the closing quote always has room
        j' := Put(buf, j, ['\'']);
        sq' := false;
      }
      if j' + 3 < bufSize {
        j' := Put(buf, j', ['\"', c, '\"']);
      } else {
        more := false;
      }
    } else if !sq {
      if j + 3 < bufSize {
        j' := Put(buf, j, ['\'', c]);
        sq' := true;
      } else {
        more := false;
      }
    } else if j + 2 < bufSize {
      j' := Put(buf, j, [c]);
    } else {
      more := false;
    }
  }

  /** The loop over the input; k is the number of input characters that got through. */
  method QuoteBody(input: seq<Ch>, buf: array<char>, bufSize: int) returns (sq: bool, j: nat, ghost k: nat)
    requires bufSize <= buf.Length
    modifies buf
    ensures k <= |input| && j <= buf.Length
    ensures Close(Out(buf[..j], sq)) == Close(Body(input[..k]))
    ensures if k == 0 then j == 0 && !sq else j > 0 && Fits(Out(buf[..j], sq), bufSize)
    ensures k == |input| || !Fits(Body(input[..k + 1]), bufSize)
  {
    sq, j, k := false, 0, 0;
    var i := 0;
    while i < |input|
      invariant 0 <= i <= |input| && k == i && 0 <= j <= buf.Length
      invariant Out(buf[..j], sq) == Body(input[..i])
      invariant if i == 0 then j == 0 && !sq else j > 0 && Fits(Out(buf[..j], sq), bufSize)
    {
      BodySnoc(input, i);
      var more;
      more, sq, j := Step(input[i], buf, bufSize, sq, j);
      if !more { break; }
      i := i + 1;
      k := i;
    }
  }

  /**
   Get_Command_Line_Parameter_String. A buffer of at least three characters never fails: it ends up holding
   the quoted form of the longest prefix of the input whose quoted form fits with its NUL.
   */
  method Quote(input: seq<Ch>, buf: array<char>, bufSize: int) returns (ret: int, ghost k: nat)
    requires bufSize <= buf.Length && buf.Length >= 1
    modifies buf
    ensures bufSize < 3 ==> ret == -3 && buf[0] == '\0'
    ensures bufSize >= 3 ==>
              && k <= |input| && ret == |Quoted(input[..k])| + 1 <= bufSize
              && buf[..ret - 1] == Quoted(input[..k]) && buf[ret - 1] == '\0'
              && ReadsAs(buf[..ret - 1], input[..k])
              && (k == |input| || |Quoted(input[..k + 1])| + 1 > bufSize)
  {
    var sq, j;
    sq, j, k := QuoteBody(input, buf, bufSize);
    BodyReads(input[..k]);
    if sq {
      assert j + 1 < bufSize; // so -1 is never returned
      j := Put(buf, j, ['\'']);
    }
    if j == 0 {
      if 2 < bufSize {
        j := Put(buf, j, ['\"', '\"']);
      } else {
        buf[0] := '\0';
        return -3, k;
      }
    }
    assert j < bufSize; // so -2 is never returned
    ghost var q := Quoted(input[..k]);
    assert buf[..j] == q;
    buf[j] := '\0';
    ret := j + 1;
    assert buf[..j] == q;
    QuotedReads(input[..k]);
  }
}
