/** Soft-wrapping a text to a number of cells. */
module SoftWrap {
  import opened Prelude

  // ------------------------------------------------------------ measuring

  /** cellWidth, with rune widths added up. */
  function Width(width: char -> nat, s: string): nat {
    if s == "" then 0 else width(s[0]) + Width(width, s[1..])
  }

  function Spaces(n: nat): (s: string)
    ensures |s| == n
  {
    if n == 0 then "" else " " + Spaces(n - 1)
  }

  /** How many spaces are in front. */
  function LeadSpaces(s: string): (n: nat)
    ensures n <= |s|
  {
    if s == "" || s[0] != ' ' then 0 else 1 + LeadSpaces(s[1..])
  }

  /** strings.TrimLeft(s, " ") */
  function DropSpaces(s: string): string {
    s[LeadSpaces(s)..]
  }

  function WordLen(s: string): (n: nat)
    ensures n <= |s|
  {
    if s == "" || s[0] == ' ' then 0 else 1 + WordLen(s[1..])
  }

  /** A text that is empty or goes on with a space. */
  predicate AtGap(s: string) { s == "" || s[0] == ' ' }

  /** A text that is empty or goes on with something else. */
  predicate AtText(s: string) { s == "" || s[0] != ' ' }

  predicate IsWord(s: string) {
    s == "" || (s[0] != ' ' && IsWord(s[1..]))
  }

  lemma {:induction false} LeadFacts(s: string)
    ensures AtText(DropSpaces(s)) && s == Spaces(LeadSpaces(s)) + DropSpaces(s)
    ensures AtText(s) ==> DropSpaces(s) == s
  {
    if s != "" && s[0] == ' ' {
      LeadFacts(s[1..]);
      assert s == " " + s[1..];
      assert DropSpaces(s) == DropSpaces(s[1..]);
      assert " " + (Spaces(LeadSpaces(s[1..])) + DropSpaces(s[1..]))
          == " " + Spaces(LeadSpaces(s[1..])) + DropSpaces(s[1..]);
    } else {
      assert Spaces(0) + DropSpaces(s) == s;
    }
  }

  lemma {:induction false} WordFacts(s: string)
    ensures IsWord(s[..WordLen(s)]) && AtGap(s[WordLen(s)..])
    ensures AtText(s) && s != "" ==> s[..WordLen(s)] != ""
  {
    if s != "" && s[0] != ' ' {
      WordFacts(s[1..]);
      assert s[..WordLen(s)][1..] == s[1..][..WordLen(s[1..])];
      assert s[WordLen(s)..] == s[1..][WordLen(s[1..])..];
    }
  }

  lemma {:induction false} WordParts(word: string, n: nat)
    requires IsWord(word) && n <= |word|
    ensures IsWord(word[..n]) && IsWord(word[n..])
  {
    if n > 0 {
      WordParts(word[1..], n - 1);
      assert word[..n][1..] == word[1..][..n - 1];
      assert word[n..] == word[1..][n - 1..];
      assert word[..n][0] == word[0];
    } else {
      assert word[0..] == word && word[..0] == "";
    }
  }

  lemma {:induction false} WordEndsInText(word: string)
    requires IsWord(word) && word != ""
    ensures word[0] != ' ' && word[|word| - 1] != ' '
  {
    if |word| > 1 {
      WordEndsInText(word[1..]);
    }
  }

  /** How much of the word fits in w cells. */
  function Fit(width: char -> nat, word: string, w: int): (n: nat)
    ensures n <= |word|
  {
    if word == "" || width(word[0]) > w then 0 else 1 + Fit(width, word[1..], w - width(word[0]))
  }

  lemma {:induction false} WidthConcat(width: char -> nat, a: string, b: string)
    ensures Width(width, a + b) == Width(width, a) + Width(width, b)
  {
    if a == "" {
      assert a + b == b;
    } else {
      assert (a + b)[1..] == a[1..] + b;
      WidthConcat(width, a[1..], b);
    }
  }

  lemma {:induction false} WidthSpaces(width: char -> nat, n: nat)
    requires width(' ') == 1
    ensures Width(width, Spaces(n)) == n
  {
    if n > 0 {
      WidthSpaces(width, n - 1);
      assert Spaces(n)[1..] == Spaces(n - 1);
    }
  }

  /** What fits is the longest prefix that does. */
  lemma {:induction false} FitIsLongest(width: char -> nat, word: string, w: nat)
    ensures var n := Fit(width, word, w);
      && Width(width, word[..n]) <= w
      && (n < |word| ==> Width(width, word[..n]) + width(word[n]) > w)
  {
    if word != "" && width(word[0]) <= w {
      var n := Fit(width, word, w);
      FitIsLongest(width, word[1..], w - width(word[0]));
      assert word[..n][1..] == word[1..][..n - 1];
      assert n < |word| ==> word[n] == word[1..][n - 1];
    }
  }

  // ------------------------------------------------------- breaking a word

  function HeadLen(width: char -> nat, word: string, w: nat): (n: nat)
    requires word != ""
    ensures 0 < n <= |word|
  {
    if Fit(width, word, w) == 0 then 1 else Fit(width, word, w)
  }

  /** The pieces of a word too wide for a line, all but the last. */
  function Heads(width: char -> nat, word: string, w: nat): seq<string>
    decreases |word|
  {
    if word == "" || Width(width, word) <= w then []
    else [word[..HeadLen(width, word, w)]] + Heads(width, word[HeadLen(width, word, w)..], w)
  }

  function Rest(width: char -> nat, word: string, w: nat): string
    decreases |word|
  {
    if word == "" || Width(width, word) <= w then word
    else Rest(width, word[HeadLen(width, word, w)..], w)
  }

  // ---------------------------------------------------------- all the lines

  function Flushed(cur: string, hasText: bool): seq<string> {
    if hasText then [cur] else []
  }

  /** The word after the spaces in front. */
  function Word(rest: string): string {
    DropSpaces(rest)[..WordLen(DropSpaces(rest))]
  }

  /** What comes after that word. */
  function After(rest: string): (after: string)
    ensures Word(rest) != "" ==> |after| < |rest|
    ensures |after| <= |rest|
  {
    DropSpaces(rest)[WordLen(DropSpaces(rest))..]
  }

  /** The text before the next word, the word, and the rest. */
  lemma NextWord(rest: string)
    ensures rest == Spaces(LeadSpaces(rest)) + (Word(rest) + After(rest))
    ensures DropSpaces(rest) == Word(rest) + After(rest)
    ensures IsWord(Word(rest)) && AtGap(After(rest)) && (Word(rest) == "" ==> DropSpaces(rest) == "")
  {
    LeadFacts(rest);
    WordFacts(DropSpaces(rest));
  }

  /** The lines still to come, with `cur` being built. */
  function Lines(width: char -> nat, rest: string, cur: string, hasText: bool, w: nat): seq<string>
    decreases |rest|
  {
    var gap, word, after := LeadSpaces(rest), Word(rest), After(rest);
    if word == "" then Flushed(cur, hasText)
    else if Width(width, cur) + gap + Width(width, word) <= w then
      Lines(width, after, cur + Spaces(gap) + word, true, w)
    else
      var last := Rest(width, word, w);
      Flushed(cur, hasText) + (Heads(width, word, w) + Lines(width, after, last, last != "", w))
  }

  function Indent(s: string, w: nat): nat
    requires w > 0
  {
    if LeadSpaces(s) > w - 1 then w - 1 else LeadSpaces(s)
  }

  function Wrapped(width: char -> nat, s: string, w: int): seq<string> {
    if w <= 0 || s == "" then [""]
    else
      var out := Lines(width, DropSpaces(s), Spaces(Indent(s, w)), false, w);
      if out == [] then [""] else out
  }

  /** The loop that hard-breaks a word over width. */
  method HardBreak(width: char -> nat, whole: string, w: nat) returns (heads: seq<string>, word: string)
    ensures heads == Heads(width, whole, w) && word == Rest(width, whole, w)
  {
    heads, word := [], whole;
    var ww := Width(width, word);
    while ww > w
      invariant ww == Width(width, word) && Rest(width, word, w) == Rest(width, whole, w)
      invariant Heads(width, whole, w) == heads + Heads(width, word, w)
      decreases |word|
    {
      var n := Fit(width, word, w);
      if n == 0 {
        n := 1;
      }
      Assoc(heads, [word[..n]], Heads(width, word[n..], w));
      heads := heads + [word[..n]];
      word := word[n..];
      ww := Width(width, word);
    }
    assert heads + [] == heads;
  }

  /** The next word is put on the line being built. */
  lemma TakeWord(width: char -> nat, cur: string, gap: nat, word: string)
    requires width(' ') == 1
    ensures Width(width, cur + Spaces(gap) + word) == Width(width, cur) + gap + Width(width, word)
  {
    WidthConcat(width, cur, Spaces(gap));
    WidthConcat(width, cur + Spaces(gap), word);
    WidthSpaces(width, gap);
  }

  /** The loop of wrap over the words, with the indentation already on the line. */
  method WrapWords(width: char -> nat, text: string, indent: string, w: nat) returns (out: seq<string>)
    requires width(' ') == 1
    ensures out == Lines(width, text, indent, false, w)
  {
    out := [];
    var rest, cur, curW, hasText := text, indent, Width(width, indent), false;
    ghost var all := Lines(width, text, indent, false, w);
    while rest != ""
      invariant curW == Width(width, cur)
      invariant all == out + Lines(width, rest, cur, hasText, w)
      decreases |rest|
    {
      var afterRun := DropSpaces(rest);
      var gap := |rest| - |afterRun|;
      var end := WordLen(afterRun);
      var word := afterRun[..end];
      if word == "" {
        break;
      }
      rest := afterRun[end..];
      var ww := Width(width, word);
      if curW + gap + ww <= w {
        TakeWord(width, cur, gap, word);
        cur, curW, hasText := cur + Spaces(gap) + word, curW + gap + ww, true;
      } else {
        var heads, last := HardBreak(width, word, w);
        ghost var more := Lines(width, rest, last, last != "", w);
        Assoc(out, Flushed(cur, hasText), heads + more);
        Assoc(out + Flushed(cur, hasText), heads, more);
        if hasText {
          out := out + [cur];
        } else {
          Nothing(out);
        }
        out := out + heads;
        cur, curW, hasText := last, Width(width, last), last != "";
      }
    }
    assert Lines(width, rest, cur, hasText, w) == Flushed(cur, hasText);
    if hasText {
      out := out + [cur];
    } else {
      Nothing(out);
    }
  }

  lemma Nothing<T>(a: seq<T>)
    ensures a + [] == a
  {
  }

  /** wrap, once tabs are expanded and every other white space is one plain space. */
  method WrapPlain(width: char -> nat, s: string, w: int) returns (out: seq<string>)
    requires width(' ') == 1
    ensures out == Wrapped(width, s, w)
  {
    if w <= 0 || s == "" {
      return [""];
    }
    var rest := DropSpaces(s);
    var indent := |s| - |rest|;
    if indent > w - 1 {
      indent := w - 1;
    }
    out := WrapWords(width, rest, Spaces(indent), w);
    if |out| == 0 {
      return [""];
    }
  }

  // ------------------------------------------------------------ how it looks

  /** A line fits, unless it is one rune too wide for any line. */
  predicate Fits(width: char -> nat, line: string, w: nat) {
    Width(width, line) <= w || |line| == 1
  }

  ghost predicate AllFit(width: char -> nat, lines: seq<string>, w: nat) {
    forall i :: 0 <= i < |lines| ==> Fits(width, lines[i], w)
  }

  predicate EndsInText(line: string) {
    line != "" && line[|line| - 1] != ' '
  }

  ghost predicate AllEndInText(lines: seq<string>) {
    forall i :: 0 <= i < |lines| ==> EndsInText(lines[i])
  }

  lemma {:induction false} HeadsFit(width: char -> nat, word: string, w: nat)
    requires IsWord(word)
    ensures AllFit(width, Heads(width, word, w), w) && AllEndInText(Heads(width, word, w))
    ensures Width(width, Rest(width, word, w)) <= w && IsWord(Rest(width, word, w))
    decreases |word|
  {
    if word != "" && Width(width, word) > w {
      var n := HeadLen(width, word, w);
      FitIsLongest(width, word, w);
      WordParts(word, n);
      WordEndsInText(word[..n]);
      HeadsFit(width, word[n..], w);
      assert Fits(width, word[..n], w) && EndsInText(word[..n]);
    }
  }

  lemma JoinFit(width: char -> nat, a: seq<string>, b: seq<string>, w: nat)
    requires AllFit(width, a, w) && AllEndInText(a) && AllFit(width, b, w) && AllEndInText(b)
    ensures AllFit(width, a + b, w) && AllEndInText(a + b)
  {
  }

  lemma LineGrows(width: char -> nat, cur: string, gap: nat, word: string)
    requires width(' ') == 1 && IsWord(word) && word != ""
    ensures var next := cur + Spaces(gap) + word;
      EndsInText(next) && Width(width, next) == Width(width, cur) + gap + Width(width, word)
  {
    TakeWord(width, cur, gap, word);
    WordEndsInText(word);
  }

  lemma {:induction false} LinesFit(width: char -> nat, rest: string, cur: string, hasText: bool, w: nat)
    requires width(' ') == 1 && Width(width, cur) <= w && (hasText ==> EndsInText(cur))
    ensures AllFit(width, Lines(width, rest, cur, hasText, w), w)
    ensures AllEndInText(Lines(width, rest, cur, hasText, w))
    decreases |rest|
  {
    var gap, word, after := LeadSpaces(rest), Word(rest), After(rest);
    NextWord(rest);
    if word != "" {
      if Width(width, cur) + gap + Width(width, word) <= w {
        LineGrows(width, cur, gap, word);
        LinesFit(width, after, cur + Spaces(gap) + word, true, w);
      } else {
        var last := Rest(width, word, w);
        HeadsFit(width, word, w);
        if last != "" {
          WordEndsInText(last);
        }
        LinesFit(width, after, last, last != "", w);
        JoinFit(width, Heads(width, word, w), Lines(width, after, last, last != "", w), w);
        JoinFit(width, Flushed(cur, hasText), Heads(width, word, w) + Lines(width, after, last, last != "", w), w);
      }
    }
  }

  // --------------------------------------------------- nothing lost, no early break

  /** The line had to end where it did: the rune or the word after it does not fit. */
  predicate Forced(width: char -> nat, line: string, after: string, w: nat) {
    var gap := LeadSpaces(after);
    if gap == 0 then after != "" && Width(width, line) + width(after[0]) > w
    else Width(width, line) + gap + Width(width, Word(after)) > w
  }

  /** The lines are the text from front to end: each continues exactly where the one before
      left off, after a run of spaces, and no line ends before it has to. */
  ghost predicate Flow(width: char -> nat, text: string, lines: seq<string>, w: nat)
    decreases |lines|
  {
    var t := DropSpaces(text);
    if lines == [] then t == ""
    else
      var line := DropSpaces(lines[0]);
      line != "" && line <= t && Flow(width, t[|line|..], lines[1..], w)
      && (|lines| > 1 ==> Forced(width, lines[0], t[|line|..], w))
  }

  lemma DropAgain(s: string)
    ensures DropSpaces(DropSpaces(s)) == DropSpaces(s)
    ensures AtText(s) ==> DropSpaces(s) == s
  {
    LeadFacts(s);
    LeadFacts(DropSpaces(s));
  }

  lemma FlowDrops(width: char -> nat, text: string, lines: seq<string>, w: nat)
    ensures Flow(width, DropSpaces(text), lines, w) == Flow(width, text, lines, w)
  {
    DropAgain(text);
  }

  lemma StartsInText(l: string, after: string)
    requires l != "" && l[0] != ' '
    ensures DropSpaces(l + after) == l + after && (l + after)[|l|..] == after && l <= l + after
  {
    LeadFacts(l + after);
  }

  /** One line in front of the rest. */
  lemma FlowCons(width: char -> nat, line: string, after: string, more: seq<string>, w: nat)
    requires DropSpaces(line) != "" && Flow(width, after, more, w)
    requires more != [] ==> Forced(width, line, after, w)
    ensures Flow(width, DropSpaces(line) + after, [line] + more, w)
  {
    LeadFacts(line);
    StartsInText(DropSpaces(line), after);
    assert ([line] + more)[1..] == more;
  }

  lemma FirstRune(width: char -> nat, s: string)
    requires s != ""
    ensures width(s[0]) <= Width(width, s)
  {
  }

  /** A piece broken off a word is as long as it can be, and alone when it is too wide. */
  lemma HeadIsLongest(width: char -> nat, word: string, w: nat)
    requires word != "" && Width(width, word) > w
    ensures var n := HeadLen(width, word, w);
      && (n < |word| ==> Width(width, word[..n]) + width(word[n]) > w)
      && (n == |word| ==> Width(width, word[..n]) > w)
  {
    FitIsLongest(width, word, w);
    assert word[..|word|] == word;
    if Fit(width, word, w) == 0 {
      FirstRune(width, word[..1]);
    }
  }

  lemma FlowHead(width: char -> nat, word: string, after: string, tail: seq<string>, w: nat)
    requires IsWord(word) && AtGap(after) && word != "" && Width(width, word) > w
    requires Flow(width, word[HeadLen(width, word, w)..] + after, tail, w)
    ensures Flow(width, word + after, [word[..HeadLen(width, word, w)]] + tail, w)
  {
    var n := HeadLen(width, word, w);
    var head, left := word[..n], word[n..];
    WordParts(word, n);
    LeadFacts(head);
    if tail != [] {
      HeadIsForced(width, head, left, word, after, tail, w);
    }
    FlowCons(width, head, left + after, tail, w);
    SplitWord(word, n, after);
  }

  lemma SplitWord(word: string, n: nat, after: string)
    requires n <= |word|
    ensures word[..n] + (word[n..] + after) == word + after
  {
  }

  lemma HeadIsForced(width: char -> nat, head: string, left: string, word: string, after: string,
                     tail: seq<string>, w: nat)
    requires word != "" && Width(width, word) > w && IsWord(left) && AtGap(after)
    requires head == word[..HeadLen(width, word, w)] && left == word[HeadLen(width, word, w)..]
    requires tail != [] && Flow(width, left + after, tail, w)
    ensures Forced(width, head, left + after, w)
  {
    HeadIsLongest(width, word, w);
    if left != "" {
      StartsInText(left, after);
      assert (left + after)[0] == left[0] == word[|head|];
    } else {
      assert left + after == after;
      LeadFacts(after);
      assert DropSpaces(after) != "";
    }
  }

  lemma {:induction false} FlowHeads(width: char -> nat, word: string, after: string, more: seq<string>, w: nat)
    requires IsWord(word) && AtGap(after)
    requires Flow(width, Rest(width, word, w) + after, more, w)
    ensures Flow(width, word + after, Heads(width, word, w) + more, w)
    decreases |word|
  {
    if word == "" || Width(width, word) <= w {
      assert [] + more == more;
    } else {
      var n := HeadLen(width, word, w);
      WordParts(word, n);
      FlowHeads(width, word[n..], after, more, w);
      FlowHead(width, word, after, Heads(width, word[n..], w) + more, w);
      Assoc([word[..n]], Heads(width, word[n..], w), more);
    }
  }

  lemma DropOfSum(a: string, b: string)
    ensures DropSpaces(a) != "" ==> DropSpaces(a + b) == DropSpaces(a) + b
    ensures DropSpaces(a) == "" ==> DropSpaces(a + b) == DropSpaces(b)
    decreases |a|
  {
    if a == "" {
      assert a + b == b;
    } else if a[0] == ' ' {
      assert (a + b)[1..] == a[1..] + b;
      DropOfSum(a[1..], b);
    } else {
      DropAgain(a);
      DropAgain(a + b);
    }
  }

  lemma {:induction false} LinesFlow(width: char -> nat, rest: string, cur: string, hasText: bool, w: nat)
    requires hasText <==> DropSpaces(cur) != ""
    requires hasText ==> AtGap(rest)
    ensures Flow(width, DropSpaces(cur) + rest, Lines(width, rest, cur, hasText, w), w)
    decreases |rest|, 1
  {
    NextWord(rest);
    if Word(rest) == "" {
      EndFlows(width, rest, cur, hasText, w);
    } else if Width(width, cur) + LeadSpaces(rest) + Width(width, Word(rest)) <= w {
      WordFlows(width, rest, cur, hasText, w);
    } else {
      WordBreaks(width, rest, cur, hasText, w);
    }
  }

  /** A word that does not fit starts on a new line, in pieces if it has to. */
  lemma WordBreaks(width: char -> nat, rest: string, cur: string, hasText: bool, w: nat)
    requires (hasText <==> DropSpaces(cur) != "") && (hasText ==> AtGap(rest))
    requires Word(rest) != "" && Width(width, cur) + LeadSpaces(rest) + Width(width, Word(rest)) > w
    ensures Flow(width, DropSpaces(cur) + rest, Lines(width, rest, cur, hasText, w), w)
    decreases |rest|, 0
  {
    var word, after := Word(rest), After(rest);
    var last := Rest(width, word, w);
    var more := Lines(width, after, last, last != "", w);
    NextWord(rest);
    HeadsFit(width, word, w);
    DropAgain(last);
    LinesFlow(width, after, last, last != "", w);
    FlowHeads(width, word, after, more, w);
    BreakFlows(width, rest, cur, hasText, w, Heads(width, word, w) + more);
  }

  lemma EndFlows(width: char -> nat, rest: string, cur: string, hasText: bool, w: nat)
    requires (hasText <==> DropSpaces(cur) != "") && DropSpaces(rest) == ""
    ensures Flow(width, DropSpaces(cur) + rest, Flushed(cur, hasText), w)
  {
    if hasText {
      FlowCons(width, cur, rest, [], w);
      assert [cur] + [] == [cur];
    } else {
      assert "" + rest == rest;
    }
  }

  /** A word that fits joins the line. */
  lemma WordFlows(width: char -> nat, rest: string, cur: string, hasText: bool, w: nat)
    requires (hasText <==> DropSpaces(cur) != "") && Word(rest) != ""
    requires Width(width, cur) + LeadSpaces(rest) + Width(width, Word(rest)) <= w
    ensures Flow(width, DropSpaces(cur) + rest, Lines(width, rest, cur, hasText, w), w)
    decreases |rest|, 0
  {
    var next := cur + Spaces(LeadSpaces(rest)) + Word(rest);
    NextWord(rest);
    DropOfLine(cur, LeadSpaces(rest), Word(rest), After(rest));
    LinesFlow(width, After(rest), next, true, w);
    if !hasText {
      DroppedFlow(width, rest, Lines(width, After(rest), next, true, w), w);
    }
  }

  lemma DroppedFlow(width: char -> nat, text: string, lines: seq<string>, w: nat)
    requires Flow(width, DropSpaces(text), lines, w)
    ensures Flow(width, "" + text, lines, w)
  {
    FlowDrops(width, text, lines, w);
    assert "" + text == text;
  }

  /** Dropping the spaces in front of a line that grew by a word. */
  lemma DropOfLine(cur: string, gap: nat, word: string, after: string)
    requires word != "" && IsWord(word)
    ensures var next := cur + Spaces(gap) + word;
      && DropSpaces(next) != ""
      && (DropSpaces(cur) != "" ==> DropSpaces(next) + after == DropSpaces(cur) + (Spaces(gap) + (word + after)))
      && (DropSpaces(cur) == "" ==> DropSpaces(next) + after == word + after)
    ensures "" + (Spaces(gap) + (word + after)) == Spaces(gap) + (word + after)
  {
    DropOfSum(cur, Spaces(gap) + word);
    DropOfSum(Spaces(gap), word);
    LeadFacts(word);
    SpacesDrop(gap);
    Assoc(cur, Spaces(gap), word);
    Assoc(Spaces(gap), word, after);
    Assoc(DropSpaces(cur), Spaces(gap) + word, after);
  }

  lemma SpacesDrop(n: nat)
    ensures DropSpaces(Spaces(n)) == ""
  {
  }

  lemma BreakFlows(width: char -> nat, rest: string, cur: string, hasText: bool, w: nat, more: seq<string>)
    requires (hasText <==> DropSpaces(cur) != "") && (hasText ==> rest != "" && rest[0] == ' ')
    requires Flow(width, DropSpaces(rest), more, w)
    requires Width(width, cur) + LeadSpaces(rest) + Width(width, Word(rest)) > w
    ensures Flow(width, DropSpaces(cur) + rest, Flushed(cur, hasText) + more, w)
  {
    FlowDrops(width, rest, more, w);
    if hasText {
      FlowCons(width, cur, rest, more, w);
    } else {
      assert [] + more == more && "" + rest == rest;
    }
  }

  // ------------------------------------------------- how continuation lines start

  predicate StartsAtText(line: string) {
    line != "" && line[0] != ' '
  }

  ghost predicate AllStartAtText(lines: seq<string>) {
    forall i :: 0 <= i < |lines| ==> StartsAtText(lines[i])
  }

  /** The last rune of the word is too wide for any line. */
  predicate EndsWide(width: char -> nat, word: string, w: nat) {
    word != "" && width(word[|word| - 1]) > w
  }

  /** A gap and the word after it would fit on a line of their own. */
  predicate NextFits(width: char -> nat, rest: string, w: nat) {
    Word(rest) != "" && LeadSpaces(rest) + Width(width, Word(rest)) <= w
  }

  /** Somewhere a word ends in a rune too wide for any line, and what follows fits a line with
      its gap. */
  predicate Hangs(width: char -> nat, rest: string, w: nat)
    decreases |rest|
  {
    Word(rest) != ""
    && ((EndsWide(width, Word(rest), w) && NextFits(width, After(rest), w)) || Hangs(width, After(rest), w))
  }

  lemma {:induction false} LastRune(width: char -> nat, word: string)
    requires word != ""
    ensures width(word[|word| - 1]) <= Width(width, word)
  {
    if |word| > 1 {
      LastRune(width, word[1..]);
    }
  }

  /** Nothing is left of a word exactly when its last rune stands alone. */
  lemma {:induction false} RestIsEmpty(width: char -> nat, word: string, w: nat)
    requires IsWord(word)
    ensures word != "" ==> (Rest(width, word, w) == "" <==> EndsWide(width, word, w))
    ensures AllStartAtText(Heads(width, word, w))
    ensures Rest(width, word, w) != "" ==> Rest(width, word, w)[0] != ' '
    decreases |word|
  {
    if word != "" {
      if Width(width, word) <= w {
        LastRune(width, word);
      } else {
        var n := HeadLen(width, word, w);
        WordParts(word, n);
        RestIsEmpty(width, word[n..], w);
        HeadIsLongest(width, word, w);
        assert StartsAtText(word[..n]);
        if n == |word| {
          FitIsLongest(width, word, w);
          assert word[..n] == word && |word| == 1;
        } else {
          assert word[n..][|word[n..]| - 1] == word[|word| - 1];
        }
      }
    }
  }

  lemma JoinStarts(a: seq<string>, b: seq<string>)
    requires AllStartAtText(a)
    ensures AllStartAtText(a + b) <==> AllStartAtText(b)
  {
    if AllStartAtText(a + b) {
      forall i | 0 <= i < |b| ensures StartsAtText(b[i]) {
        assert StartsAtText((a + b)[|a| + i]);
      }
    }
  }

  /** The first line starts with what was being built. */
  lemma {:induction false} FirstLineStarts(width: char -> nat, rest: string, cur: string, w: nat)
    requires cur != ""
    ensures var out := Lines(width, rest, cur, true, w);
      out != [] && out[0] != "" && out[0][0] == cur[0]
    decreases |rest|
  {
    if Word(rest) != "" && Width(width, cur) + LeadSpaces(rest) + Width(width, Word(rest)) <= w {
      FirstLineStarts(width, After(rest), cur + Spaces(LeadSpaces(rest)) + Word(rest), w);
    }
  }

  /** With text on the line: the lines after it start at text exactly when nothing hangs. */
  lemma {:induction false} StartsAfterText(width: char -> nat, rest: string, cur: string, w: nat)
    requires cur != "" && AtGap(rest)
    ensures var out := Lines(width, rest, cur, true, w);
      out != [] && (AllStartAtText(out[1..]) <==> !Hangs(width, rest, w))
    decreases |rest|, 1
  {
    NextWord(rest);
    FirstLineStarts(width, rest, cur, w);
    var word := Word(rest);
    if word != "" {
      if Width(width, cur) + LeadSpaces(rest) + Width(width, word) <= w {
        LastRune(width, word);
        StartsAfterText(width, After(rest), cur + Spaces(LeadSpaces(rest)) + word, w);
      } else {
        StartsAfterBreak(width, rest, w);
        var more := Broken(width, rest, w);
        assert Lines(width, rest, cur, true, w) == [cur] + more;
        assert ([cur] + more)[1..] == more;
      }
    }
  }

  /** What a word that does not fit turns into, with all that follows. */
  function Broken(width: char -> nat, rest: string, w: nat): seq<string>
    requires Word(rest) != ""
  {
    var last := Rest(width, Word(rest), w);
    Heads(width, Word(rest), w) + Lines(width, After(rest), last, last != "", w)
  }

  lemma StartsAfterBreak(width: char -> nat, rest: string, w: nat)
    requires Word(rest) != ""
    ensures AllStartAtText(Broken(width, rest, w)) <==> !Hangs(width, rest, w)
    decreases |rest|, 0
  {
    var word, after := Word(rest), After(rest);
    var last := Rest(width, word, w);
    var more := Lines(width, after, last, last != "", w);
    NextWord(rest);
    RestIsEmpty(width, word, w);
    JoinStarts(Heads(width, word, w), more);
    if last == "" {
      StartsAfterWide(width, after, w);
    } else {
      FirstLineStarts(width, after, last, w);
      StartsAfterText(width, after, last, w);
      FirstAndMore(more);
    }
  }

  lemma FirstAndMore(lines: seq<string>)
    requires lines != [] && StartsAtText(lines[0])
    ensures AllStartAtText(lines) <==> AllStartAtText(lines[1..])
  {
    assert lines == [lines[0]] + lines[1..];
    JoinStarts([lines[0]], lines[1..]);
  }

  /** After a rune that stands alone, a gap can be kept in front of the next word. */
  lemma {:induction false} StartsAfterWide(width: char -> nat, rest: string, w: nat)
    requires AtGap(rest)
    ensures AllStartAtText(Lines(width, rest, "", false, w)) <==> !NextFits(width, rest, w) && !Hangs(width, rest, w)
    decreases |rest|, 1
  {
    NextWord(rest);
    var gap, word := LeadSpaces(rest), Word(rest);
    if word != "" {
      if gap + Width(width, word) <= w {
        var cur := "" + Spaces(gap) + word;
        assert gap > 0 && cur[0] == ' ' by {
          assert rest != "" && Spaces(gap)[0] == ' ';
        }
        FirstLineStarts(width, After(rest), cur, w);
        assert !StartsAtText(Lines(width, After(rest), cur, true, w)[0]);
      } else {
        StartsAfterBreak(width, rest, w);
        assert [] + Broken(width, rest, w) == Broken(width, rest, w);
      }
    }
  }

  // ------------------------------------------------------------ the promises

  /** A wrapped text that is not blank: bounded lines, the whole text in order with its gaps, no
      break before it is needed, no line ending in a space. */
  lemma WrapsWell(width: char -> nat, s: string, w: int)
    requires width(' ') == 1 && w > 0 && DropSpaces(s) != ""
    ensures var out := Wrapped(width, s, w);
      AllFit(width, out, w) && AllEndInText(out) && Flow(width, s, out, w)
  {
    var rest, cur := DropSpaces(s), Spaces(Indent(s, w));
    WidthSpaces(width, Indent(s, w));
    SpacesDrop(Indent(s, w));
    LinesFit(width, rest, cur, false, w);
    LinesFlow(width, rest, cur, false, w);
    assert "" + rest == rest;
    FlowDrops(width, s, Lines(width, rest, cur, false, w), w);
    LeadFacts(s);
    LeadFacts(rest);
  }

  /** A blank text, or no width at all, wraps to one empty line. */
  lemma BlankWrapsToNothing(width: char -> nat, s: string, w: int)
    requires w <= 0 || DropSpaces(s) == ""
    ensures Wrapped(width, s, w) == [""]
  {
    if w > 0 {
      assert Word("") == "";
    }
  }

  /** A continuation line starts with a space exactly when something hangs. */
  lemma ContinuationStarts(width: char -> nat, s: string, w: int)
    requires width(' ') == 1 && w > 0 && DropSpaces(s) != ""
    ensures AllStartAtText(Wrapped(width, s, w)[1..]) <==> !Hangs(width, DropSpaces(s), w)
  {
    var rest, indent := DropSpaces(s), Indent(s, w);
    LeadFacts(s);
    LeadFacts(rest);
    NextWord(rest);
    WordFacts(rest);
    WidthSpaces(width, indent);
    var word := Word(rest);
    if indent + Width(width, word) <= w {
      LastRune(width, word);
      StartsAfterText(width, After(rest), Spaces(indent) + Spaces(0) + word, w);
    } else {
      var out := Broken(width, rest, w);
      StartsAfterBreak(width, rest, w);
      assert [] + out == out;
      BrokenStarts(width, rest, w);
      FirstAndMore(out);
    }
  }

  lemma BrokenStarts(width: char -> nat, rest: string, w: nat)
    requires Word(rest) != ""
    ensures Broken(width, rest, w) != [] && StartsAtText(Broken(width, rest, w)[0])
  {
    var word := Word(rest);
    var last := Rest(width, word, w);
    NextWord(rest);
    RestIsEmpty(width, word, w);
    if Heads(width, word, w) == [] {
      assert last == word;
      FirstLineStarts(width, After(rest), last, w);
    } else {
      assert StartsAtText(Heads(width, word, w)[0]);
    }
  }

  /** No rune wider than the line, no continuation line that starts with a space. */
  lemma {:induction false} NothingHangs(width: char -> nat, rest: string, w: nat)
    requires forall c :: width(c) <= w
    ensures !Hangs(width, rest, w)
    decreases |rest|
  {
    if Word(rest) != "" {
      NothingHangs(width, After(rest), w);
    }
  }

  /** A rune too wide, a space and a word of no width: the space starts a line. */
  lemma SomethingHangs(width: char -> nat)
    requires width('W') == 2 && width('z') == 0
    ensures Hangs(width, "W z", 1)
  {
    var s, t := "W z", " z";
    assert LeadSpaces(s) == 0 && DropSpaces(s) == s;
    assert s[1..] == t && WordLen(t) == 0 && WordLen(s) == 1;
    assert Word(s) == "W" && After(s) == t;
    assert t[1..] == "z" && LeadSpaces("z") == 0 && LeadSpaces(t) == 1 && DropSpaces(t) == "z";
    assert "z"[1..] == "" && WordLen("") == 0 && WordLen("z") == 1 && Word(t) == "z";
    assert Width(width, "z") == width('z') + Width(width, "") == 0;
    assert NextFits(width, t, 1);
  }

  /** The indentation: kept, but for leaving a cell of text, or dropped when the first word does
      not fit behind it. */
  lemma IndentIsKept(width: char -> nat, s: string, w: int)
    requires width(' ') == 1 && w > 0 && DropSpaces(s) != ""
    ensures var out, indent := Wrapped(width, s, w), Indent(s, w);
      && indent == (if LeadSpaces(s) < w then LeadSpaces(s) else w - 1)
      && out[0] != ""
      && (LeadSpaces(out[0]) == if indent + Width(width, Word(s)) <= w then indent else 0)
  {
    var rest, indent := DropSpaces(s), Indent(s, w);
    LeadFacts(s);
    LeadFacts(rest);
    NextWord(rest);
    WordFacts(rest);
    WidthSpaces(width, indent);
    if indent + Width(width, Word(rest)) <= w {
      FirstWordStays(width, rest, indent, w);
    } else {
      FirstWordMoves(width, rest, indent, w);
    }
  }

  lemma FirstWordMoves(width: char -> nat, rest: string, indent: nat, w: nat)
    requires Word(rest) != "" && LeadSpaces(rest) == 0 && Width(width, Spaces(indent)) + Width(width, Word(rest)) > w
    ensures var out := Lines(width, rest, Spaces(indent), false, w);
      out != [] && out[0] != "" && LeadSpaces(out[0]) == 0
  {
    BrokenStarts(width, rest, w);
    assert [] + Broken(width, rest, w) == Broken(width, rest, w);
  }

  lemma FirstWordStays(width: char -> nat, rest: string, indent: nat, w: nat)
    requires Word(rest) != "" && LeadSpaces(rest) == 0 && Width(width, Spaces(indent)) + Width(width, Word(rest)) <= w
    ensures var out := Lines(width, rest, Spaces(indent), false, w);
      out != [] && out[0] != "" && LeadSpaces(out[0]) == indent
  {
    var word := Word(rest);
    var cur := Spaces(indent) + Spaces(0) + word;
    NextWord(rest);
    WordEndsInText(word);
    assert cur == Spaces(indent) + word;
    LeadOfLine(indent, word);
    FirstLineExtends(width, After(rest), cur, w);
    LeadOfPrefix(cur, Lines(width, After(rest), cur, true, w)[0]);
  }

  lemma {:induction false} LeadOfLine(n: nat, word: string)
    requires word != "" && word[0] != ' '
    ensures LeadSpaces(Spaces(n) + word) == n
  {
    if n > 0 {
      LeadOfLine(n - 1, word);
      assert (Spaces(n) + word)[1..] == Spaces(n - 1) + word;
    } else {
      assert Spaces(0) + word == word;
    }
  }

  lemma {:induction false} LeadOfPrefix(a: string, b: string)
    requires a <= b && LeadSpaces(a) < |a|
    ensures LeadSpaces(b) == LeadSpaces(a)
  {
    if a[0] == ' ' {
      LeadOfPrefix(a[1..], b[1..]);
    }
  }

  lemma {:induction false} FirstLineExtends(width: char -> nat, rest: string, cur: string, w: nat)
    ensures var out := Lines(width, rest, cur, true, w);
      out != [] && cur <= out[0]
    decreases |rest|
  {
    if Word(rest) != "" && Width(width, cur) + LeadSpaces(rest) + Width(width, Word(rest)) <= w {
      var next := cur + Spaces(LeadSpaces(rest)) + Word(rest);
      FirstLineExtends(width, After(rest), next, w);
      assert cur <= next;
    }
  }
}
