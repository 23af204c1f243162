/** What editing does to a file's line endings. */
module Endings {
  import opened Prelude
  import opened Strings
  import opened PatchTypes
  import opened TextFile
  import Hunks

  /** A line with no line ending inside. */
  predicate Plain(line: string) {
    '\n' !in line && '\r' !in line
  }

  ghost predicate AllPlain(lines: seq<string>) {
    forall i :: 0 <= i < |lines| ==> Plain(lines[i])
  }

  // ------------------------------------------------------ reading lines back

  lemma {:induction false} NormalHasNoCR(s: string)
    ensures '\r' !in Normal(s)
  {
    if s != "" {
      NormalHasNoCR(if PairAt(s) then s[2..] else s[1..]);
    }
  }

  lemma {:induction false} SplitKeepsOut(s: string, c: char, d: char)
    requires d !in s
    ensures forall i :: 0 <= i < |SplitOn(s, c)| ==> d !in SplitOn(s, c)[i]
  {
    if s != "" {
      SplitKeepsOut(s[1..], c, d);
      var more := SplitOn(s[1..], c);
      assert SplitOn(s, c) == if s[0] == c then [""] + more else [[s[0]] + more[0]] + more[1..];
    }
  }

  /** No line of a file has a line ending inside. */
  lemma LinesArePlain(text: string)
    ensures AllPlain(Lines(text))
  {
    var parts := SplitOn(Normal(text), '\n');
    NormalHasNoCR(text);
    SplitKeepsOut(Normal(text), '\n', '\r');
    SplitIsLines(Normal(text));
    forall i | 0 <= i < |Lines(text)| ensures Plain(Lines(text)[i]) {
      assert OneLine(parts[i]) && Lines(text)[i] == parts[i];
    }
  }

  /** A line and what comes after it, normalised. */
  lemma {:induction false} NormalLine(line: string, rest: string)
    requires Plain(line)
    ensures Normal(line + rest) == line + Normal(rest)
  {
    if line == "" {
      assert line + rest == rest && line + Normal(rest) == Normal(rest);
    } else {
      assert line[0] in line && (line + rest)[0] == line[0] && (line + rest)[1..] == line[1..] + rest;
      NormalLine(line[1..], rest);
      assert [line[0]] + (line[1..] + Normal(rest)) == line + Normal(rest);
    }
  }

  lemma NormalSep(le: Ending, rest: string)
    ensures Normal(Sep(le) + rest) == "\n" + Normal(rest)
  {
    var s := Sep(le) + rest;
    assert s[|Sep(le)|..] == rest;
  }

  lemma {:induction false} NormalRejoined(lines: seq<string>, le: Ending, ended: bool)
    requires AllPlain(lines)
    ensures Normal(Rejoined(lines, Sep(le), ended)) == Rejoined(lines, "\n", ended)
  {
    if lines != [] {
      var line, rest := lines[0], Rejoined(lines[1..], Sep(le), ended);
      assert Plain(line);
      if |lines| == 1 {
        NormalLine(line, if ended then Sep(le) else "");
        NormalSep(le, "");
        assert Sep(le) + "" == Sep(le) && Normal("") == "";
      } else {
        assert AllPlain(lines[1..]) by {
          assert forall i :: 0 <= i < |lines| - 1 ==> lines[1..][i] == lines[i + 1];
        }
        NormalRejoined(lines[1..], le, ended);
        Assoc(line, Sep(le), rest);
        NormalLine(line, Sep(le) + rest);
        NormalSep(le, rest);
        Assoc(line, "\n", Normal(rest));
      }
    }
  }

  lemma {:induction false} SplitRejoined(lines: seq<string>)
    requires AllOneLine(lines) && lines != []
    ensures SplitOn(Rejoined(lines, "\n", false), '\n') == lines
    ensures Rejoined(lines, "\n", true) == Unlines(lines)
  {
    assert OneLine(lines[0]);
    if |lines| == 1 {
      SplitNone(lines[0], '\n');
      assert lines[0] + "" == lines[0] && Unlines(lines[1..]) == "" && lines[0] + "\n" + "" == lines[0] + "\n";
    } else {
      assert AllOneLine(lines[1..]) by {
        assert forall i :: 0 <= i < |lines| - 1 ==> lines[1..][i] == lines[i + 1];
      }
      SplitRejoined(lines[1..]);
      SplitFirst(lines[0], '\n', Rejoined(lines[1..], "\n", false));
      assert [lines[0]] + lines[1..] == lines;
    }
  }

  lemma AllPlainOneLine(lines: seq<string>)
    requires AllPlain(lines)
    ensures AllOneLine(lines)
  {
    forall i | 0 <= i < |lines| ensures OneLine(lines[i]) {
      assert Plain(lines[i]);
    }
  }

  /** Writing lines and reading the file back gives them again, whatever the line ending; only
      an empty last line without a newline is lost. */
  lemma RereadsLines(lines: seq<string>, le: Ending, ended: bool)
    requires AllPlain(lines)
    ensures Lines(Rejoined(lines, Sep(le), ended)) == if ended then lines else DropBlankEnd(lines)
  {
    NormalRejoined(lines, le, ended);
    if lines != [] {
      AllPlainOneLine(lines);
      SplitRejoined(lines);
      SplitText(lines);
      assert (lines + [""])[..|lines|] == lines;
    }
  }

  /** What lines are read as when a file of them is read again: each as it reads alone, with its
      separator. */
  function Reads(lines: seq<string>, sep: string, ended: bool): seq<string> {
    if lines == [] then []
    else if |lines| == 1 then Lines(lines[0] + if ended then sep else "")
    else Lines(lines[0] + sep) + Reads(lines[1..], sep, ended)
  }

  predicate EndsLine(s: string) {
    s != "" && s[|s| - 1] == '\n'
  }

  /** What the first character or pair of a text becomes. */
  function NormalHead(s: string): string
    requires s != ""
  {
    if s[0] == '\r' then "\n" else [s[0]]
  }

  function NormalTail(s: string): string
    requires s != ""
  {
    if PairAt(s) then s[2..] else s[1..]
  }

  lemma NormalStep(s: string)
    requires s != ""
    ensures Normal(s) == NormalHead(s) + Normal(NormalTail(s))
  {
  }

  lemma TailConcat(a: string, b: string)
    requires EndsLine(a)
    ensures NormalHead(a + b) == NormalHead(a) && NormalTail(a + b) == NormalTail(a) + b
    ensures NormalTail(a) != "" ==> EndsLine(NormalTail(a))
    ensures NormalTail(a) == "" ==> NormalHead(a) == "\n"
  {
    assert PairAt(a + b) == PairAt(a);
  }

  lemma {:induction false} NormalConcat(a: string, b: string)
    requires EndsLine(a)
    ensures Normal(a + b) == Normal(a) + Normal(b) && EndsLine(Normal(a))
    decreases |a|
  {
    var head, tail := NormalHead(a), NormalTail(a);
    TailConcat(a, b);
    NormalStep(a);
    NormalStep(a + b);
    if tail == "" {
      assert tail + b == b && head + "" == head;
    } else {
      NormalConcat(tail, b);
      Assoc(head, Normal(tail), Normal(b));
    }
  }

  lemma {:induction false} SplitConcat(a: string, b: string)
    ensures SplitOn(a + "\n" + b, '\n') == SplitOn(a, '\n') + SplitOn(b, '\n')
  {
    if a == "" {
      assert "" + "\n" + b == "\n" + b && ("\n" + b)[1..] == b;
    } else {
      assert (a + "\n" + b)[1..] == a[1..] + "\n" + b;
      SplitConcat(a[1..], b);
      ConsSplit(a[0], SplitOn(a[1..], '\n'), SplitOn(b, '\n'));
    }
  }

  lemma ConsSplit(c: char, more: seq<string>, rest: seq<string>)
    requires more != []
    ensures [""] + (more + rest) == [""] + more + rest
    ensures [[c] + (more + rest)[0]] + (more + rest)[1..] == [[c] + more[0]] + more[1..] + rest
  {
  }

  lemma DropAfter(parts: seq<string>, more: seq<string>)
    requires more != []
    ensures DropBlankEnd(parts + more) == parts + DropBlankEnd(more)
  {
    assert (parts + more)[..|parts| + |more| - 1] == parts + more[..|more| - 1];
  }

  lemma SplitEnded(s: string, rest: string)
    requires EndsLine(s)
    ensures SplitOn(s, '\n') == SplitOn(s[..|s| - 1], '\n') + [""]
    ensures SplitOn(s + rest, '\n') == SplitOn(s[..|s| - 1], '\n') + SplitOn(rest, '\n')
  {
    var p := s[..|s| - 1];
    assert s == p + "\n" == p + "\n" + "";
    SplitConcat(p, "");
    SplitConcat(p, rest);
  }

  /** A text that ends in a newline, and what comes after it, are read one by one. */
  lemma LinesConcat(a: string, b: string)
    requires EndsLine(a)
    ensures Lines(a + b) == Lines(a) + Lines(b)
  {
    NormalConcat(a, b);
    SplitEnded(Normal(a), Normal(b));
    var parts := SplitOn(Normal(a)[..|Normal(a)| - 1], '\n');
    DropAfter(parts, [""]);
    DropAfter(parts, SplitOn(Normal(b), '\n'));
    assert parts + [] == parts;
  }

  /** Reading a file of any lines again reads each of them, whatever is in it. */
  lemma {:induction false} RereadsEach(lines: seq<string>, le: Ending, ended: bool)
    ensures Lines(Rejoined(lines, Sep(le), ended)) == Reads(lines, Sep(le), ended)
  {
    if |lines| > 1 {
      RereadsEach(lines[1..], le, ended);
      LinesConcat(lines[0] + Sep(le), Rejoined(lines[1..], Sep(le), ended));
    }
  }

  /** So does reading a new file; plain lines it reads as they are. */
  lemma CreatedReads(hunks: seq<Hunk>)
    ensures Lines(Created(hunks)) == Reads(AllAdded(hunks), "\n", EndsInNewline(hunks))
    ensures var lines := AllAdded(hunks);
      AllPlain(lines) ==> Lines(Created(hunks)) == if EndsInNewline(hunks) then lines else DropBlankEnd(lines)
  {
    var lines := AllAdded(hunks);
    var ended := EndsInNewline(hunks);
    CreatedIsRejoined(hunks);
    RereadsEach(lines, LF, ended);
    if AllPlain(lines) {
      RereadsLines(lines, LF, ended);
    }
  }

  /** The text of the added lines, and of nothing else. */
  function AddedTexts(ls: seq<HunkLine>): seq<string> {
    if ls == [] then []
    else if ls[0].prefix == '+' then [ls[0].content] + AddedTexts(ls[1..])
    else AddedTexts(ls[1..])
  }

  lemma {:induction false} AddedTextsConcat(ls: seq<HunkLine>, l: HunkLine)
    ensures AddedTexts(ls + [l]) == if l.prefix == '+' then AddedTexts(ls) + [l.content] else AddedTexts(ls)
  {
    if ls == [] {
      assert [l][1..] == [] && [] + [l] == [l] && [l.content] + [] == [l.content] == [] + [l.content];
    } else {
      assert (ls + [l])[0] == ls[0] && (ls + [l])[1..] == ls[1..] + [l];
      AddedTextsConcat(ls[1..], l);
      if ls[0].prefix == '+' && l.prefix == '+' {
        Assoc([ls[0].content], AddedTexts(ls[1..]), [l.content]);
      }
    }
  }

  lemma {:induction false} AddedIs(ls: seq<HunkLine>)
    ensures Added(ls) == AddedTexts(ls)
  {
    if ls != [] {
      var n := |ls| - 1;
      AddedIs(ls[..n]);
      AddedTextsConcat(ls[..n], ls[n]);
      assert ls[..n] + [ls[n]] == ls;
    }
  }

  /** A new file is the added lines as the patch has them, carriage returns and all, each ended by a newline,
      but the last not when the no-newline marker is the last line of the patch. */
  lemma CreatedLineByLine(h: Hunk)
    requires AllOneLine(AddedTexts(h.lines)) && AddedTexts(h.lines) != []
    ensures var marked := h.lines[|h.lines| - 1].prefix == '\\';
      SplitOn(Created([h]), '\n') == if marked then AddedTexts(h.lines) else AddedTexts(h.lines) + [""]
  {
    var lines := AddedTexts(h.lines);
    AddedIs(h.lines);
    assert [h][..0] == [] && AllAdded([]) + Added(h.lines) == lines;
    assert AllAdded([h]) == lines;
    if h.lines[|h.lines| - 1].prefix == '\\' {
      UnendedSplits(lines);
    } else {
      SplitText(lines);
    }
  }

  lemma UnendedSplits(lines: seq<string>)
    requires AllOneLine(lines) && lines != []
    ensures SplitOn(DropNewline(Unlines(lines)), '\n') == lines
  {
    var n := |lines| - 1;
    UnlinesSnoc(lines[..n], lines[n]);
    assert lines[..n] + [lines[n]] == lines;
    assert DropNewline(Unlines(lines)) == Unlines(lines[..n]) + lines[n] by {
      Assoc(Unlines(lines[..n]), lines[n], "\n");
    }
    SplitTail(lines[..n], lines[n]);
  }

  lemma {:induction false} SplitTail(lines: seq<string>, last: string)
    requires AllOneLine(lines) && OneLine(last)
    ensures SplitOn(Unlines(lines) + last, '\n') == lines + [last]
  {
    if lines == [] {
      assert Unlines(lines) + last == last;
      SplitNone(last, '\n');
    } else {
      assert AllOneLine(lines[1..]) && OneLine(lines[0]);
      SplitTail(lines[1..], last);
      var rest := Unlines(lines[1..]) + last;
      assert Unlines(lines) + last == lines[0] + ['\n'] + rest;
      SplitFirst(lines[0], '\n', rest);
      assert [lines[0]] + (lines[1..] + [last]) == lines + [last];
    }
  }

  lemma CreatedIsRejoined(hunks: seq<Hunk>)
    ensures Created(hunks) == Rejoined(AllAdded(hunks), "\n", EndsInNewline(hunks))
  {
    var lines := AllAdded(hunks);
    if lines != [] {
      UnlinesIsRejoined(lines);
      RejoinedEnded(lines);
    }
  }

  lemma {:induction false} RejoinedEnded(lines: seq<string>)
    requires lines != []
    ensures Rejoined(lines, "\n", true) == Rejoined(lines, "\n", false) + "\n"
  {
    if |lines| == 1 {
      assert lines[0] + "" == lines[0];
    } else {
      RejoinedEnded(lines[1..]);
      Assoc(lines[0] + "\n", Rejoined(lines[1..], "\n", false), "\n");
    }
  }

  lemma {:induction false} UnlinesIsRejoined(lines: seq<string>)
    requires lines != []
    ensures Unlines(lines) == Rejoined(lines, "\n", false) + "\n"
  {
    if |lines| == 1 {
      assert lines[0] + "" == lines[0] && lines[0] + "\n" + "" == lines[0] + "\n";
    } else {
      UnlinesIsRejoined(lines[1..]);
      Assoc(lines[0] + "\n", Rejoined(lines[1..], "\n", false), "\n");
    }
  }

  // -------------------------------------------------- the ending that results

  /** How many separators a file of these lines has. */
  function Separators(lines: seq<string>, ended: bool): nat {
    if lines == [] then 0 else |lines| - 1 + if ended then 1 else 0
  }

  /** How many of the lines that a separator follows end in a carriage return. */
  function ReturnEnds(lines: seq<string>, ended: bool): nat {
    if lines == [] || (|lines| == 1 && !ended) then 0
    else (if EndsInReturn(lines[0]) then 1 else 0) + ReturnEnds(lines[1..], ended)
  }

  predicate EndsInReturn(line: string) {
    line != "" && line[|line| - 1] == '\r'
  }

  lemma PairsStep(c: char, s: string)
    requires c != '\n' && !(c == '\r' && s != "" && s[0] == '\n')
    ensures Pairs([c] + s) == Pairs(s) && Bare([c] + s) == Bare(s)
  {
    assert ([c] + s)[1..] == s;
  }

  /** A line with its separator: a pair if either has the return for it. */
  lemma {:induction false} PairsInLine(line: string, le: Ending, rest: string)
    requires OneLine(line)
    ensures var pair := if le == CRLF || EndsInReturn(line) then 1 else 0;
      Pairs(line + (Sep(le) + rest)) == Pairs(rest) + pair && Bare(line + (Sep(le) + rest)) == Bare(rest) + 1 - pair
  {
    var after := Sep(le) + rest;
    var s := line + after;
    if line == "" {
      assert s == after && s[|Sep(le)|..] == rest;
    } else if |line| == 1 && EndsInReturn(line) && le == LF {
      assert s[0] == '\r' && s[1] == '\n' && s[2..] == rest;
    } else {
      var more := line[1..];
      assert line[0] in line && s == [line[0]] + (more + after);
      assert more != "" ==> (more + after)[0] == line[1] && line[1] in line;
      PairsStep(line[0], more + after);
      PairsInLine(more, le, rest);
    }
  }

  lemma {:induction false} PairsInEnd(line: string)
    requires OneLine(line)
    ensures Pairs(line) == 0 && Bare(line) == 0
  {
    if line != "" {
      assert line[0] in line && (|line| > 1 ==> line[1] in line);
      PairsInEnd(line[1..]);
    }
  }

  lemma RestOneLine(lines: seq<string>)
    requires AllOneLine(lines) && lines != []
    ensures AllOneLine(lines[1..]) && OneLine(lines[0])
  {
    assert forall i :: 0 <= i < |lines| - 1 ==> lines[1..][i] == lines[i + 1];
  }

  /** All separators are pairs in a CRLF file, in others those after a carriage return. */
  lemma {:induction false} PairsRejoined(lines: seq<string>, le: Ending, ended: bool)
    requires AllOneLine(lines)
    ensures var text, n := Rejoined(lines, Sep(le), ended), Separators(lines, ended);
      var pairs := if le == CRLF then n else ReturnEnds(lines, ended);
      Pairs(text) == pairs && Bare(text) == n - pairs
  {
    if lines != [] {
      RestOneLine(lines);
      var line, rest := lines[0], Rejoined(lines[1..], Sep(le), ended);
      if |lines| > 1 {
        PairsRejoined(lines[1..], le, ended);
        Assoc(line, Sep(le), rest);
        PairsInLine(line, le, rest);
      } else if ended {
        PairsInLine(line, le, "");
        assert Sep(le) + "" == Sep(le);
      } else {
        PairsInEnd(line);
        assert line + "" == line;
      }
    }
  }

  /** A file keeps its line ending: a CRLF file unless no line ending is left in it, another unless
      most of its lines end in a carriage return of their own. */
  ghost predicate KeepsEnding(lines: seq<string>, le: Ending, ended: bool) {
    if le == CRLF then Separators(lines, ended) > 0 else 2 * ReturnEnds(lines, ended) <= Separators(lines, ended)
  }

  lemma EndingIsKept(lines: seq<string>, le: Ending, ended: bool)
    requires AllOneLine(lines)
    ensures EndingOf(Rejoined(lines, Sep(le), ended)) == le <==> KeepsEnding(lines, le, ended)
  {
    PairsRejoined(lines, le, ended);
  }

  lemma {:induction false} PlainHasNoReturn(lines: seq<string>, ended: bool)
    requires AllPlain(lines)
    ensures AllOneLine(lines) && ReturnEnds(lines, ended) == 0
  {
    AllPlainOneLine(lines);
    if lines != [] {
      assert AllPlain(lines[1..]) by {
        assert forall i :: 0 <= i < |lines| - 1 ==> lines[1..][i] == lines[i + 1];
      }
      assert Plain(lines[0]) && (lines[0] != "" ==> lines[0][|lines[0]| - 1] in lines[0]);
      PlainHasNoReturn(lines[1..], ended);
    }
  }

  /** The patch puts no line ending inside a line. */
  ghost predicate PlainHunks(hunks: seq<Hunk>) {
    forall i :: 0 <= i < |hunks| ==> AllPlain(Hunks.New(hunks[i]))
  }

  lemma {:induction false} RunKeepsPlain(content: seq<string>, hunks: seq<Hunk>)
    requires AllPlain(content) && PlainHunks(hunks) && Hunks.RunHunks(content, hunks).Ok?
    ensures AllPlain(Hunks.RunHunks(content, hunks).value.lines)
  {
    if hunks != [] {
      var n := |hunks| - 1;
      var p := Hunks.RunHunks(content, hunks[..n]).value;
      assert PlainHunks(hunks[..n]) && AllPlain(Hunks.New(hunks[n]));
      RunKeepsPlain(content, hunks[..n]);
      Hunks.PlaceInBounds(hunks[n], n + 1, p);
      var pos := Hunks.Place(hunks[n], n + 1, p).value;
      SplicePlain(p.lines, Hunks.New(hunks[n]), pos, pos + |Hunks.Old(hunks[n])|);
    }
  }

  lemma SplicePlain(lines: seq<string>, block: seq<string>, from: nat, to: nat)
    requires AllPlain(lines) && AllPlain(block) && from <= to <= |lines|
    ensures AllPlain(lines[..from] + block + lines[to..])
  {
    var all := lines[..from] + block + lines[to..];
    forall i | 0 <= i < |all| ensures Plain(all[i]) {
      if i < from {
        assert all[i] == lines[i];
      } else if i < from + |block| {
        assert all[i] == block[i - from];
      } else {
        assert all[i] == lines[i - from - |block| + to];
      }
    }
  }

  /** Every line that the patch puts into a file is one line of the patch. */
  ghost predicate OneLineHunks(hunks: seq<Hunk>) {
    forall i :: 0 <= i < |hunks| ==> AllOneLine(Hunks.New(hunks[i]))
  }

  lemma {:induction false} RunKeepsOneLine(content: seq<string>, hunks: seq<Hunk>)
    requires AllOneLine(content) && OneLineHunks(hunks) && Hunks.RunHunks(content, hunks).Ok?
    ensures AllOneLine(Hunks.RunHunks(content, hunks).value.lines)
  {
    if hunks != [] {
      var n := |hunks| - 1;
      var p := Hunks.RunHunks(content, hunks[..n]).value;
      assert OneLineHunks(hunks[..n]) && AllOneLine(Hunks.New(hunks[n]));
      RunKeepsOneLine(content, hunks[..n]);
      Hunks.PlaceInBounds(hunks[n], n + 1, p);
      var pos := Hunks.Place(hunks[n], n + 1, p).value;
      SpliceOneLine(p.lines, Hunks.New(hunks[n]), pos, pos + |Hunks.Old(hunks[n])|);
    }
  }

  lemma SpliceOneLine(lines: seq<string>, block: seq<string>, from: nat, to: nat)
    requires AllOneLine(lines) && AllOneLine(block) && from <= to <= |lines|
    ensures AllOneLine(lines[..from] + block + lines[to..])
  {
    var all := lines[..from] + block + lines[to..];
    forall i | 0 <= i < |all| ensures OneLine(all[i]) {
      if i < from {
        assert all[i] == lines[i];
      } else if i < from + |block| {
        assert all[i] == block[i - from];
      } else {
        assert all[i] == lines[i - from - |block| + to];
      }
    }
  }

  /** Exactly when a modification is staged: its hunks are placed, its added lines have the file's
      line ending if the patch shows any, and the file keeps that ending. */
  ghost predicate Stages(text: string, hunks: seq<Hunk>) {
    var run := Hunks.RunHunks(Lines(text), hunks);
    && run.Ok?
    && (CarriesEndings(hunks) ==> AllAgree(hunks, EndingOf(text)))
    && (hunks == [] || KeepsEnding(run.value.lines, EndingOf(text), EndsInNewline(hunks)))
  }

  /** The staged text reads as the lines the hunks make, each as it reads alone, plain ones as they
      are; and its line ending is the file's. */
  lemma ModifiedExactly(text: string, hunks: seq<Hunk>)
    requires OneLineHunks(hunks)
    ensures Modified(text, hunks).Ok? <==> Stages(text, hunks)
    ensures Modified(text, hunks).Ok? ==>
              var lines := Hunks.RunHunks(Lines(text), hunks).value.lines;
              var out := Modified(text, hunks).value.text;
              && Lines(out) == Reads(lines, Sep(EndingOf(text)), EndsInNewline(hunks))
              && (PlainHunks(hunks) ==> Lines(out) == if EndsInNewline(hunks) then lines else DropBlankEnd(lines))
              && (hunks != [] ==> EndingOf(out) == EndingOf(text))
  {
    var run := Hunks.RunHunks(Lines(text), hunks);
    if run.Ok? {
      LinesArePlain(text);
      AllPlainOneLine(Lines(text));
      RunKeepsOneLine(Lines(text), hunks);
      RereadsEach(run.value.lines, EndingOf(text), EndsInNewline(hunks));
      EndingIsKept(run.value.lines, EndingOf(text), EndsInNewline(hunks));
      if PlainHunks(hunks) {
        RunKeepsPlain(Lines(text), hunks);
        RereadsLines(run.value.lines, EndingOf(text), EndsInNewline(hunks));
      }
    }
  }

  // ------------------------------------------------- what patches are refused

  predicate EndsInCR(line: string) {
    |line| > 0 && line[|line| - 1] == '\r'
  }

  predicate ShowsCRAt(l: HunkLine) {
    l.prefix in {' ', '-', '+'} && EndsInCR(l.content)
  }

  /** Some context, removed or added line of the patch is shown with a carriage return. */
  ghost predicate ShowsCR(hunks: seq<Hunk>) {
    exists i, j :: 0 <= i < |hunks| && 0 <= j < |hunks[i].lines| && ShowsCRAt(hunks[i].lines[j])
  }

  /** An added line, unless the marker after it says that it is not ended. */
  predicate AddsEnded(ls: seq<HunkLine>, j: nat)
    requires j < |ls|
  {
    ls[j].prefix == '+' && (j == |ls| - 1 || ls[j + 1].prefix != '\\')
  }

  /** Added lines that will be ended all show a carriage return, or none does. */
  ghost predicate AddsLike(hunks: seq<Hunk>, cr: bool) {
    forall i, j :: 0 <= i < |hunks| && 0 <= j < |hunks[i].lines| && AddsEnded(hunks[i].lines, j) ==>
      EndsInCR(hunks[i].lines[j].content) == cr
  }

  lemma ShowsExactly(hunks: seq<Hunk>)
    ensures ShowsCR(hunks) <==> CarriesEndings(hunks)
  {
    if i, j :| 0 <= i < |hunks| && 0 <= j < |hunks[i].lines| && CarriesEnding(hunks[i].lines[j]) {
      assert ShowsCRAt(hunks[i].lines[j]);
    }
    if i, j :| 0 <= i < |hunks| && 0 <= j < |hunks[i].lines| && ShowsCRAt(hunks[i].lines[j]) {
      assert CarriesEnding(hunks[i].lines[j]);
    }
  }

  lemma AgreesExactly(hunks: seq<Hunk>, le: Ending)
    ensures AddsLike(hunks, le == CRLF) <==> AllAgree(hunks, le)
  {
    forall i, j | 0 <= i < |hunks| && 0 <= j < |hunks[i].lines|
      ensures (AddsEnded(hunks[i].lines, j) ==> EndsInCR(hunks[i].lines[j].content) == (le == CRLF))
           == LineAgrees(hunks[i].lines, j, le)
    {
    }
  }

  /** A patch whose hunks are placed is refused for its line endings exactly when it shows carriage
      returns and does not show them on the lines it adds just as the file has them, or when the file
      would not keep its line ending. */
  lemma RefusedForEndings(text: string, hunks: seq<Hunk>)
    requires Hunks.RunHunks(Lines(text), hunks).Ok?
    ensures var lines := Hunks.RunHunks(Lines(text), hunks).value.lines;
      var crlf := Pairs(text) > Bare(text);
      var out := Rejoined(lines, if crlf then "\r\n" else "\n", EndsInNewline(hunks));
      Modified(text, hunks) == Err(EndingMismatch) <==>
        (ShowsCR(hunks) && !AddsLike(hunks, crlf)) || (hunks != [] && (Pairs(out) > Bare(out)) != crlf)
  {
    ShowsExactly(hunks);
    AgreesExactly(hunks, EndingOf(text));
  }

  // ------------------------------------------- a modification without hunks

  /** All line endings are `le`. */
  predicate Unmixed(s: string, le: Ending) {
    if s == "" then true
    else if PairAt(s) then le == CRLF && Unmixed(s[2..], le)
    else s[0] != '\r' && (s[0] == '\n' ==> le == LF) && Unmixed(s[1..], le)
  }

  predicate Terminated(s: string) {
    s == "" || s[|s| - 1] == '\n'
  }

  lemma {:induction false} UnmixedLine(line: string, rest: string, le: Ending)
    requires Plain(line)
    ensures Unmixed(line + rest, le) == Unmixed(rest, le)
  {
    if line == "" {
      assert line + rest == rest;
    } else {
      assert line[0] in line && (line + rest)[0] == line[0] && (line + rest)[1..] == line[1..] + rest;
      UnmixedLine(line[1..], rest, le);
    }
  }

  lemma UnmixedSep(rest: string, le: Ending)
    ensures Unmixed(Sep(le) + rest, le) == Unmixed(rest, le)
  {
    var s := Sep(le) + rest;
    assert s[|Sep(le)|..] == rest;
  }

  lemma {:induction false} RejoinedIsUnmixed(lines: seq<string>, le: Ending)
    requires AllPlain(lines)
    ensures Unmixed(Rejoined(lines, Sep(le), true), le) && Terminated(Rejoined(lines, Sep(le), true))
  {
    if lines != [] {
      var line, rest := lines[0], Rejoined(lines[1..], Sep(le), true);
      assert Plain(line);
      assert AllPlain(lines[1..]) by {
        assert forall i :: 0 <= i < |lines| - 1 ==> lines[1..][i] == lines[i + 1];
      }
      RejoinedIsUnmixed(lines[1..], le);
      RejoinedCons(line, lines[1..], Sep(le));
      assert [line] + lines[1..] == lines;
      UnmixedLine(line, Sep(le) + rest, le);
      UnmixedSep(rest, le);
    }
  }

  /** The first line of a text with one kind of ending, and what comes after it. */
  lemma {:induction false} FirstOf(s: string, le: Ending) returns (line: string, rest: string)
    requires s != "" && Unmixed(s, le) && Terminated(s)
    ensures Plain(line) && s == line + (Sep(le) + rest) && Unmixed(rest, le) && Terminated(rest)
  {
    if PairAt(s) || s[0] == '\n' {
      line, rest := "", s[|Sep(le)|..];
      assert s == "" + (Sep(le) + rest);
    } else {
      assert s[1..] != "";
      line, rest := FirstOf(s[1..], le);
      assert s == ([s[0]] + line) + (Sep(le) + rest);
      line := [s[0]] + line;
    }
  }

  lemma LinesOfFirst(line: string, rest: string, le: Ending)
    requires Plain(line)
    ensures SplitOn(Normal(line + (Sep(le) + rest)), '\n') == [line] + SplitOn(Normal(rest), '\n')
  {
    NormalLine(line, Sep(le) + rest);
    NormalSep(le, rest);
    Assoc(line, "\n", Normal(rest));
    SplitFirst(line, '\n', Normal(rest));
  }

  lemma {:induction false} UnmixedIsRejoined(s: string, le: Ending)
    requires Unmixed(s, le) && Terminated(s)
    ensures SplitOn(Normal(s), '\n') == Lines(s) + [""] && Rejoined(Lines(s), Sep(le), true) == s
    decreases |s|
  {
    if s != "" {
      var line, rest := FirstOf(s, le);
      UnmixedIsRejoined(rest, le);
      LinesOfFirst(line, rest, le);
      assert SplitOn(Normal(s), '\n') == [line] + (Lines(rest) + [""]);
      LinesCons(s, line, Lines(rest));
      RejoinedCons(line, Lines(rest), Sep(le));
    }
  }

  lemma LinesCons(s: string, line: string, lines: seq<string>)
    requires SplitOn(Normal(s), '\n') == [line] + (lines + [""])
    ensures Lines(s) == [line] + lines && SplitOn(Normal(s), '\n') == Lines(s) + [""]
  {
    var parts := [line] + (lines + [""]);
    assert parts[..|parts| - 1] == [line] + lines;
    Assoc([line], lines, [""]);
  }

  lemma RejoinedCons(line: string, lines: seq<string>, sep: string)
    ensures Rejoined([line] + lines, sep, true) == line + (sep + Rejoined(lines, sep, true))
  {
    assert ([line] + lines)[1..] == lines;
    Assoc(line, sep, Rejoined(lines, sep, true));
    assert sep + "" == sep;
  }

  /** A modification without hunks, a mode change, leaves the text alone exactly when all its line
      endings are of one kind and the last line has one.  Otherwise it rewrites them all. */
  lemma WithoutHunks(text: string)
    ensures var le := EndingOf(text);
      && Modified(text, []) == Ok(Edit(Rejoined(Lines(text), Sep(le), true), []))
      && (Modified(text, []).value.text == text <==> Unmixed(text, le) && Terminated(text))
  {
    var le := EndingOf(text);
    LinesArePlain(text);
    RejoinedIsUnmixed(Lines(text), le);
    if Unmixed(text, le) && Terminated(text) {
      UnmixedIsRejoined(text, le);
    }
  }

  /** A mode change alone gives a file without a final newline one. */
  lemma AddsNewline()
    ensures Modified("a", []) == Ok(Edit("a\n", []))
  {
    var lines := ["a"];
    assert Plain("a") && "a" + "" == "a";
    RereadsLines(lines, LF, false);
    PairsRejoined(lines, LF, false);
    assert Rejoined(lines, Sep(LF), false) == "a" && EndingOf("a") == LF && Lines("a") == lines;
    assert Rejoined(lines, "\n", true) == "a\n";
    WithoutHunks("a");
  }

  // ------------------------------------------------ replacing a single line

  function ReplaceHunk(k: nat, was: string, now: string): Hunk {
    Hunk(k + 1, 1, k + 1, 1, [HunkLine('-', was), HunkLine('+', now)])
  }

  lemma ReplaceSides(k: nat, was: string, now: string)
    requires Plain(was) && Plain(now)
    ensures var h := ReplaceHunk(k, was, now);
      && Hunks.Old(h) == [was] && Hunks.New(h) == [now] && Hunks.Declared(h) == k
      && !CarriesEndings([h]) && EndsInNewline([h])
  {
    var ls := ReplaceHunk(k, was, now).lines;
    assert ls[..1] == [HunkLine('-', was)] && ls[..1][..0] == [];
    assert Hunks.OldSide(ls[..1]) == [was] && Hunks.NewSide(ls[..1]) == [];
  }

  lemma ReplaceRuns(lines: seq<string>, k: nat, h: Hunk, now: string)
    requires k < |lines| && Hunks.Old(h) == [lines[k]] && Hunks.New(h) == [now] && Hunks.Declared(h) == k
    ensures var run := Hunks.RunHunks(lines, [h]);
      run.Ok? && run.value.lines == lines[k := now] && run.value.moves == []
  {
    assert lines[k..k + 1] == [lines[k]];
    Replaced(lines, k, now);
    Hunks.OneFits(lines, h);
    Hunks.FitIsReplaced(lines, [h], lines[k := now]);
  }

  lemma Replaced(lines: seq<string>, k: nat, now: string)
    requires k < |lines|
    ensures lines[..k] + [now] + lines[k + 1..] == lines[k := now]
  {
  }

  /** A hunk that replaces one line does that, and is not moved. */
  lemma ReplacesLine(lines: seq<string>, k: nat, now: string)
    requires AllPlain(lines) && k < |lines| && Plain(now)
    ensures Modified(Rejoined(lines, "\n", true), [ReplaceHunk(k, lines[k], now)])
         == Ok(Edit(Rejoined(lines[k := now], "\n", true), []))
  {
    assert Plain(lines[k]) && AllPlain(lines[k := now]);
    ReplaceSides(k, lines[k], now);
    ReplaceRuns(lines, k, ReplaceHunk(k, lines[k], now), now);
    RereadsLines(lines, LF, true);
    PlainHasNoReturn(lines, true);
    PlainHasNoReturn(lines[k := now], true);
    EndingIsKept(lines, LF, true);
    EndingIsKept(lines[k := now], LF, true);
  }
}
