/** Printing file changes and reading them back. */
module DiffRoundTrip {
  import opened Prelude
  import opened Strings
  import opened PatchTypes
  import opened DiffSyntax
  import opened DiffPrinter

  // ---------------------------------------------------------- printed form

  predicate NoCRAtEnd(p: string) {
    p == "" || p[|p| - 1] != '\r'
  }

  /** A path that survives on a line of its own. */
  predicate CleanPath(p: string) {
    '\n' !in p && NoCRAtEnd(p)
  }

  predicate PrintedLine(l: HunkLine) {
    || ((l.prefix == ' ' || l.prefix == '+' || l.prefix == '-') && '\n' !in l.content)
    || l == HunkLine('\\', NO_NEWLINE)
  }

  predicate PrintedLines(ls: seq<HunkLine>) {
    ls == [] || (PrintedLine(ls[0]) && PrintedLines(ls[1..]))
  }

  function OldCount(ls: seq<HunkLine>): nat {
    if ls == [] then 0 else Olds(ls[0]) + OldCount(ls[1..])
  }

  function NewCount(ls: seq<HunkLine>): nat {
    if ls == [] then 0 else News(ls[0]) + NewCount(ls[1..])
  }

  /** The counts are those of the body, and the body is not empty. */
  predicate CountedHunk(h: Hunk) {
    && PrintedLines(h.lines)
    && h.oldLines == OldCount(h.lines) && h.newLines == NewCount(h.lines) && h.oldLines + h.newLines > 0
    && IsInt(h.oldStart) && IsInt(h.newStart)
  }

  predicate FitsInt(h: Hunk) {
    IsInt(h.oldLines) && IsInt(h.newLines)
  }

  predicate PrintedHunk(h: Hunk) {
    CountedHunk(h) && FitsInt(h)
  }

  predicate PrintedHunks(hs: seq<Hunk>) {
    hs == [] || (PrintedHunk(hs[0]) && PrintedHunks(hs[1..]))
  }

  predicate NoQuoteAtEnd(p: string) {
    p != "" && p[|p| - 1] != '"'
  }

  predicate LegalMode(bits: nat) {
    bits == 0 || bits == PLAIN || bits == EXECUTABLE
  }

  predicate LegalModes(c: FileChange) {
    LegalMode(c.newMode) && LegalMode(c.createMode) && (c.hasHeader && c.op == Create ==> c.createMode != 0)
  }

  /** What a "diff --git " change keeps of its paths. */
  predicate KeptWithHeader(c: FileChange) {
    && NoQuoteAtEnd(SourcePath(c)) && NoQuoteAtEnd(c.path) && Index(c.path, " b/") < 0
    && (c.op != Create ==> c.createMode == 0)
    && (if c.op == Rename then StripPrefix(c.oldPath) == c.oldPath && StripPrefix(c.path) == c.path
        else c.oldPath == "")
    && (HasMarkers(c)
        || (c.originalAPath == (if c.op == Rename then "a/" + c.oldPath else c.path)
            && c.originalBPath == (if c.op == Rename then "b/" + c.path else c.path)))
  }

  /** A change without a header is what its "--- " and "+++ " lines say. */
  predicate KeptWithoutHeader(c: FileChange) {
    HasMarkers(c) && TakePlus(TakeMinus(NO_CHANGE, c.originalAPath), c.originalBPath)
                  == c.(hunks := [], isBinary := false)
  }

  /** What the printed lines of a change cannot lose. */
  predicate Kept(c: FileChange) {
    && NoCRAtEnd(c.path) && NoCRAtEnd(c.oldPath) && NoCRAtEnd(c.originalAPath) && NoCRAtEnd(c.originalBPath)
    && (c.isBinary ==> c.hunks == [])
    && (HasMarkers(c) ==> ShownMinus(c) == c.originalAPath && ShownPlus(c) == c.originalBPath)
    && (if c.hasHeader then KeptWithHeader(c) else KeptWithoutHeader(c))
  }

  predicate OneLinePaths(c: FileChange) {
    OneLine(c.path) && OneLine(c.oldPath) && OneLine(c.originalAPath) && OneLine(c.originalBPath)
  }

  predicate Printed(c: FileChange) {
    OneLinePaths(c) && PrintedHunks(c.hunks) && LegalModes(c) && Kept(c)
  }

  /** A change without a header can be told from the change before it. */
  predicate MayFollow(c: FileChange, d: FileChange) {
    d.hasHeader || c.isBinary || (!c.hasHeader && (c.hunks == [] || d.hunks != []))
  }

  predicate PrintedForm(cs: seq<FileChange>) {
    cs == [] || (Printed(cs[0]) && (|cs| > 1 ==> MayFollow(cs[0], cs[1])) && PrintedForm(cs[1..]))
  }

  // ------------------------------------------------- body lines and hunk ends

  lemma FirstChar(s: string, p: string)
    requires s != "" && p != "" && s[0] != p[0]
    ensures !(p <= s) && !HasPrefix(s, p)
  {
  }

  /** With exact counts no body line is taken for a hunk end, whatever it looks like. */
  lemma NoBodyLineEnds(l: HunkLine, rest: seq<string>, st: HunkState)
    requires PrintedLine(l) && st.oldCount + Olds(l) <= st.declOld && st.newCount + News(l) <= st.declNew
    ensures !HunkEnds([BodyLine(l)] + rest, st)
    ensures TrimCR(BodyLine(l)) != "" && TrimCR(BodyLine(l))[0] == l.prefix
  {
    var line := TrimCR(BodyLine(l));
    assert BodyLine(l)[0] == l.prefix;
    assert line != "" && line[0] == l.prefix;
    FirstChar(line, "@@");
    FirstChar(line, "diff --git ");
    if l.prefix != '-' {
      FirstChar(line, "-- ");
      FirstChar(line, "--- ");
      assert line[0] != "-- "[0];
    }
  }

  /** Where an exactly counted hunk really ends. */
  predicate TrueEnd(rest: seq<string>, hasHeader: bool) {
    rest == [] || "@@" <= TrimCR(rest[0]) || "diff --git " <= TrimCR(rest[0]) || (!hasHeader && HeaderPairAt(rest))
  }

  function Complete(st: HunkState): HunkState {
    st.(oldCount := st.declOld, newCount := st.declNew)
  }

  lemma ScanPastLine(l: HunkLine, rest: seq<string>, st: HunkState, read: seq<HunkLine>)
    requires PrintedLine(l) && !HunkEnds([BodyLine(l)] + rest, st)
    requires TrimCR(BodyLine(l)) != "" && TrimCR(BodyLine(l))[0] == l.prefix
    ensures ScanBody([BodyLine(l)] + rest, st, read) == ScanBody(rest, st.Count(Olds(l), News(l)), read + [l])
  {
    assert ([BodyLine(l)] + rest)[1..] == rest;
    if l.prefix == '\\' {
      assert BodyLine(l) == "\\ " + NO_NEWLINE;
    } else {
      FirstChar(TrimCR(BodyLine(l)), "\\ " + NO_NEWLINE);
      assert BodyLine(l)[0] == l.prefix && BodyLine(l)[1..] == l.content;
    }
  }

  lemma ScanBodyLine(l: HunkLine, rest: seq<string>, st: HunkState, read: seq<HunkLine>)
    requires PrintedLine(l) && st.oldCount + Olds(l) <= st.declOld && st.newCount + News(l) <= st.declNew
    ensures ScanBody([BodyLine(l)] + rest, st, read) == ScanBody(rest, st.Count(Olds(l), News(l)), read + [l])
  {
    NoBodyLineEnds(l, rest, st);
    ScanPastLine(l, rest, st, read);
  }

  lemma {:induction false} ScanBodyLines(ls: seq<HunkLine>, rest: seq<string>, st: HunkState, read: seq<HunkLine>)
    requires PrintedLines(ls)
    requires st.oldCount + OldCount(ls) == st.declOld && st.newCount + NewCount(ls) == st.declNew
    requires TrueEnd(rest, st.hasHeader)
    ensures ScanBody(BodyLines(ls) + rest, st, read)
         == Ok(Body(read + ls, Complete(st), rest))
  {
    if ls == [] {
      assert BodyLines(ls) + rest == rest && read + ls == read;
      ScanEnds(rest, st, read);
    } else {
      var l, more := ls[0], ls[1..];
      var st1 := st.Count(Olds(l), News(l));
      BodyLinesCons(ls, rest);
      ScanBodyLine(l, BodyLines(more) + rest, st, read);
      ScanBodyLines(more, rest, st1, read + [l]);
      Shift(read, ls);
      assert Complete(st1) == Complete(st);
    }
  }

  lemma ScanEnds(rest: seq<string>, st: HunkState, read: seq<HunkLine>)
    requires TrueEnd(rest, st.hasHeader) && st.Reached()
    ensures HunkEnds(rest, st) && ScanBody(rest, st, read) == Ok(Body(read, st, rest))
  {
  }

  lemma BodyLinesCons(ls: seq<HunkLine>, rest: seq<string>)
    requires ls != []
    ensures BodyLines(ls) + rest == [BodyLine(ls[0])] + (BodyLines(ls[1..]) + rest)
  {
  }

  lemma Shift<T>(read: seq<T>, ls: seq<T>)
    requires ls != []
    ensures read + [ls[0]] + ls[1..] == read + ls
  {
  }

  // -------------------------------------------------------- the hunk header

  predicate RangeChars(s: string) {
    forall i :: 0 <= i < |s| ==> IsDigit(s[i]) || s[i] == '-'
  }

  lemma DecimalChars(n: int)
    ensures RangeChars(Decimal(n)) && Decimal(n) != ""
  {
  }

  lemma ParsePrintedRange(sign: string, start: int, count: int)
    requires |sign| == 1 && IsInt(start) && IsInt(count)
    ensures ParseRange(sign + Range(start, count), sign) == Some((start, count))
  {
    var part := sign + Range(start, count);
    DecimalChars(start);
    DecimalChars(count);
    assert part[|sign|..] == Decimal(start) + [','] + Decimal(count);
    SplitFirst(Decimal(start), ',', Decimal(count));
    SplitNone(Decimal(count), ',');
    AtoiDecimal(start);
    AtoiDecimal(count);
  }

  /** A token of a range line. */
  predicate IsToken(s: string) {
    s != "" && forall c :: c in s ==> !IsSpace(c) && c != '@'
  }

  lemma RangeIsToken(sign: string, start: int, count: int)
    requires sign == "-" || sign == "+"
    ensures IsToken(sign + Range(start, count))
  {
    DecimalChars(start);
    DecimalChars(count);
  }

  lemma FieldsOfTwo(a: string, b: string)
    requires IsToken(a) && IsToken(b)
    ensures Fields(" " + a + " " + b + " ") == [a, b]
  {
    var s := " " + a + " " + b + " ";
    var rest := " " + b + " ";
    assert s[1..] == a + rest;
    FieldsToken(a, rest);
    assert rest[1..] == b + " ";
    FieldsToken(b, " ");
    assert " "[1..] == "";
    assert Fields(" ") == [] && Fields(b + " ") == [b];
  }

  lemma IndexOfClose(mid: string, heading: string)
    requires '@' !in mid
    ensures Index(mid + "@@" + heading, "@@") == |mid|
  {
    var s := mid + "@@" + heading;
    assert HasAt(s, |mid|, "@@");
    forall j | 0 <= j < |mid| ensures !HasAt(s, j, "@@") {
      assert s[j] == mid[j] && mid[j] in mid;
      assert s[j..j + 2][0] != '@';
    }
    IndexIsFirst(s, "@@");
  }

  lemma ParsePrintedHeader(h: Hunk)
    requires PrintedHunk(h)
    ensures ParseHunkHeader(TrimCR(HunkHeader(h))) == Some(((h.oldStart, h.oldLines), (h.newStart, h.newLines)))
    ensures "@@ " <= HunkHeader(h) && TrimCR(HunkHeader(h)) == HunkHeader(h)
  {
    ReadHeader(h);
  }

  lemma ReadHeader(h: Hunk)
    requires IsInt(h.oldStart) && IsInt(h.oldLines) && IsInt(h.newStart) && IsInt(h.newLines)
    ensures ParseHunkHeader(TrimCR(HunkHeader(h))) == Some(((h.oldStart, h.oldLines), (h.newStart, h.newLines)))
    ensures "@@ " <= HunkHeader(h) && TrimCR(HunkHeader(h)) == HunkHeader(h)
  {
    RangeIsToken("-", h.oldStart, h.oldLines);
    RangeIsToken("+", h.newStart, h.newLines);
    ParsePrintedRange("-", h.oldStart, h.oldLines);
    ParsePrintedRange("+", h.newStart, h.newLines);
    ParseTokens("-" + Range(h.oldStart, h.oldLines), "+" + Range(h.newStart, h.newLines), "");
    assert HunkHeader(h) + "" == HunkHeader(h);
  }

  lemma ParseTokens(a: string, b: string, heading: string)
    requires IsToken(a) && IsToken(b) && ParseRange(a, "-").Some? && ParseRange(b, "+").Some? && NoCRAtEnd(heading)
    ensures var header := "@@" + (" " + a + " " + b + " ") + "@@" + heading;
      && ParseHunkHeader(header) == Some((ParseRange(a, "-").value, ParseRange(b, "+").value))
      && "@@ " <= header && TrimCR(header) == header
  {
    var mid := " " + a + " " + b + " ";
    FieldsOfTwo(a, b);
    MiddleOfHeader(mid, heading);
    ParseTwoRanges("@@" + mid + "@@" + heading, mid, a, b);
  }

  lemma ParseTwoRanges(header: string, mid: string, a: string, b: string)
    requires |header| >= |mid| + 4 && Index(header, "@@") == 0 && Index(header[2..], "@@") == |mid|
    requires header[2..][..|mid|] == mid && Fields(mid) == [a, b]
    requires ParseRange(a, "-").Some? && ParseRange(b, "+").Some?
    ensures ParseHunkHeader(header) == Some((ParseRange(a, "-").value, ParseRange(b, "+").value))
  {
  }

  lemma MiddleOfHeader(mid: string, heading: string)
    requires '@' !in mid && mid != "" && mid[0] == ' ' && NoCRAtEnd(heading)
    ensures var header := "@@" + mid + "@@" + heading;
      && Index(header, "@@") == 0 && Index(header[2..], "@@") == |mid| && header[2..][..|mid|] == mid
      && "@@ " <= header && TrimCR(header) == header
  {
    var header := "@@" + mid + "@@" + heading;
    assert HasAt(header, 0, "@@");
    assert header[2..] == mid + "@@" + heading;
    IndexIsFirst(header, "@@");
    IndexOfClose(mid, heading);
  }

  // ------------------------------------------------------------------ hunks

  lemma ParsePrintedHunk(h: Hunk, rest: seq<string>, hasHeader: bool)
    requires PrintedHunk(h) && TrueEnd(rest, hasHeader)
    ensures ParseHunk(HunkLines(h) + rest, hasHeader) == Ok((h, rest))
  {
    ScanPrintedBody(h, rest, HunkState(hasHeader, h.oldLines, h.newLines, 0, 0));
    ParsePrintedHeader(h);
    HunkLinesCons(h, rest);
    FinishHunk(HunkLines(h) + rest, BodyLines(h.lines) + rest, hasHeader, h, h, rest);
  }

  lemma HunkLinesCons(h: Hunk, rest: seq<string>)
    ensures var all := HunkLines(h) + rest;
      all != [] && all[0] == HunkHeader(h) && all[1..] == BodyLines(h.lines) + rest
  {
    FirstAndRest(HunkHeader(h), BodyLines(h.lines), rest);
  }

  lemma FirstAndRest<T>(x: T, a: seq<T>, b: seq<T>)
    ensures ([x] + a + b)[0] == x && ([x] + a + b)[1..] == a + b
  {
  }

  lemma ScanPrintedBody(h: Hunk, rest: seq<string>, st: HunkState)
    requires PrintedHunk(h) && TrueEnd(rest, st.hasHeader)
    requires st.oldCount == st.newCount == 0 && st.declOld == h.oldLines && st.declNew == h.newLines
    ensures ScanBody(BodyLines(h.lines) + rest, st, [])
         == Ok(Body(h.lines, HunkState(st.hasHeader, st.declOld, st.declNew, h.oldLines, h.newLines), rest))
    ensures |rest| <= |BodyLines(h.lines) + rest|
  {
    ScanBodyLines(h.lines, rest, st, []);
    assert [] + h.lines == h.lines;
  }

  /** `h` is read when its header says `g` and its body scans. */
  lemma FinishHunk(all: seq<string>, body: seq<string>, hasHeader: bool, g: Hunk, h: Hunk, rest: seq<string>)
    requires all != [] && all[1..] == body && |rest| <= |body|
    requires h.oldLines >= 0 && h.newLines >= 0 && h.oldLines + h.newLines > 0
    requires g.oldStart == h.oldStart && g.newStart == h.newStart
    requires ParseHunkHeader(TrimCR(all[0])) == Some(((g.oldStart, g.oldLines), (g.newStart, g.newLines)))
    requires ScanBody(body, HunkState(hasHeader, g.oldLines, g.newLines, 0, 0), [])
          == Ok(Body(h.lines, HunkState(hasHeader, g.oldLines, g.newLines, h.oldLines, h.newLines), rest))
    ensures ParseHunk(all, hasHeader) == Ok((h, rest))
  {
  }

  lemma ClassifyHunk(h: Hunk)
    requires PrintedHunk(h)
    ensures Classify(TrimCR(HunkHeader(h))) == At(true)
  {
    ParsePrintedHeader(h);
    ClassifyAt(HunkHeader(h));
  }

  lemma ClassifyAt(line: string)
    requires "@@ " <= line
    ensures Classify(line) == At(true)
  {
    DiffersAt(line, "diff --git ", 0);
    HasPrefixIs(line, "@@");
    HasPrefixIs(line, "@@ ");
  }

  lemma {:induction false} MetaHunks(hs: seq<Hunk>, rest: seq<string>, c: FileChange)
    requires PrintedHunks(hs)
    requires TrueEnd(rest, c.hasHeader)
    ensures Meta(HunksLines(hs) + rest, c, true, true) == Meta(rest, c.(hunks := c.hunks + hs), true, true)
  {
    if hs == [] {
      assert HunksLines(hs) + rest == rest && c.hunks + hs == c.hunks;
    } else {
      var after, c1 := HunksLines(hs[1..]) + rest, c.(hunks := c.hunks + [hs[0]]);
      HunksLinesCons(hs, rest);
      assert Meta(HunksLines(hs) + rest, c, true, true) == Meta(after, c1, true, true) by {
        HunksEndTruly(hs[1..], rest, c.hasHeader);
        MetaHunk(hs[0], after, c);
      }
      MetaHunks(hs[1..], rest, c1);
      Shift(c.hunks, hs);
    }
  }

  lemma HunksLinesCons(hs: seq<Hunk>, rest: seq<string>)
    requires hs != []
    ensures HunksLines(hs) + rest == HunkLines(hs[0]) + (HunksLines(hs[1..]) + rest)
  {
  }

  lemma MetaHunk(h: Hunk, after: seq<string>, c: FileChange)
    requires PrintedHunk(h) && TrueEnd(after, c.hasHeader)
    ensures Meta(HunkLines(h) + after, c, true, true) == Meta(after, c.(hunks := c.hunks + [h]), true, true)
  {
    assert (HunkLines(h) + after)[0] == HunkHeader(h);
    ClassifyHunk(h);
    ParsePrintedHunk(h, after, c.hasHeader);
    MetaHunkLine(HunkLines(h) + after, c, h, after);
  }

  lemma MetaHunkLine(all: seq<string>, c: FileChange, h: Hunk, after: seq<string>)
    requires all != [] && Classify(TrimCR(all[0])) == At(true)
    requires ParseHunk(all, c.hasHeader) == Ok((h, after))
    ensures Meta(all, c, true, true) == Meta(after, c.(hunks := c.hunks + [h]), true, true)
  {
  }

  lemma HunksEndTruly(hs: seq<Hunk>, rest: seq<string>, hasHeader: bool)
    requires PrintedHunks(hs) && TrueEnd(rest, hasHeader)
    ensures TrueEnd(HunksLines(hs) + rest, hasHeader)
  {
    if hs == [] {
      assert HunksLines(hs) + rest == rest;
    } else {
      assert (HunksLines(hs) + rest)[0] == HunkHeader(hs[0]);
      ParsePrintedHeader(hs[0]);
    }
  }

  // ------------------------------------------- counts that are not exact

  lemma NoVersionLine(line: string)
    requires line != "" && !IsDigit(line[0])
    ensures !IsVersionLine(line)
  {
  }

  lemma NoSignature(rest: seq<string>)
    requires rest != [] ==> TrimCR(rest[0]) != "" && !IsDigit(TrimCR(rest[0])[0])
    ensures !SignatureAt(rest)
  {
    if rest != [] {
      NoVersionLine(TrimCR(rest[0]));
    }
  }

  lemma NoSignatureInside(more: seq<HunkLine>, rest: seq<string>)
    requires PrintedLines(more) && TrueEnd(rest, true)
    ensures !SignatureAt(BodyLines(more) + rest)
  {
    if more == [] {
      assert BodyLines(more) + rest == rest;
    } else {
      assert (BodyLines(more) + rest)[0] == BodyLine(more[0]);
      assert BodyLine(more[0])[0] == more[0].prefix;
    }
    NoSignature(BodyLines(more) + rest);
  }

  /** After "diff --git ", no body line ends the hunk even when the declared counts are wrong. */
  lemma NoBodyLineEndsAfterGit(l: HunkLine, more: seq<HunkLine>, rest: seq<string>, st: HunkState)
    requires PrintedLine(l) && PrintedLines(more) && TrueEnd(rest, true) && st.hasHeader
    ensures !HunkEnds([BodyLine(l)] + (BodyLines(more) + rest), st)
    ensures TrimCR(BodyLine(l)) != "" && TrimCR(BodyLine(l))[0] == l.prefix
  {
    var line := TrimCR(BodyLine(l));
    NoSignatureInside(more, rest);
    assert BodyLine(l)[0] == l.prefix;
    assert line != "" && line[0] == l.prefix;
    FirstChar(line, "@@");
    FirstChar(line, "diff --git ");
    assert ([BodyLine(l)] + (BodyLines(more) + rest))[1..] == BodyLines(more) + rest;
  }

  lemma ScanGitLine(l: HunkLine, more: seq<HunkLine>, rest: seq<string>, st: HunkState, read: seq<HunkLine>)
    requires PrintedLine(l) && PrintedLines(more) && TrueEnd(rest, true) && st.hasHeader
    ensures ScanBody([BodyLine(l)] + (BodyLines(more) + rest), st, read)
         == ScanBody(BodyLines(more) + rest, st.Count(Olds(l), News(l)), read + [l])
  {
    NoBodyLineEndsAfterGit(l, more, rest, st);
    ScanPastLine(l, BodyLines(more) + rest, st, read);
  }

  lemma {:induction false} ScanAfterGit(ls: seq<HunkLine>, rest: seq<string>, st: HunkState, read: seq<HunkLine>)
    requires PrintedLines(ls) && TrueEnd(rest, true) && st.hasHeader
    ensures ScanBody(BodyLines(ls) + rest, st, read) == Ok(Body(read + ls, st.Count(OldCount(ls), NewCount(ls)), rest))
  {
    if ls == [] {
      assert BodyLines(ls) + rest == rest && read + ls == read;
      GitHunkEnds(rest, st, read);
    } else {
      var l, more := ls[0], ls[1..];
      var st1 := st.Count(Olds(l), News(l));
      BodyLinesCons(ls, rest);
      ScanGitLine(l, more, rest, st, read);
      ScanAfterGit(more, rest, st1, read + [l]);
      Shift(read, ls);
      CountAdds(ls, st);
    }
  }

  lemma CountAdds(ls: seq<HunkLine>, st: HunkState)
    requires ls != []
    ensures st.Count(Olds(ls[0]), News(ls[0])).Count(OldCount(ls[1..]), NewCount(ls[1..]))
         == st.Count(OldCount(ls), NewCount(ls))
  {
  }

  lemma GitHunkEnds(rest: seq<string>, st: HunkState, read: seq<HunkLine>)
    requires TrueEnd(rest, true)
    ensures ScanBody(rest, st, read) == Ok(Body(read, st, rest))
  {
    assert HunkEnds(rest, st);
  }

  /** In a "diff --git " change the declared counts do not matter: whatever they are, the hunk
      read has the counts of its body. */
  lemma RecountsAfterGit(h: Hunk, declOld: int, declNew: int, rest: seq<string>)
    requires PrintedHunk(h) && IsInt(declOld) && IsInt(declNew) && TrueEnd(rest, true)
    ensures ParseHunk(HunkLines(h.(oldLines := declOld, newLines := declNew)) + rest, true) == Ok((h, rest))
  {
    var g := h.(oldLines := declOld, newLines := declNew);
    HunkLinesCons(g, rest);
    ReadHeader(g);
    ScanGitBody(h, rest, HunkState(true, declOld, declNew, 0, 0));
    FinishHunk(HunkLines(g) + rest, BodyLines(h.lines) + rest, true, g, h, rest);
  }

  lemma ScanGitBody(h: Hunk, rest: seq<string>, st: HunkState)
    requires PrintedHunk(h) && TrueEnd(rest, true) && st.hasHeader && st.oldCount == st.newCount == 0
    ensures ScanBody(BodyLines(h.lines) + rest, st, [])
         == Ok(Body(h.lines, HunkState(true, st.declOld, st.declNew, h.oldLines, h.newLines), rest))
    ensures |rest| <= |BodyLines(h.lines) + rest|
  {
    ScanAfterGit(h.lines, rest, st, []);
    assert [] + h.lines == h.lines;
  }

  // -------------------------------------------------------- lines with a tag

  lemma DiffersAt(s: string, p: string, i: nat)
    requires i < |s| && i < |p| && s[i] != p[i]
    ensures !HasPrefix(s, p)
  {
    HasPrefixIs(s, p);
  }

  lemma TrimTagged(tag: string, p: string)
    requires CleanPath(p) && tag != "" && tag[|tag| - 1] == ' '
    ensures TrimCR(tag + p) == tag + p && (tag + p)[|tag|..] == p && HasPrefix(tag + p, tag)
  {
    HasOwnPrefix(tag, p);
  }

  lemma HasOwnPrefix(tag: string, p: string)
    ensures HasPrefix(tag + p, tag)
  {
    HasPrefixIs(tag + p, tag);
  }

  lemma ClassifyMarkers(p: string)
    requires CleanPath(p)
    ensures Classify(TrimCR("--- " + p)) == Minus(p)
    ensures Classify(TrimCR("+++ " + p)) == Plus(p)
  {
    TrimTagged("--- ", p);
    TrimTagged("+++ ", p);
    DiffersAt("--- " + p, "diff --git ", 0);
    DiffersAt("--- " + p, "@@", 0);
    DiffersAt("+++ " + p, "diff --git ", 0);
    DiffersAt("+++ " + p, "@@", 0);
    DiffersAt("+++ " + p, "--- ", 0);
  }

  /** None of the tags before "new file mode ". */
  predicate Plain(line: string) {
    line != "" && line[0] != 'd' && line[0] != '@' && line[0] != '-' && line[0] != '+'
  }

  lemma PlainTags(line: string)
    requires Plain(line)
    ensures !HasPrefix(line, "diff --git ") && !HasPrefix(line, "@@")
    ensures !HasPrefix(line, "--- ") && !HasPrefix(line, "+++ ") && !HasPrefix(line, "deleted file mode ")
  {
  }

  lemma ClassifyNewFile(mode: string)
    requires IsMode(mode)
    ensures Classify(TrimCR("new file mode " + mode)) == NewFile(mode)
  {
    TrimTagged("new file mode ", mode);
    PlainTags("new file mode " + mode);
  }

  lemma ClassifyOldMode(mode: string)
    requires IsMode(mode)
    ensures Classify(TrimCR("old mode " + mode)) == OldMode(mode)
  {
    TrimTagged("old mode ", mode);
    PlainTags("old mode " + mode);
    DiffersAt("old mode " + mode, "new file mode ", 0);
  }

  lemma ClassifyNewMode(mode: string)
    requires IsMode(mode)
    ensures Classify(TrimCR("new mode " + mode)) == NewMode(mode)
  {
    TrimTagged("new mode ", mode);
    PlainTags("new mode " + mode);
    DiffersAt("new mode " + mode, "new file mode ", 4);
    DiffersAt("new mode " + mode, "old mode ", 0);
  }

  lemma ClassifyDeleted(mode: string)
    requires IsMode(mode)
    ensures Classify(TrimCR("deleted file mode " + mode)) == DeletedFile(mode)
  {
    var line := "deleted file mode " + mode;
    TrimTagged("deleted file mode ", mode);
    DiffersAt(line, "diff --git ", 1);
    DiffersAt(line, "@@", 0);
    DiffersAt(line, "--- ", 0);
    DiffersAt(line, "+++ ", 0);
    DiffersAt(line, "new file mode ", 0);
  }

  lemma RenameTags(line: string)
    requires line != "" && line[0] == 'r'
    ensures !HasPrefix(line, "new file mode ") && !HasPrefix(line, "old mode ") && !HasPrefix(line, "new mode ")
  {
  }

  lemma ClassifyRename(p: string)
    requires CleanPath(p)
    ensures Classify(TrimCR("rename from " + p)) == RenameFrom(p)
    ensures Classify(TrimCR("rename to " + p)) == RenameTo(p)
  {
    TrimTagged("rename from ", p);
    TrimTagged("rename to ", p);
    PlainTags("rename from " + p);
    PlainTags("rename to " + p);
    RenameTags("rename from " + p);
    RenameTags("rename to " + p);
    DiffersAt("rename to " + p, "rename from ", 7);
  }

  lemma ClassifyBinary(c: FileChange)
    ensures Classify(TrimCR(BinaryLine(c))) == BinaryFiles
  {
    var line := BinaryLine(c);
    var head := "Binary files a/" + SourcePath(c) + " and b/" + c.path;
    assert line == head + " differ";
    assert HasAt(line, |head|, " differ");
    IndexIsFirst(line, " differ");
    assert line[0] == 'B' && line[|line| - 1] == 'r' && "Binary files " <= line;
    HasPrefixIs(line, "Binary files ");
    PlainTags(line);
    DiffersAt(line, "new file mode ", 0);
    DiffersAt(line, "old mode ", 0);
    DiffersAt(line, "new mode ", 0);
    DiffersAt(line, "rename from ", 0);
    DiffersAt(line, "rename to ", 0);
  }

  // -------------------------------------------------------- the git header

  lemma QuotesKept(tag: string, p: string)
    requires |tag| == 2 && tag[0] != '"' && NoQuoteAtEnd(p)
    ensures TrimQuotes(tag + p) == tag + p && TrimPrefix(tag + p, tag) == p
  {
    assert (tag + p)[|tag + p| - 1] == p[|p| - 1];
    assert (tag + p)[2..] == p;
  }

  lemma LastB(x: string, p: string)
    requires Index(p, " b/") < 0
    ensures LastIndex(x + " b/" + p, " b/") == |x|
  {
    var s := x + " b/" + p;
    LastIndexIsLast(s, " b/", |s|);
    IndexIsFirst(p, " b/");
    assert HasAt(s, |x|, " b/");
    forall j | |x| < j <= |s| ensures !HasAt(s, j, " b/") {
      if j + 3 <= |s| {
        assert s[j..j + 3][0] == s[j];
        if j >= |x| + 3 {
          assert !HasAt(p, j - |x| - 3, " b/");
          assert s[j..j + 3] == p[j - |x| - 3..j - |x|];
        } else {
          assert s[j] == " b/"[j - |x|];
        }
      }
    }
  }

  lemma ExtractPrinted(c: FileChange)
    requires NoQuoteAtEnd(SourcePath(c)) && NoQuoteAtEnd(c.path) && Index(c.path, " b/") < 0 && CleanPath(c.path)
    ensures "diff --git " <= GitLine(c) && TrimCR(GitLine(c)) == GitLine(c)
    ensures Classify(TrimCR(GitLine(c))) == DiffGit && ExtractPaths(GitLine(c)) == (SourcePath(c), c.path)
  {
    HasPrefixIs(GitLine(c), "diff --git ");
    var a, b := "a/" + SourcePath(c), "b/" + c.path;
    GitLineParts(c);
    LastB(a, c.path);
    QuotesKept("a/", SourcePath(c));
    QuotesKept("b/", c.path);
    ExtractParts(GitLine(c), a + " b/" + c.path, a, b);
  }

  lemma GitLineParts(c: FileChange)
    requires c.path != "" && CleanPath(c.path)
    ensures var a, rest := "a/" + SourcePath(c), "a/" + SourcePath(c) + " b/" + c.path;
      && GitLine(c) == "diff --git " + rest && rest[..|a|] == a && rest[|a| + 1..] == "b/" + c.path
      && "diff --git " <= GitLine(c) && TrimCR(GitLine(c)) == GitLine(c)
  {
  }

  lemma ExtractParts(line: string, rest: string, a: string, b: string)
    requires line == "diff --git " + rest && LastIndex(rest, " b/") == |a|
    requires |a| + 1 <= |rest| && rest[..|a|] == a && rest[|a| + 1..] == b
    ensures ExtractPaths(line) == (TrimPrefix(TrimQuotes(a), "a/"), TrimPrefix(TrimQuotes(b), "b/"))
  {
    assert TrimPrefix(line, "diff --git ") == rest;
  }

  // --------------------------------------------------------- a file change

  /** One line taken from a "new file", "deleted file", "rename" or marker group. */
  lemma MetaNewFile(line: string, mode: string, rest: seq<string>, c: FileChange)
    requires Classify(TrimCR(line)) == NewFile(mode) && IsMode(mode)
    ensures Meta([line] + rest, c, false, false)
         == Meta(rest, c.(op := Create, createMode := ModeBits(mode)), false, false)
  {
    FirstAndRest(line, [], rest);
  }

  lemma MetaDeletedFile(line: string, mode: string, rest: seq<string>, c: FileChange)
    requires Classify(TrimCR(line)) == DeletedFile(mode) && IsMode(mode)
    ensures Meta([line] + rest, c, false, false) == Meta(rest, c.(op := Delete), false, false)
  {
    FirstAndRest(line, [], rest);
  }

  lemma MetaRenameFrom(line: string, path: string, p: string, rest: seq<string>, c: FileChange)
    requires Classify(TrimCR(line)) == RenameFrom(path) && StripPrefix(path) == p
    ensures Meta([line] + rest, c, false, false)
         == Meta(rest, c.(op := Rename, oldPath := p, originalAPath := "a/" + p), false, false)
  {
    FirstAndRest(line, [], rest);
  }

  lemma MetaRenameTo(line: string, path: string, p: string, rest: seq<string>, c: FileChange)
    requires Classify(TrimCR(line)) == RenameTo(path) && StripPrefix(path) == p
    ensures Meta([line] + rest, c, false, false) == Meta(rest, c.(path := p, originalBPath := "b/" + p), false, false)
  {
    FirstAndRest(line, [], rest);
  }

  lemma MetaMinus(line: string, p: string, rest: seq<string>, c: FileChange)
    requires Classify(TrimCR(line)) == Minus(p)
    ensures Meta([line] + rest, c, false, false) == Meta(rest, TakeMinus(c, p), true, false)
  {
    FirstAndRest(line, [], rest);
  }

  lemma MetaPlus(line: string, p: string, rest: seq<string>, c: FileChange)
    requires Classify(TrimCR(line)) == Plus(p)
    ensures Meta([line] + rest, c, true, false) == Meta(rest, TakePlus(c, p), true, true)
  {
    FirstAndRest(line, [], rest);
  }

  lemma MetaBinary(line: string, rest: seq<string>, c: FileChange, marked: bool)
    requires Classify(TrimCR(line)) == BinaryFiles
    ensures Meta([line] + rest, c, marked, marked) == Ok((c.(isBinary := true), rest))
  {
    FirstAndRest(line, [], rest);
  }

  lemma MetaModeLines(from: string, to: string, rest: seq<string>, c: FileChange)
    requires IsMode(from) && IsMode(to) && from != to
    ensures Meta(["old mode " + from, "new mode " + to] + rest, c, false, false)
         == Meta(rest, c.(newMode := ModeBits(to)), false, false)
  {
    var was, now := "old mode " + from, "new mode " + to;
    ClassifyOldMode(from);
    ClassifyNewMode(to);
    MetaModePair([was, now] + rest, was, now, from, to, rest, c);
  }

  lemma MetaModePair(all: seq<string>, was: string, now: string, from: string, to: string, rest: seq<string>,
                     c: FileChange)
    requires all == [was, now] + rest && IsMode(from) && IsMode(to) && from != to
    requires Classify(TrimCR(was)) == OldMode(from) && Classify(TrimCR(now)) == NewMode(to)
    ensures Meta(all, c, false, false) == Meta(rest, c.(newMode := ModeBits(to)), false, false)
  {
    assert all[0] == was && all[1] == now && all[2..] == rest;
  }

  lemma MetaModes(c: FileChange, rest: seq<string>, d: FileChange)
    requires c.newMode == 0 || c.newMode == PLAIN || c.newMode == EXECUTABLE
    requires d.newMode == 0
    ensures Meta(ModeLines(c) + rest, d, false, false) == Meta(rest, d.(newMode := c.newMode), false, false)
  {
    if c.newMode == 0 {
      assert ModeLines(c) + rest == rest && d.(newMode := c.newMode) == d;
    } else {
      var was := if c.newMode == EXECUTABLE then PLAIN else EXECUTABLE;
      MetaModeLines(ModeName(was), ModeName(c.newMode), rest, d);
    }
  }

  function Renamed(c: FileChange, d: FileChange): FileChange {
    if c.op == Rename
    then d.(op := Rename, oldPath := c.oldPath, path := c.path,
            originalAPath := "a/" + c.oldPath, originalBPath := "b/" + c.path)
    else d
  }

  lemma MetaRenames(c: FileChange, rest: seq<string>, d: FileChange)
    requires CleanPath(c.oldPath) && CleanPath(c.path)
    requires c.op == Rename ==> StripPrefix(c.oldPath) == c.oldPath && StripPrefix(c.path) == c.path
    ensures Meta(RenameLines(c) + rest, d, false, false) == Meta(rest, Renamed(c, d), false, false)
  {
    if c.op == Rename {
      var from, to := "rename from " + c.oldPath, "rename to " + c.path;
      var e := d.(op := Rename, oldPath := c.oldPath, originalAPath := "a/" + c.oldPath);
      assert RenameLines(c) + rest == [from] + ([to] + rest);
      ClassifyRename(c.oldPath);
      ClassifyRename(c.path);
      MetaRenameFrom(from, c.oldPath, c.oldPath, [to] + rest, d);
      MetaRenameTo(to, c.path, c.path, rest, e);
      assert e.(path := c.path, originalBPath := "b/" + c.path) == Renamed(c, d);
    } else {
      assert RenameLines(c) + rest == rest;
    }
  }

  function Created(c: FileChange, d: FileChange): FileChange {
    if c.op == Create then d.(op := Create, createMode := c.createMode) else d
  }

  lemma MetaCreates(c: FileChange, rest: seq<string>, d: FileChange)
    requires c.op == Create ==> c.createMode == PLAIN || c.createMode == EXECUTABLE
    ensures Meta(CreateLines(c) + rest, d, false, false) == Meta(rest, Created(c, d), false, false)
  {
    if c.op == Create {
      var line := "new file mode " + ModeName(c.createMode);
      assert CreateLines(c) + rest == [line] + rest;
      ClassifyNewFile(ModeName(c.createMode));
      MetaNewFile(line, ModeName(c.createMode), rest, d);
    } else {
      assert CreateLines(c) + rest == rest;
    }
  }

  function Deleted(c: FileChange, d: FileChange): FileChange {
    if c.op == Delete then d.(op := Delete) else d
  }

  lemma MetaDeletes(c: FileChange, rest: seq<string>, d: FileChange)
    ensures Meta(DeleteLines(c) + rest, d, false, false) == Meta(rest, Deleted(c, d), false, false)
  {
    if c.op == Delete {
      var line := "deleted file mode " + ModeName(PLAIN);
      assert DeleteLines(c) + rest == [line] + rest;
      ClassifyDeleted(ModeName(PLAIN));
      MetaDeletedFile(line, ModeName(PLAIN), rest, d);
    } else {
      assert DeleteLines(c) + rest == rest;
    }
  }

  function Named(c: FileChange): FileChange {
    Headed(SourcePath(c), c.path)
  }

  function Topped(c: FileChange): FileChange {
    Deleted(c, Created(c, Renamed(c, Named(c).(newMode := c.newMode))))
  }

  lemma MetaTop(c: FileChange, rest: seq<string>)
    requires Printed(c) && c.hasHeader
    ensures Meta(ModeLines(c) + (RenameLines(c) + (CreateLines(c) + (DeleteLines(c) + rest))), Named(c), false, false)
         == Meta(rest, Topped(c), false, false)
  {
    var d1 := Named(c).(newMode := c.newMode);
    MetaModes(c, RenameLines(c) + (CreateLines(c) + (DeleteLines(c) + rest)), Named(c));
    MetaRenames(c, CreateLines(c) + (DeleteLines(c) + rest), d1);
    MetaCreates(c, DeleteLines(c) + rest, Renamed(c, d1));
    MetaDeletes(c, rest, Created(c, Renamed(c, d1)));
  }

  function Marked(c: FileChange, d: FileChange): FileChange {
    if HasMarkers(c) then TakePlus(TakeMinus(d, c.originalAPath), c.originalBPath) else d
  }

  lemma MetaMarkers(c: FileChange, rest: seq<string>, d: FileChange)
    requires CleanPath(c.originalAPath) && CleanPath(c.originalBPath)
    requires HasMarkers(c) ==> ShownMinus(c) == c.originalAPath && ShownPlus(c) == c.originalBPath
    ensures Meta(MarkerLines(c) + rest, d, false, false) == Meta(rest, Marked(c, d), HasMarkers(c), HasMarkers(c))
  {
    if HasMarkers(c) {
      var minus, plus := "--- " + c.originalAPath, "+++ " + c.originalBPath;
      assert MarkerLines(c) + rest == [minus] + ([plus] + rest);
      ClassifyMarkers(c.originalAPath);
      ClassifyMarkers(c.originalBPath);
      MetaMinus(minus, c.originalAPath, [plus] + rest, d);
      MetaPlus(plus, c.originalBPath, rest, TakeMinus(d, c.originalAPath));
    } else {
      assert MarkerLines(c) + rest == rest;
    }
  }

  /** What comes after a change ends it. */
  predicate Boundary(c: FileChange, rest: seq<string>) {
    || rest == [] || c.isBinary || "diff --git " <= TrimCR(rest[0])
    || (!c.hasHeader && Classify(TrimCR(rest[0])).Minus? && (c.hunks == [] || HeaderPairAt(rest)))
  }

  lemma MetaContent(c: FileChange, rest: seq<string>, d: FileChange)
    requires PrintedHunks(c.hunks) && (c.isBinary ==> c.hunks == []) && Boundary(c, rest)
    requires d.hunks == [] && d.hasHeader == c.hasHeader && !d.isBinary && (c.hasHeader || HasMarkers(c))
    ensures Meta(ContentLines(c) + rest, d, HasMarkers(c), HasMarkers(c))
         == Ok((d.(hunks := c.hunks, isBinary := c.isBinary), rest))
  {
    if c.isBinary {
      assert ContentLines(c) + rest == [BinaryLine(c)] + rest;
      ClassifyBinary(c);
      MetaBinary(BinaryLine(c), rest, d, HasMarkers(c));
    } else if c.hunks == [] {
      assert ContentLines(c) + rest == rest;
      assert d.(hunks := c.hunks, isBinary := c.isBinary) == d;
      MetaEnds(c, rest, d);
    } else {
      MetaSomeHunks(c, rest, d);
    }
  }

  lemma MetaSomeHunks(c: FileChange, rest: seq<string>, d: FileChange)
    requires PrintedHunks(c.hunks) && !c.isBinary && c.hunks != [] && Boundary(c, rest)
    requires d.hunks == [] && d.hasHeader == c.hasHeader && !d.isBinary
    ensures Meta(HunksLines(c.hunks) + rest, d, true, true) == Ok((d.(hunks := c.hunks, isBinary := c.isBinary), rest))
  {
    var e := d.(hunks := d.hunks + c.hunks);
    assert d.hunks + c.hunks == c.hunks;
    assert e == d.(hunks := c.hunks, isBinary := c.isBinary);
    BoundaryIsTrueEnd(c, rest);
    MetaHunks(c.hunks, rest, d);
    MetaEnds(c, rest, e);
  }

  lemma BoundaryIsTrueEnd(c: FileChange, rest: seq<string>)
    requires Boundary(c, rest) && !c.isBinary && c.hunks != []
    ensures TrueEnd(rest, c.hasHeader)
  {
  }

  lemma MetaEnds(c: FileChange, rest: seq<string>, d: FileChange)
    requires Boundary(c, rest) && !c.isBinary && d.hasHeader == c.hasHeader && (c.hasHeader || HasMarkers(c))
    ensures Meta(rest, d, HasMarkers(c), HasMarkers(c)) == Ok((d, rest))
  {
    if rest != [] {
      HasPrefixIs(TrimCR(rest[0]), "diff --git ");
    }
  }

  lemma AllFieldsKept(c: FileChange)
    requires Printed(c)
    ensures Marked(c, if c.hasHeader then Topped(c) else NO_CHANGE).(hunks := c.hunks, isBinary := c.isBinary) == c
  {
  }

  /** A printed change is read back whole, and nothing after it is touched. */
  lemma ParsePrintedChange(c: FileChange, rest: seq<string>)
    requires Printed(c) && Boundary(c, rest)
    ensures var all := ChangeLines(c) + rest;
      && all != [] && (Classify(TrimCR(all[0])).DiffGit? || Classify(TrimCR(all[0])).Minus?)
      && ParseFileChange(all) == Ok((c, rest))
  {
    var content := ContentLines(c) + rest;
    var d := if c.hasHeader then Topped(c) else NO_CHANGE;
    AllFieldsKept(c);
    MetaMarkers(c, content, d);
    MetaContent(c, rest, Marked(c, d));
    if c.hasHeader {
      ParseWithHeader(c, rest);
    } else {
      ParseWithoutHeader(c, rest);
    }
  }

  lemma ParseWithHeader(c: FileChange, rest: seq<string>)
    requires Printed(c) && c.hasHeader
    requires Meta(MarkerLines(c) + (ContentLines(c) + rest), Topped(c), false, false) == Ok((c, rest))
    ensures var all := ChangeLines(c) + rest;
      all != [] && Classify(TrimCR(all[0])).DiffGit? && ParseFileChange(all) == Ok((c, rest))
  {
    MetaTop(c, MarkerLines(c) + (ContentLines(c) + rest));
    ExtractPrinted(c);
    TopThenRest(c, rest);
  }

  /** The lines after a "diff --git " line, up to and including what follows the change. */
  function AfterGit(c: FileChange, rest: seq<string>): seq<string> {
    ModeLines(c) + (RenameLines(c) + (CreateLines(c) + (DeleteLines(c) + (MarkerLines(c) + (ContentLines(c) + rest)))))
  }

  lemma TopThenRest(c: FileChange, rest: seq<string>)
    requires c.hasHeader
    ensures ChangeLines(c) + rest == [GitLine(c)] + AfterGit(c, rest)
  {
    var tail := MarkerLines(c) + (ContentLines(c) + rest);
    var kind := CreateLines(c) + DeleteLines(c);
    Assoc(TopLines(c), MarkerLines(c) + ContentLines(c), rest);
    Assoc(MarkerLines(c), ContentLines(c), rest);
    Assoc([GitLine(c)], ModeLines(c) + (RenameLines(c) + kind), tail);
    Assoc(ModeLines(c), RenameLines(c) + kind, tail);
    Assoc(RenameLines(c), kind, tail);
    Assoc(CreateLines(c), DeleteLines(c), tail);
  }

  lemma ParseWithoutHeader(c: FileChange, rest: seq<string>)
    requires Printed(c) && !c.hasHeader
    requires Meta(MarkerLines(c) + (ContentLines(c) + rest), NO_CHANGE, false, false) == Ok((c, rest))
    ensures var all := ChangeLines(c) + rest;
      all != [] && Classify(TrimCR(all[0])).Minus? && ParseFileChange(all) == Ok((c, rest))
  {
    MarkersThenRest(c, rest);
    ClassifyMarkers(c.originalAPath);
  }

  lemma MarkersThenRest(c: FileChange, rest: seq<string>)
    requires !c.hasHeader && HasMarkers(c) && ShownMinus(c) == c.originalAPath
    ensures var all := ChangeLines(c) + rest;
      all == MarkerLines(c) + (ContentLines(c) + rest) && all != [] && all[0] == "--- " + c.originalAPath
  {
  }

  // -------------------------------------------------------- all the changes

  lemma RenderedBoundary(c: FileChange, cs: seq<FileChange>)
    requires cs != [] ==> Printed(cs[0]) && MayFollow(c, cs[0])
    ensures Boundary(c, RenderLines(cs))
  {
    if cs != [] {
      var d, rest := cs[0], RenderLines(cs[1..]);
      if d.hasHeader {
        ExtractPrinted(d);
        assert RenderLines(cs)[0] == GitLine(d);
      } else {
        MarkersThenRest(d, rest);
        ClassifyMarkers(d.originalAPath);
        if d.hunks != [] {
          RenderedPair(d, rest);
        }
      }
    }
  }

  lemma RenderedPair(d: FileChange, rest: seq<string>)
    requires Printed(d) && !d.hasHeader && d.hunks != []
    ensures HeaderPairAt(ChangeLines(d) + rest)
  {
    var all := ChangeLines(d) + rest;
    var content := ContentLines(d) + rest;
    MarkersThenRest(d, rest);
    HunksLinesCons(d.hunks, rest);
    HunkLinesCons(d.hunks[0], HunksLines(d.hunks[1..]) + rest);
    assert content[0] == HunkHeader(d.hunks[0]);
    assert all == ["--- " + d.originalAPath, "+++ " + d.originalBPath] + content;
    MarkedPair(d.originalAPath, d.originalBPath, d.hunks[0], all);
  }

  lemma MarkedPair(a: string, b: string, h: Hunk, all: seq<string>)
    requires CleanPath(a) && CleanPath(b) && PrintedHunk(h)
    requires |all| > 2 && all[0] == "--- " + a && all[1] == "+++ " + b && all[2] == HunkHeader(h)
    ensures HeaderPairAt(all)
  {
    ParsePrintedHeader(h);
    TrimTagged("--- ", a);
    TrimTagged("+++ ", b);
  }

  lemma {:induction false} ReadRendered(cs: seq<FileChange>, read: seq<FileChange>)
    requires PrintedForm(cs)
    ensures Changes(RenderLines(cs), read) == Ok(read + cs)
  {
    if cs == [] {
      assert read + cs == read;
    } else {
      var rest := RenderLines(cs[1..]);
      assert cs[1..] != [] ==> cs[1..][0] == cs[1];
      RenderedBoundary(cs[0], cs[1..]);
      ParsePrintedChange(cs[0], rest);
      ReadRendered(cs[1..], read + [cs[0]]);
      Shift(read, cs);
    }
  }

  // ----------------------------------------------------------- as one text

  lemma BodyLineIsLine(l: HunkLine)
    requires PrintedLine(l)
    ensures OneLine(BodyLine(l))
  {
    Joined(if l.prefix == '\\' then "\\ " else [l.prefix], l.content);
  }

  lemma {:induction false} BodyIsLines(ls: seq<HunkLine>)
    requires PrintedLines(ls)
    ensures AllOneLine(BodyLines(ls))
  {
    if ls != [] {
      BodyLineIsLine(ls[0]);
      BodyIsLines(ls[1..]);
      Both([BodyLine(ls[0])], BodyLines(ls[1..]));
    }
  }

  lemma {:induction false} HunksAreLines(hs: seq<Hunk>)
    requires PrintedHunks(hs)
    ensures AllOneLine(HunksLines(hs))
  {
    if hs != [] {
      HunksAreLines(hs[1..]);
      BodyIsLines(hs[0].lines);
      HeaderIsLine(hs[0]);
    }
  }

  lemma Joined(a: string, b: string)
    requires OneLine(a) && OneLine(b)
    ensures OneLine(a + b)
  {
  }

  lemma TokenIsLine(token: string)
    requires IsToken(token)
    ensures OneLine(token)
  {
    assert IsSpace('\n');
  }

  lemma HeaderIsLine(h: Hunk)
    ensures OneLine(HunkHeader(h))
  {
    var a, b := "-" + Range(h.oldStart, h.oldLines), "+" + Range(h.newStart, h.newLines);
    RangeIsToken("-", h.oldStart, h.oldLines);
    RangeIsToken("+", h.newStart, h.newLines);
    TokenIsLine(a);
    TokenIsLine(b);
    HeaderOfTokens(a, b);
  }

  lemma HeaderOfTokens(a: string, b: string)
    requires OneLine(a) && OneLine(b)
    ensures OneLine("@@" + (" " + a + " " + b + " ") + "@@")
  {
    Joined(" ", a);
    Joined(" " + a, " ");
    Joined(" " + a + " ", b);
    Joined(" " + a + " " + b, " ");
    Joined("@@", " " + a + " " + b + " ");
    Joined("@@" + (" " + a + " " + b + " "), "@@");
  }

  lemma TopIsLines(c: FileChange)
    requires CleanPath(c.path) && CleanPath(c.oldPath)
    ensures AllOneLine(TopLines(c))
  {
    GitLineIsLine(c);
    KindIsLines(c);
    assert AllOneLine(ModeLines(c));
    Both(RenameLines(c), CreateLines(c) + DeleteLines(c));
    Both(ModeLines(c), RenameLines(c) + (CreateLines(c) + DeleteLines(c)));
    Both([GitLine(c)], ModeLines(c) + (RenameLines(c) + (CreateLines(c) + DeleteLines(c))));
  }

  lemma KindIsLines(c: FileChange)
    requires CleanPath(c.path) && CleanPath(c.oldPath)
    ensures AllOneLine(RenameLines(c)) && AllOneLine(CreateLines(c) + DeleteLines(c))
  {
    assert AllOneLine(CreateLines(c));
    assert AllOneLine(DeleteLines(c));
    Both(CreateLines(c), DeleteLines(c));
  }

  lemma GitLineIsLine(c: FileChange)
    requires CleanPath(c.path) && CleanPath(c.oldPath)
    ensures OneLine(GitLine(c)) && OneLine(BinaryLine(c))
  {
  }

  lemma Both(a: seq<string>, b: seq<string>)
    requires AllOneLine(a) && AllOneLine(b)
    ensures AllOneLine(a + b)
  {
  }

  lemma MarkersAreLines(c: FileChange)
    requires Printed(c)
    ensures AllOneLine(MarkerLines(c))
  {
  }

  lemma ContentIsLines(c: FileChange)
    requires Printed(c)
    ensures AllOneLine(ContentLines(c))
  {
    HunksAreLines(c.hunks);
    GitLineIsLine(c);
  }

  lemma ChangeIsLines(c: FileChange)
    requires Printed(c)
    ensures AllOneLine(ChangeLines(c))
  {
    TopIsLines(c);
    MarkersAreLines(c);
    ContentIsLines(c);
    Both(MarkerLines(c), ContentLines(c));
    Both(TopLines(c), MarkerLines(c) + ContentLines(c));
  }

  lemma {:induction false} RenderIsLines(cs: seq<FileChange>)
    requires PrintedForm(cs)
    ensures AllOneLine(RenderLines(cs))
  {
    if cs != [] {
      ChangeIsLines(cs[0]);
      RenderIsLines(cs[1..]);
    }
  }

  lemma TextOfLines(lines: seq<string>)
    requires AllOneLine(lines)
    ensures TextLines(Unlines(lines)) == lines
  {
    SplitText(lines);
    assert (lines + [""])[..|lines|] == lines;
  }

  /** Parse(Render(cs)) == cs. */
  lemma ParseUndoesRender(cs: seq<FileChange>)
    requires PrintedForm(cs)
    ensures Parse(Unlines(RenderLines(cs))) == if cs == [] then Err(MissingHeader) else Ok(cs)
  {
    RenderIsLines(cs);
    TextOfLines(RenderLines(cs));
    ReadRendered(cs, []);
    assert [] + cs == cs;
  }
}
