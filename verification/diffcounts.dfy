/** What holds of every diff the parser accepts, and when printing one loses nothing. */
module DiffCounts {
  import opened Prelude
  import opened Strings
  import opened PatchTypes
  import opened DiffSyntax
  import opened DiffPrinter
  import opened DiffRoundTrip
  import Endings
  import Hunks

  /** Hunks the applier can rely on. */
  ghost predicate CountedHunks(hs: seq<Hunk>) {
    forall i :: 0 <= i < |hs| ==> CountedHunk(hs[i])
  }

  /** What the parser makes sure of in a file change. */
  ghost predicate Parsed(c: FileChange) {
    CountedHunks(c.hunks) && LegalModes(c) && OneLinePaths(c)
  }

  ghost predicate AllParsed(cs: seq<FileChange>) {
    forall i :: 0 <= i < |cs| ==> Parsed(cs[i])
  }

  predicate IsSuffix(part: seq<string>, whole: seq<string>) {
    |part| <= |whole| && part == whole[|whole| - |part|..]
  }

  lemma SuffixOneLine(part: seq<string>, whole: seq<string>)
    requires IsSuffix(part, whole) && AllOneLine(whole)
    ensures AllOneLine(part)
  {
    var k := |whole| - |part|;
    forall i | 0 <= i < |part| ensures OneLine(part[i]) {
      assert part[i] == whole[k + i];
    }
  }

  lemma SuffixTail(rest: seq<string>, part: seq<string>)
    requires rest != [] && IsSuffix(part, rest[1..])
    ensures IsSuffix(part, rest)
  {
  }

  lemma {:induction false} CountSnoc(ls: seq<HunkLine>, l: HunkLine)
    requires PrintedLines(ls) && PrintedLine(l)
    ensures PrintedLines(ls + [l])
    ensures OldCount(ls + [l]) == OldCount(ls) + Olds(l) && NewCount(ls + [l]) == NewCount(ls) + News(l)
  {
    if ls != [] {
      assert (ls + [l])[1..] == ls[1..] + [l];
      CountSnoc(ls[1..], l);
    } else {
      assert [l][1..] == [] && ls + [l] == [l];
    }
  }

  /** The lines read so far are those counted so far. */
  ghost predicate InCount(st: HunkState, read: seq<HunkLine>) {
    PrintedLines(read) && st.oldCount == OldCount(read) && st.newCount == NewCount(read)
  }

  lemma {:induction false} ScanCounts(rest: seq<string>, st: HunkState, read: seq<HunkLine>)
    requires AllOneLine(rest) && InCount(st, read)
    ensures var r := ScanBody(rest, st, read);
      r.Ok? ==> InCount(r.value.st, r.value.lines) && IsSuffix(r.value.rest, rest)
    decreases |rest|
  {
    if !HunkEnds(rest, st) {
      var raw, line := rest[0], TrimCR(rest[0]);
      assert OneLine(raw);
      SuffixOneLine(rest[1..], rest);
      if line == "" {
        if BodyContinues(rest, st) {
          ScanCountsNext(rest, st.Count(1, 1), read, HunkLine(' ', raw));
        }
      } else if "\\ " + NO_NEWLINE <= line {
        ScanCountsNext(rest, st.Count(0, 0), read, HunkLine('\\', NO_NEWLINE));
      } else if line[0] == '\\' {
        ScanCounts(rest[1..], st, read);
        SuffixNext(rest, st, read);
      } else if IsBodyChar(line[0]) {
        var l := HunkLine(raw[0], raw[1..]);
        ScanCountsNext(rest, st.Count(Olds(l), News(l)), read, l);
      }
    }
  }

  lemma SuffixNext(rest: seq<string>, st: HunkState, read: seq<HunkLine>)
    requires rest != []
    ensures var r := ScanBody(rest[1..], st, read);
      r.Ok? && IsSuffix(r.value.rest, rest[1..]) ==> IsSuffix(r.value.rest, rest)
  {
  }

  lemma {:induction false} ScanCountsNext(rest: seq<string>, st: HunkState, read: seq<HunkLine>, l: HunkLine)
    requires rest != [] && AllOneLine(rest[1..]) && PrintedLines(read) && PrintedLine(l)
    requires st.oldCount == OldCount(read) + Olds(l) && st.newCount == NewCount(read) + News(l)
    ensures var r := ScanBody(rest[1..], st, read + [l]);
      r.Ok? ==> InCount(r.value.st, r.value.lines) && IsSuffix(r.value.rest, rest)
    decreases |rest|, 0
  {
    CountSnoc(read, l);
    ScanCounts(rest[1..], st, read + [l]);
    SuffixNext(rest, st, read + [l]);
  }

  lemma StartsAreInts(header: string)
    ensures var r := ParseHunkHeader(header);
      r.Some? ==> IsInt(r.value.0.0) && IsInt(r.value.1.0)
  {
  }

  lemma HunkCounts(rest: seq<string>, hasHeader: bool)
    requires rest != [] && AllOneLine(rest)
    ensures var r := ParseHunk(rest, hasHeader);
      r.Ok? ==> CountedHunk(r.value.0) && IsSuffix(r.value.1, rest)
  {
    var ranges := ParseHunkHeader(TrimCR(rest[0]));
    if ranges.Some? {
      StartsAreInts(TrimCR(rest[0]));
      SuffixOneLine(rest[1..], rest);
      ScanCounts(rest[1..], HunkState(hasHeader, ranges.value.0.1, ranges.value.1.1, 0, 0), []);
    }
  }

  lemma OneMoreHunk(c: FileChange, h: Hunk)
    requires Parsed(c) && CountedHunk(h)
    ensures Parsed(c.(hunks := c.hunks + [h]))
  {
  }

  lemma SkipSuffix(rest: seq<string>)
    ensures IsSuffix(SkipBinary(rest), rest)
  {
  }

  ghost predicate MetaCounts(rest: seq<string>, c: FileChange, minus: bool, plus: bool) {
    var r := Meta(rest, c, minus, plus);
    r.Ok? ==> Parsed(r.value.0) && IsSuffix(r.value.1, rest)
  }

  lemma {:induction false} EveryMetaCounts(rest: seq<string>, c: FileChange, minus: bool, plus: bool)
    requires AllOneLine(rest) && Parsed(c)
    ensures MetaCounts(rest, c, minus, plus)
    decreases |rest|, 1
  {
    if rest != [] {
      match Classify(TrimCR(rest[0]))
      case DiffGit =>
      case Minus(p) => MarkerCounts(rest, c, minus, plus);
      case Plus(p) => MarkerCounts(rest, c, minus, plus);
      case At(_) => HunkLineCounts(rest, c, minus, plus);
      case OldMode(from) => ModeCounts(rest, from, c, minus, plus);
      case BinaryFiles => MarkerEndsCount(rest, c, minus, plus);
      case BinaryPatch => PatchEndsCount(rest, c, minus, plus);
      case _ => NoteCounts(rest, c, minus, plus);
    }
  }

  lemma StripOneLine(p: string)
    requires OneLine(p)
    ensures OneLine(StripPrefix(p))
  {
  }

  lemma MarkerIsParsed(line: string, p: string, c: FileChange)
    requires OneLine(line) && Parsed(c)
    requires Classify(TrimCR(line)) == Minus(p) || Classify(TrimCR(line)) == Plus(p)
    ensures Parsed(TakeMinus(c, p)) && Parsed(TakePlus(c, p))
  {
    assert TrimCR(line)[4..] == p;
    StripOneLine(p);
  }

  lemma NoteIsParsed(line: string, c: FileChange)
    requires OneLine(line) && Parsed(c)
    ensures var noted := Note(Classify(TrimCR(line)), c);
      noted.Ok? ==> Parsed(noted.value)
  {
    match Classify(TrimCR(line))
    case RenameFrom(p) =>
      assert OneLine(p);
      StripOneLine(p);
    case RenameTo(p) =>
      assert OneLine(p);
      StripOneLine(p);
    case _ =>
  }

  lemma MarkerCounts(rest: seq<string>, c: FileChange, minus: bool, plus: bool)
    requires rest != [] && AllOneLine(rest) && Parsed(c)
    requires Classify(TrimCR(rest[0])).Minus? || Classify(TrimCR(rest[0])).Plus?
    ensures MetaCounts(rest, c, minus, plus)
    decreases |rest|, 0
  {
    var p := Classify(TrimCR(rest[0])).path;
    SuffixOneLine(rest[1..], rest);
    MarkerIsParsed(rest[0], p, c);
    if Classify(TrimCR(rest[0])).Minus? {
      EveryMetaCounts(rest[1..], TakeMinus(c, p), true, plus);
    } else {
      EveryMetaCounts(rest[1..], TakePlus(c, p), minus, true);
    }
  }

  lemma HunkLineCounts(rest: seq<string>, c: FileChange, minus: bool, plus: bool)
    requires rest != [] && AllOneLine(rest) && Parsed(c) && Classify(TrimCR(rest[0])).At?
    ensures MetaCounts(rest, c, minus, plus)
    decreases |rest|, 0
  {
    SuffixOneLine(rest[1..], rest);
    EveryMetaCounts(rest[1..], c, minus, plus);
    HunkCounts(rest, c.hasHeader);
    var hunk := ParseHunk(rest, c.hasHeader);
    if hunk.Ok? {
      var (h, after) := hunk.value;
      OneMoreHunk(c, h);
      SuffixOneLine(after, rest);
      EveryMetaCounts(after, c.(hunks := c.hunks + [h]), minus, plus);
      SuffixOfSuffix(Meta(after, c.(hunks := c.hunks + [h]), minus, plus), after, rest);
    }
  }

  lemma SuffixOfSuffix(r: Result<(FileChange, seq<string>), ParseError>, mid: seq<string>, whole: seq<string>)
    requires IsSuffix(mid, whole)
    ensures r.Ok? && IsSuffix(r.value.1, mid) ==> IsSuffix(r.value.1, whole)
  {
  }

  lemma ModeCounts(rest: seq<string>, from: string, c: FileChange, minus: bool, plus: bool)
    requires rest != [] && AllOneLine(rest) && Parsed(c) && Classify(TrimCR(rest[0])) == OldMode(from)
    ensures MetaCounts(rest, c, minus, plus)
    decreases |rest|, 0
  {
    var pair := ModePair(from, rest[1..], c);
    if pair.Ok? {
      var (d, n) := pair.value;
      SuffixOneLine(rest[n..], rest);
      EveryMetaCounts(rest[n..], d, minus, plus);
      SuffixOfSuffix(Meta(rest[n..], d, minus, plus), rest[n..], rest);
    }
  }

  lemma MarkerEndsCount(rest: seq<string>, c: FileChange, minus: bool, plus: bool)
    requires rest != [] && Parsed(c) && Classify(TrimCR(rest[0])).BinaryFiles?
    ensures MetaCounts(rest, c, minus, plus)
  {
    assert Meta(rest, c, minus, plus) == Ok((c.(isBinary := true), rest[1..]));
  }

  lemma PatchEndsCount(rest: seq<string>, c: FileChange, minus: bool, plus: bool)
    requires rest != [] && Parsed(c) && Classify(TrimCR(rest[0])).BinaryPatch?
    ensures MetaCounts(rest, c, minus, plus)
  {
    BinaryPatchLine(rest, c, minus, plus);
    SkipSuffix(rest[1..]);
    SuffixTail(rest, SkipBinary(rest[1..]));
  }

  lemma NoteCounts(rest: seq<string>, c: FileChange, minus: bool, plus: bool)
    requires rest != [] && AllOneLine(rest) && Parsed(c) && IsNote(Classify(TrimCR(rest[0])))
    ensures MetaCounts(rest, c, minus, plus)
    decreases |rest|, 0
  {
    var noted := Note(Classify(TrimCR(rest[0])), c);
    NoteIsParsed(rest[0], c);
    if noted.Ok? {
      SuffixOneLine(rest[1..], rest);
      EveryMetaCounts(rest[1..], noted.value, minus, plus);
    }
  }

  lemma {:induction false} QuotesOneLine(s: string)
    requires OneLine(s)
    ensures OneLine(TrimQuotes(s))
  {
    if s != "" && s[0] == '"' {
      QuotesOneLine(s[1..]);
    } else if s != "" && s[|s| - 1] == '"' {
      QuotesOneLine(s[..|s| - 1]);
    }
  }

  lemma ExtractOneLine(line: string)
    requires OneLine(line)
    ensures OneLine(ExtractPaths(line).0) && OneLine(ExtractPaths(line).1)
  {
    var rest := TrimPrefix(line, "diff --git ");
    var split := LastIndex(rest, " b/");
    assert OneLine(rest);
    if split >= 0 {
      assert OneLine(rest[..split]) && OneLine(rest[split + 1..]);
      QuotesOneLine(rest[..split]);
      QuotesOneLine(rest[split + 1..]);
    }
  }

  lemma FileChangeCounts(rest: seq<string>)
    requires rest != [] && AllOneLine(rest)
    requires Classify(TrimCR(rest[0])).DiffGit? || Classify(TrimCR(rest[0])).Minus?
    ensures var r := ParseFileChange(rest);
      r.Ok? ==> Parsed(r.value.0) && IsSuffix(r.value.1, rest)
  {
    if Classify(TrimCR(rest[0])).DiffGit? {
      var (a, b) := ExtractPaths(TrimCR(rest[0]));
      SuffixOneLine(rest[1..], rest);
      assert OneLine(rest[0]);
      ExtractOneLine(TrimCR(rest[0]));
      EveryMetaCounts(rest[1..], Headed(a, b), false, false);
    } else {
      EveryMetaCounts(rest, NO_CHANGE, false, false);
    }
  }

  lemma {:induction false} ChangesCount(rest: seq<string>, read: seq<FileChange>)
    requires AllOneLine(rest) && AllParsed(read)
    ensures Changes(rest, read).Ok? ==> AllParsed(Changes(rest, read).value)
    decreases |rest|
  {
    if rest != [] {
      var line := Classify(TrimCR(rest[0]));
      SuffixOneLine(rest[1..], rest);
      if line.DiffGit? || line.Minus? {
        FileChangeCounts(rest);
        var r := ParseFileChange(rest);
        if r.Ok? {
          SuffixOneLine(r.value.1, rest);
          ChangesCount(r.value.1, read + [r.value.0]);
        }
      } else if line != At(true) {
        ChangesCount(rest[1..], read);
      }
    }
  }

  lemma TextIsLines(data: string)
    ensures AllOneLine(TextLines(data))
  {
    var lines := SplitOn(data, '\n');
    SplitIsLines(data);
    forall i | 0 <= i < |TextLines(data)| ensures OneLine(TextLines(data)[i]) {
      assert OneLine(lines[i]);
    }
  }

  /** Whatever the text, an accepted diff has only hunks that count their own bodies, bodies
      that are not empty, body lines that are context, additions, removals or the no-newline
      marker, and modes git knows. */
  lemma ParsedHunksAreCounted(data: string)
    ensures Parse(data).Ok? ==> AllParsed(Parse(data).value)
  {
    TextIsLines(data);
    ChangesCount(TextLines(data), []);
  }

  lemma PrintedIsOneLine(ls: seq<HunkLine>, j: nat)
    requires PrintedLines(ls) && j < |ls|
    ensures PrintedLine(ls[j])
  {
    if j > 0 {
      PrintedIsOneLine(ls[1..], j - 1);
    }
  }

  lemma {:induction false} NewSideIsOneLine(ls: seq<HunkLine>)
    requires forall j :: 0 <= j < |ls| ==> PrintedLine(ls[j])
    ensures AllOneLine(Hunks.NewSide(ls))
  {
    if ls != [] {
      var n := |ls| - 1;
      assert forall j :: 0 <= j < n ==> ls[..n][j] == ls[j];
      NewSideIsOneLine(ls[..n]);
      assert ls[n].prefix == ' ' || ls[n].prefix == '+' ==> OneLine(TrimCR(ls[n].content)) by {
        assert PrintedLine(ls[n]);
      }
    }
  }

  /** What an accepted diff puts into a file are lines of one line each. */
  lemma ParsedHunksAreOneLine(data: string, c: FileChange)
    requires Parse(data).Ok? && c in Parse(data).value
    ensures Endings.OneLineHunks(c.hunks)
  {
    ParsedHunksAreCounted(data);
    forall i | 0 <= i < |c.hunks| ensures AllOneLine(Hunks.New(c.hunks[i])) {
      assert CountedHunk(c.hunks[i]);
      var ls := c.hunks[i].lines;
      forall j | 0 <= j < |ls| ensures PrintedLine(ls[j]) {
        PrintedIsOneLine(ls, j);
      }
      NewSideIsOneLine(ls);
    }
  }

  // ------------------------------------------------- printing what was parsed

  predicate AllFitInt(hs: seq<Hunk>) {
    forall i :: 0 <= i < |hs| ==> FitsInt(hs[i])
  }

  /** A change list that printing loses nothing of, given that it was parsed. */
  predicate Reprintable(cs: seq<FileChange>) {
    cs == []
    || (Kept(cs[0]) && AllFitInt(cs[0].hunks) && (|cs| > 1 ==> MayFollow(cs[0], cs[1])) && Reprintable(cs[1..]))
  }

  lemma {:induction false} PrintedHunksAre(hs: seq<Hunk>)
    ensures PrintedHunks(hs) <==> CountedHunks(hs) && AllFitInt(hs)
  {
    if hs != [] {
      PrintedHunksAre(hs[1..]);
      assert forall i :: 1 <= i < |hs| ==> hs[i] == hs[1..][i - 1];
    }
  }

  lemma PrintedIs(c: FileChange)
    requires Parsed(c)
    ensures Printed(c) <==> Kept(c) && AllFitInt(c.hunks)
  {
    PrintedHunksAre(c.hunks);
  }

  lemma {:induction false} PrintedFormIs(cs: seq<FileChange>)
    requires AllParsed(cs)
    ensures PrintedForm(cs) <==> Reprintable(cs)
  {
    if cs != [] {
      var more := cs[1..];
      assert forall i :: 0 <= i < |more| ==> more[i] == cs[i + 1];
      PrintedFormIs(more);
      PrintedIs(cs[0]);
    }
  }

  /** Of what was parsed, exactly the lists without a change that its printed lines lose something
      of are in printed form, whatever their hunks; and those come back from Parse(Render(cs)). */
  lemma ParsedIsPrintedExactly(data: string)
    requires Parse(data).Ok?
    ensures var cs := Parse(data).value;
      && (PrintedForm(cs) <==> Reprintable(cs))
      && (Reprintable(cs) ==> Parse(Unlines(RenderLines(cs))) == Ok(cs))
  {
    ParsedHunksAreCounted(data);
    PrintedFormIs(Parse(data).value);
    if Reprintable(Parse(data).value) {
      ParseUndoesRender(Parse(data).value);
    }
  }
}
