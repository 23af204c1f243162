/** What the lines of a hunk mean, as people and models write them. */
module HunkTexts {
  import opened Prelude
  import opened Strings
  import opened PatchTypes
  import opened DiffSyntax
  import opened DiffPrinter
  import opened DiffRoundTrip

  // ------------------------------------------------------------ the header

  /** "start,count", or "start" alone for a count of 1. */
  function RangeText(start: int, count: int, short: bool): string {
    if short then Decimal(start) else Decimal(start) + "," + Decimal(count)
  }

  lemma ReadsShortRange(sign: string, start: int)
    requires |sign| == 1 && IsInt(start)
    ensures ParseRange(sign + Decimal(start), sign) == Some((start, 1))
  {
    var part := sign + Decimal(start);
    DecimalChars(start);
    assert part[1..] == Decimal(start);
    SplitNone(Decimal(start), ',');
    AtoiDecimal(start);
  }

  /** With more than one comma the count is not read. */
  lemma ReadsOddRange(sign: string, start: int, one: string, two: string)
    requires |sign| == 1 && IsInt(start) && ',' !in one
    ensures ParseRange(sign + (Decimal(start) + "," + (one + "," + two)), sign) == Some((start, 1))
  {
    var part := sign + (Decimal(start) + "," + (one + "," + two));
    DecimalChars(start);
    assert part[1..] == Decimal(start) + [','] + (one + "," + two);
    SplitFirst(Decimal(start), ',', one + "," + two);
    assert one + "," + two == one + [','] + two;
    SplitFirst(one, ',', two);
    AtoiDecimal(start);
  }

  lemma ShortIsToken(sign: string, start: int)
    requires sign == "-" || sign == "+"
    ensures IsToken(sign + Decimal(start))
  {
    DecimalChars(start);
  }

  lemma ReadsRange(sign: string, start: int, count: int, short: bool)
    requires (sign == "-" || sign == "+") && IsInt(start) && IsInt(count) && (short ==> count == 1)
    ensures ParseRange(sign + RangeText(start, count, short), sign) == Some((start, count))
    ensures IsToken(sign + RangeText(start, count, short))
  {
    if short {
      ReadsShortRange(sign, start);
      ShortIsToken(sign, start);
    } else {
      ParsePrintedRange(sign, start, count);
      RangeIsToken(sign, start, count);
    }
  }

  /** A header, its counts of 1 left out or not, and whatever heading after it. */
  lemma ReadsHeader(a: string, b: string, c: int, d: int, m: int, n: int, heading: string)
    requires IsInt(c) && IsInt(d) && IsInt(m) && IsInt(n) && NoCRAtEnd(heading)
    requires a == RangeText(c, d, false) || (d == 1 && a == RangeText(c, d, true))
    requires b == RangeText(m, n, false) || (n == 1 && b == RangeText(m, n, true))
    ensures ParseHunkHeader("@@" + (" " + ("-" + a) + " " + ("+" + b) + " ") + "@@" + heading) == Some(((c, d), (m, n)))
  {
    ReadsRange("-", c, d, a == RangeText(c, d, true) && d == 1);
    ReadsRange("+", m, n, b == RangeText(m, n, true) && n == 1);
    ParseTokens("-" + a, "+" + b, heading);
  }

  // -------------------------------------------------------------- the body

  lemma FirstBodyLine(ls: seq<HunkLine>, rest: seq<string>)
    requires PrintedLines(ls) && ls != []
    ensures var all := BodyLines(ls) + rest;
      && all != [] && all[0] == BodyLine(ls[0]) && all[1..] == BodyLines(ls[1..]) + rest
      && TrimCR(all[0]) != "" && TrimCR(all[0])[0] == ls[0].prefix && IsBodyChar(ls[0].prefix)
  {
    BodyLinesCons(ls, rest);
    assert BodyLine(ls[0])[0] == ls[0].prefix;
  }

  /** An empty line with more of the body after it is a blank line of context. */
  lemma BlankIsContext(ls: seq<HunkLine>, rest: seq<string>, st: HunkState, read: seq<HunkLine>, blank: string)
    requires PrintedLines(ls) && ls != [] && blank in ["", "\r"]
    requires st.oldCount + 1 + OldCount(ls) <= st.declOld && st.newCount + 1 + NewCount(ls) <= st.declNew
    ensures ScanBody([blank] + (BodyLines(ls) + rest), st, read)
         == ScanBody(BodyLines(ls) + rest, st.Count(1, 1), read + [HunkLine(' ', blank)])
  {
    var after := BodyLines(ls) + rest;
    FirstBodyLine(ls, rest);
    BodyLinesCons(ls, rest);
    NoBodyLineEnds(ls[0], BodyLines(ls[1..]) + rest, st.Count(1, 1));
    assert BodyContinues(after, st.Count(1, 1));
    assert ([blank] + after)[1..] == after && TrimCR(blank) == "";
    assert !HunkEnds([blank] + after, st) && BodyContinues([blank] + after, st);
  }

  /** k empty lines. */
  function Blanks(k: nat): seq<string> {
    if k == 0 then [] else [""] + Blanks(k - 1)
  }

  lemma {:induction false} BlanksEnd(k: nat, rest: seq<string>, st: HunkState)
    requires st.Reached() && TrueEnd(rest, st.hasHeader) && (rest != [] ==> TrimCR(rest[0]) != "")
    ensures !BodyContinues(Blanks(k) + rest, st)
  {
    if k == 0 {
      assert Blanks(0) + rest == rest;
    } else {
      BlanksEnd(k - 1, rest, st.Count(1, 1));
      FirstBlank(k, rest);
    }
  }

  lemma FirstBlank(k: nat, rest: seq<string>)
    requires k > 0
    ensures Blanks(k) + rest != [] && (Blanks(k) + rest)[0] == "" && (Blanks(k) + rest)[1..] == Blanks(k - 1) + rest
  {
  }

  /** Empty lines after a hunk are not part of it. */
  lemma BlanksAfterwards(k: nat, rest: seq<string>, st: HunkState, read: seq<HunkLine>)
    requires st.Reached() && TrueEnd(rest, st.hasHeader) && (rest != [] ==> TrimCR(rest[0]) != "")
    ensures ScanBody(Blanks(k) + rest, st, read) == Ok(Body(read, st, Blanks(k) + rest))
  {
    if k == 0 {
      assert Blanks(0) + rest == rest;
      ScanEnds(rest, st, read);
    } else {
      BlanksEnd(k, rest, st);
      assert (Blanks(k) + rest)[0] == "";
    }
  }

  /** A line that is no part of a diff. */
  predicate Stray(line: string) {
    TrimCR(line) != "" && !IsBodyChar(TrimCR(line)[0]) && !("@@" <= TrimCR(line)) && !("diff --git " <= TrimCR(line))
  }

  lemma StrayIsNoEnd(line: string, rest: seq<string>, st: HunkState)
    requires Stray(line)
    ensures !HunkEnds([line] + rest, st)
  {
    var first := TrimCR(line);
    assert first != "-- " && !("--- " <= first);
  }

  /** A stray line with more of the body after it is refused; nothing is applied in part. */
  lemma StrayInsideIsRefused(line: string, ls: seq<HunkLine>, rest: seq<string>, st: HunkState, read: seq<HunkLine>)
    requires Stray(line) && PrintedLines(ls) && ls != []
    requires st.oldCount + OldCount(ls) <= st.declOld && st.newCount + NewCount(ls) <= st.declNew
    ensures ScanBody([line] + (BodyLines(ls) + rest), st, read) == Err(HunkCountMismatch)
  {
    var after := BodyLines(ls) + rest;
    StrayIsNoEnd(line, after, st);
    FirstBodyLine(ls, rest);
    BodyLinesCons(ls, rest);
    NoBodyLineEnds(ls[0], BodyLines(ls[1..]) + rest, st);
    assert BodyFollows(after, st);
    assert ([line] + after)[1..] == after;
    FirstChar(TrimCR(line), "\\ " + NO_NEWLINE);
  }

  /** Stray lines after the last hunk end it. */
  lemma StrayAfterwards(line: string, st: HunkState, read: seq<HunkLine>)
    requires Stray(line)
    ensures ScanBody([line], st, read) == Ok(Body(read, st, [line]))
  {
    StrayIsNoEnd(line, [], st);
    assert [line] + [] == [line] && [line][1..] == [];
    FirstChar(TrimCR(line), "\\ " + NO_NEWLINE);
    assert !BodyFollows([], st);
  }

  lemma BackslashIsNoEnd(line: string, rest: seq<string>, st: HunkState)
    requires TrimCR(line) != "" && TrimCR(line)[0] == '\\'
    ensures !HunkEnds([line] + rest, st)
  {
    var first := TrimCR(line);
    FirstChar(first, "@@");
    FirstChar(first, "diff --git ");
    FirstChar(first, "-- ");
    FirstChar(first, "--- ");
  }

  lemma MarkerIsTaken(line: string, rest: seq<string>, st: HunkState, read: seq<HunkLine>)
    requires "\\ " + NO_NEWLINE <= TrimCR(line)
    ensures ScanBody([line] + rest, st, read) == ScanBody(rest, st, read + [HunkLine('\\', NO_NEWLINE)])
  {
    BackslashIsNoEnd(line, rest, st);
    assert ([line] + rest)[1..] == rest;
  }

  /** The no-newline marker may have more on its line. */
  lemma MarkerReads(more: string, rest: seq<string>, st: HunkState, read: seq<HunkLine>)
    requires NoCRAtEnd(more)
    ensures ScanBody(["\\ " + NO_NEWLINE + more] + rest, st, read)
         == ScanBody(rest, st, read + [HunkLine('\\', NO_NEWLINE)])
    ensures NO_NEWLINE == "No newline at end of file"
  {
    assert TrimCR("\\ " + NO_NEWLINE + more) == "\\ " + NO_NEWLINE + more;
    MarkerIsTaken("\\ " + NO_NEWLINE + more, rest, st, read);
  }

  lemma TailPrefix(tag: string, line: string)
    requires tag != "" && line != "" && !(tag[1..] <= line[1..])
    ensures !(tag <= line)
  {
  }

  /** Other backslash lines say nothing. */
  lemma BackslashSaysNothing(more: string, rest: seq<string>, st: HunkState, read: seq<HunkLine>)
    requires NoCRAtEnd(more) && !((" " + NO_NEWLINE) <= more)
    ensures ScanBody(["\\" + more] + rest, st, read) == ScanBody(rest, st, read)
  {
    var line := "\\" + more;
    assert ([line] + rest)[1..] == rest && line[0] == '\\' && line[1..] == more && TrimCR(line) == line;
    assert ("\\ " + NO_NEWLINE)[1..] == " " + NO_NEWLINE;
    TailPrefix("\\ " + NO_NEWLINE, line);
    BackslashIsNoEnd(line, rest, st);
  }

  /** A format-patch signature ends a complete hunk: "-- ", a version, and nothing else. */
  lemma SignatureEnds(version: string, k: nat, st: HunkState, read: seq<HunkLine>)
    requires st.Reached() && IsVersionLine(version) && NoCRAtEnd(version)
    ensures ScanBody(["-- ", version] + Blanks(k), st, read) == Ok(Body(read, st, ["-- ", version] + Blanks(k)))
  {
    var all := ["-- ", version] + Blanks(k);
    assert all[1..] == [version] + Blanks(k) && ([version] + Blanks(k))[1..] == Blanks(k);
    BlanksSayNothing(k);
    assert TrimCR(version) == version && version != "";
    assert NonEmpty(all[1..]) == [version] + [] == [version];
  }

  lemma {:induction false} BlanksSayNothing(k: nat)
    ensures NonEmpty(Blanks(k)) == []
  {
    if k > 0 {
      BlanksSayNothing(k - 1);
      assert Blanks(k)[1..] == Blanks(k - 1);
    }
  }

  /** In a hunk that is not complete the same line is the removal of "- ". */
  lemma RemovalOfDash(rest: seq<string>, st: HunkState, read: seq<HunkLine>)
    requires !st.Reached()
    ensures ScanBody(["-- "] + rest, st, read) == ScanBody(rest, st.Count(1, 0), read + [HunkLine('-', "- ")])
  {
    assert (["-- "] + rest)[1..] == rest && "-- "[0] == '-' && "-- "[1..] == "- ";
    assert !("\\ " + NO_NEWLINE <= "-- ");
  }

  /** Each body line is its prefix and its text, which keeps the carriage return it had. */
  lemma BodyLineReads(c: char, text: string, rest: seq<string>, st: HunkState, read: seq<HunkLine>)
    requires c in [' ', '+', '-'] && '\n' !in text
    requires st.oldCount + (if c == '+' then 0 else 1) <= st.declOld
    requires st.newCount + (if c == '-' then 0 else 1) <= st.declNew
    ensures ScanBody([[c] + text] + rest, st, read)
         == ScanBody(rest, st.Count(if c == '+' then 0 else 1, if c == '-' then 0 else 1), read + [HunkLine(c, text)])
  {
    ScanBodyLine(HunkLine(c, text), rest, st, read);
    assert BodyLine(HunkLine(c, text)) == [c] + text;
  }

  /** A hunk without lines is refused. */
  lemma EmptyHunkIsRefused(header: string, rest: seq<string>, hasHeader: bool)
    requires TrueEnd(rest, hasHeader) && ParseHunkHeader(TrimCR(header)).Some?
    requires var (minus, plus) := ParseHunkHeader(TrimCR(header)).value;
      minus.1 <= 0 && plus.1 <= 0
    ensures ParseHunk([header] + rest, hasHeader) == Err(HunkCountMismatch)
  {
    var (minus, plus) := ParseHunkHeader(TrimCR(header)).value;
    assert ([header] + rest)[1..] == rest;
    ScanEnds(rest, HunkState(hasHeader, minus.1, plus.1, 0, 0), []);
  }

  // ------------------------------------------------- signatures and next files

  /** A version is digits, a dot, a digit, and anything after. */
  lemma VersionReads(major: string, rest: string)
    requires major != "" && forall i :: 0 <= i < |major| ==> '0' <= major[i] <= '9'
    ensures IsVersionLine(major + "." + rest) <==> rest != "" && '0' <= rest[0] <= '9'
  {
    var line, n := major + "." + rest, |major|;
    assert line[..n] == major && line[n] == '.' && (rest != "" ==> line[n + 1] == rest[0]);
    forall i | 0 < i < |line| - 1 ensures AllDigits(line[..i]) && line[i] == '.' ==> i == n {
      assert i > n ==> line[..i][n] == '.';
      assert i < n ==> line[i] == major[i];
    }
  }

  /** Nothing else is: not without a dot, and not without a digit in front. */
  lemma NoVersion(line: string)
    requires '.' !in line || (line != "" && !('0' <= line[0] <= '9'))
    ensures !IsVersionLine(line)
  {
    forall i | 0 < i < |line| - 1 && line[i] == '.' ensures !AllDigits(line[..i]) {
      assert line[i] in line && line[..i][0] == line[0];
    }
  }

  /** "-- " is the removal of "- " as well when more than a version follows it. */
  lemma SignatureIsAlone(version: string, more: string, rest: seq<string>, st: HunkState, read: seq<HunkLine>)
    requires NoCRAtEnd(version) && NoCRAtEnd(more) && version != "" && more != ""
    ensures var after := [version, more] + rest;
      ScanBody(["-- "] + after, st, read) == ScanBody(after, st.Count(1, 0), read + [HunkLine('-', "- ")])
  {
    var after := [version, more] + rest;
    assert after[0] == version && after[1..] == [more] + rest && ([more] + rest)[1..] == rest;
    assert |NonEmpty(after)| >= 2;
    assert (["-- "] + after)[1..] == after && "-- "[0] == '-' && "-- "[1..] == "- ";
    assert !("\\ " + NO_NEWLINE <= "-- ");
  }

  /** Without a "diff --git " line a complete hunk ends where the next file starts: at "--- " and "+++ "
      lines with a hunk after them. */
  lemma NextFileEnds(p: string, q: string, hunk: string, rest: seq<string>, st: HunkState, read: seq<HunkLine>)
    requires !st.hasHeader && st.oldCount >= st.declOld && st.newCount >= st.declNew
    requires NoCRAtEnd(p) && NoCRAtEnd(q) && NoCRAtEnd(hunk)
    ensures var all := ["--- " + p, "+++ " + q, "@@" + hunk] + rest;
      ScanBody(all, st, read) == Ok(Body(read, st, all))
  {
    var all := ["--- " + p, "+++ " + q, "@@" + hunk] + rest;
    assert all[0] == "--- " + p && all[1] == "+++ " + q && all[2] == "@@" + hunk;
    assert TrimCR(all[0]) == all[0] && TrimCR(all[1]) == all[1] && TrimCR(all[2]) == all[2];
    assert HeaderPairAt(all);
  }

  /** With no hunk after them, or under a "diff --git " line, the same two lines are a removal and an
      addition. */
  lemma LikeNextFile(p: string, q: string, rest: seq<string>, st: HunkState, read: seq<HunkLine>)
    requires NoCRAtEnd(p) && NoCRAtEnd(q)
    requires st.hasHeader || rest == [] || !("@@" <= TrimCR(rest[0]))
    ensures var after := ["+++ " + q] + rest;
      ScanBody(["--- " + p] + after, st, read) == ScanBody(after, st.Count(1, 0), read + [HunkLine('-', "-- " + p)])
  {
    var after := ["+++ " + q] + rest;
    var all := ["--- " + p] + after;
    assert all[0] == "--- " + p && all[1..] == after && all[1] == "+++ " + q && (rest != [] ==> all[2] == rest[0]);
    assert TrimCR(all[0]) == all[0] && all[0][0] == '-' && all[0][1..] == "-- " + p && all[0] != "-- ";
    FirstChar(all[0], "@@");
    FirstChar(all[0], "diff --git ");
    FirstChar(all[0], "\\ " + NO_NEWLINE);
    assert !HunkEnds(all, st);
  }
}
