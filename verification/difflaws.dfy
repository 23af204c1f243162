/** What a diff means, said of its text: which change it is, of which file, with which lines. */
module DiffLaws {
  import opened Prelude
  import opened Strings
  import opened PatchTypes
  import opened DiffSyntax
  import opened DiffPrinter
  import opened DiffRoundTrip

  /** A path as it is in the workspace, without the a/ or b/ of a diff. */
  predicate IsName(p: string) {
    CleanPath(p) && p != "" && !("a/" <= p) && !("b/" <= p)
  }

  lemma NamesAreStripped(p: string)
    requires IsName(p)
    ensures StripPrefix("a/" + p) == p && StripPrefix("b/" + p) == p && StripPrefix(p) == p
    ensures CleanPath("a/" + p) && CleanPath("b/" + p)
  {
    assert ("a/" + p)[2..] == p && ("b/" + p)[2..] == p && ("b/" + p)[0] == 'b';
  }

  // --------------------------------------------- without a "diff --git " line

  /** A change of p as its two marker lines name it. */
  function Unheaded(op: Op, p: string, a: string, b: string, hs: seq<Hunk>): FileChange {
    FileChange(op, p, "", hs, 0, false, a, b, false, 0)
  }

  lemma ReadMarked(op: Op, p: string, a: string, b: string, hs: seq<Hunk>)
    requires CleanPath(p) && CleanPath(a) && CleanPath(b) && PrintedHunks(hs)
    requires hs != [] || op == Create || op == Delete
    requires a != "" && b != "" && a != "a/" && b != "b/"
    requires TakePlus(TakeMinus(NO_CHANGE, a), b) == Unheaded(op, p, a, b, [])
    ensures Parse(Unlines(["--- " + a, "+++ " + b] + HunksLines(hs))) == Ok([Unheaded(op, p, a, b, hs)])
  {
    var c := Unheaded(op, p, a, b, hs);
    assert c.(hunks := [], isBinary := false) == Unheaded(op, p, a, b, []);
    assert Printed(c) && PrintedForm([c][1..]);
    assert [c][1..] == [] && RenderLines([c]) == ChangeLines(c) + [] == ChangeLines(c);
    assert ChangeLines(c) == ["--- " + a, "+++ " + b] + HunksLines(hs);
    ParseUndoesRender([c]);
  }

  lemma ModifiesAs(p: string, a: string, b: string, hs: seq<Hunk>)
    requires CleanPath(p) && CleanPath(a) && CleanPath(b) && PrintedHunks(hs) && hs != []
    requires a != "" && a != "a/" && a != "/dev/null" && b != "" && b != "b/" && b != "/dev/null"
    requires StripPrefix(a) == p && p != ""
    ensures Parse(Unlines(["--- " + a, "+++ " + b] + HunksLines(hs)))
         == Ok([FileChange(Modify, p, "", hs, 0, false, a, b, false, 0)])
  {
    ReadMarked(Modify, p, a, b, hs);
  }

  /** Two lines name the file and the hunks are its; where they differ, the first line names it. */
  lemma ModifiesNamed(p: string, q: string, hs: seq<Hunk>)
    requires IsName(p) && IsName(q) && PrintedHunks(hs) && hs != []
    ensures Parse(Unlines(["--- " + ("a/" + p), "+++ " + ("b/" + q)] + HunksLines(hs)))
         == Ok([FileChange(Modify, p, "", hs, 0, false, "a/" + p, "b/" + q, false, 0)])
  {
    NamesAreStripped(p);
    NamesAreStripped(q);
    MarkedIsLonger(p);
    MarkedIsLonger(q);
    ModifiesAs(p, "a/" + p, "b/" + q, hs);
  }

  lemma MarkedIsLonger(p: string)
    requires p != ""
    ensures "a/" + p != "" && "a/" + p != "a/" && "a/" + p != "/dev/null"
    ensures "b/" + p != "" && "b/" + p != "b/" && "b/" + p != "/dev/null"
  {
    assert ("a/" + p)[0] == 'a' && ("b/" + p)[0] == 'b' && |"a/" + p| > 2 && |"b/" + p| > 2;
  }

  /** The same without a/ and b/. */
  lemma ModifiesUnmarked(p: string, q: string, hs: seq<Hunk>)
    requires IsName(p) && IsName(q) && p != "/dev/null" && q != "/dev/null" && PrintedHunks(hs) && hs != []
    ensures Parse(Unlines(["--- " + p, "+++ " + q] + HunksLines(hs)))
         == Ok([FileChange(Modify, p, "", hs, 0, false, p, q, false, 0)])
  {
    NamesAreStripped(p);
    assert "a/" != p && "b/" != q;
    ModifiesAs(p, p, q, hs);
  }

  lemma NullIsClean()
    ensures CleanPath("/dev/null")
  {
  }

  lemma MarkedLines(p: string, minus: string, plus: string)
    requires CleanPath(p) && minus == "--- " + p && plus == "+++ " + p
    ensures Classify(TrimCR(minus)) == Minus(p) && Classify(TrimCR(plus)) == Plus(p)
  {
    ClassifyMarkers(p);
  }

  /** A file that is already to be created, deleted or renamed is so still after "--- /dev/null" or "+++ /dev/null". */
  lemma NullChangesNothing(rest: seq<string>, c: FileChange)
    requires c.op != Modify || c.hasHeader
    ensures Meta(["--- /dev/null"] + rest, c, false, false) == Meta(rest, c.(originalAPath := "/dev/null"), true, false)
    ensures Meta(["+++ /dev/null"] + rest, c, true, false) == Meta(rest, c.(originalBPath := "/dev/null"), true, true)
  {
    NullIsClean();
    assert "--- /dev/null" == "--- " + "/dev/null" && "+++ /dev/null" == "+++ " + "/dev/null";
    MarkedLines("/dev/null", "--- /dev/null", "+++ /dev/null");
    MetaMinus("--- /dev/null", "/dev/null", rest, c);
    MetaPlus("+++ /dev/null", "/dev/null", rest, c);
  }

  /** A second "--- " line with no "+++ " line between names nothing. */
  lemma SecondMinusNamesNothing(q: string, rest: seq<string>, c: FileChange)
    requires CleanPath(q) && q != "/dev/null" && (c.hasHeader || c.path != "")
    ensures Meta(["--- " + q] + rest, c, true, false) == Meta(rest, c.(originalAPath := q), true, false)
  {
    ClassifyMarkers(q);
    FirstAndRest("--- " + q, [], rest);
  }

  /** From /dev/null the file is created. */
  lemma CreatesNamed(p: string, hs: seq<Hunk>)
    requires IsName(p) && PrintedHunks(hs)
    ensures Parse(Unlines(["--- " + "/dev/null", "+++ " + ("b/" + p)] + HunksLines(hs)))
         == Ok([FileChange(Create, p, "", hs, 0, false, "/dev/null", "b/" + p, false, 0)])
  {
    NamesAreStripped(p);
    assert ("b/" + p)[0] == 'b' && |"b/" + p| > 2;
    ReadMarked(Create, p, "/dev/null", "b/" + p, hs);
  }

  /** To /dev/null it is deleted. */
  lemma DeletesNamed(p: string, hs: seq<Hunk>)
    requires IsName(p) && PrintedHunks(hs)
    ensures Parse(Unlines(["--- " + ("a/" + p), "+++ " + "/dev/null"] + HunksLines(hs)))
         == Ok([FileChange(Delete, p, "", hs, 0, false, "a/" + p, "/dev/null", false, 0)])
  {
    NamesAreStripped(p);
    assert ("a/" + p)[0] == 'a' && |"a/" + p| > 2;
    ReadMarked(Delete, p, "a/" + p, "/dev/null", hs);
  }

  // ------------------------------------------------ with a "diff --git " line

  /** A name that the "diff --git " line can hold. */
  predicate IsGitName(p: string) {
    IsName(p) && NoQuoteAtEnd(p) && Index(p, " b/") < 0
  }

  lemma ReadGitText(p: string, q: string, after: seq<string>, c: FileChange)
    requires IsGitName(p) && IsGitName(q) && AllOneLine(after)
    requires Meta(after, Headed(p, q), false, false) == Ok((c, []))
    ensures Parse(Unlines(["diff --git a/" + p + " b/" + q] + after)) == Ok([c])
  {
    var named := NO_CHANGE.(op := Rename, oldPath := p, path := q);
    var lines := ["diff --git a/" + p + " b/" + q] + after;
    assert lines[0] == GitLine(named) && lines[1..] == after;
    ExtractPrinted(named);
    GitLineIsLine(named);
    Both([lines[0]], after);
    TextOfLines(lines);
    assert ParseFileChange(lines) == Ok((c, []));
    ChangesTake(lines, [], c, []);
    assert Changes([], [] + [c]) == Ok([] + [c]) && [] + [c] == [c];
  }

  lemma MetaSkip(line: string, rest: seq<string>, c: FileChange, minus: bool, plus: bool)
    requires Classify(TrimCR(line)).Unknown? || Classify(TrimCR(line)).Empty?
    ensures Meta([line] + rest, c, minus, plus) == Meta(rest, c, minus, plus)
  {
    FirstAndRest(line, [], rest);
  }

  lemma IndexIsSkipped(x: string, rest: seq<string>, c: FileChange)
    requires CleanPath(x)
    ensures Meta(["index " + x] + rest, c, false, false) == Meta(rest, c, false, false)
  {
    var line := "index " + x;
    TrimTagged("index ", x);
    assert line[0] == 'i';
    PlainTags(line);
    DiffersAt(line, "new file mode ", 0);
    DiffersAt(line, "old mode ", 0);
    DiffersAt(line, "new mode ", 0);
    DiffersAt(line, "rename from ", 0);
    DiffersAt(line, "rename to ", 0);
    DiffersAt(line, "Binary files ", 0);
    DiffersAt(line, "GIT binary patch", 0);
    MetaSkip(line, rest, c, false, false);
  }

  function Markers(a: string, b: string, hs: seq<Hunk>): seq<string> {
    ["--- " + a, "+++ " + b] + HunksLines(hs)
  }

  lemma MetaOfMarkers(a: string, b: string, hs: seq<Hunk>, d: FileChange)
    requires CleanPath(a) && CleanPath(b) && PrintedHunks(hs) && d.hasHeader && d.hunks == []
    ensures Meta(Markers(a, b, hs), d, false, false)
         == Ok((d.(originalAPath := a, originalBPath := b, hunks := hs), []))
  {
    var hunks := HunksLines(hs);
    assert Markers(a, b, hs) == ["--- " + a] + (["+++ " + b] + hunks) && hunks + [] == hunks && [] + hs == hs;
    ClassifyMarkers(a);
    ClassifyMarkers(b);
    MetaMinus("--- " + a, a, ["+++ " + b] + hunks, d);
    MetaPlus("+++ " + b, b, hunks, TakeMinus(d, a));
    MetaHunks(hs, [], TakePlus(TakeMinus(d, a), b));
  }

  lemma MarkersAreOneLine(a: string, b: string, hs: seq<Hunk>)
    requires CleanPath(a) && CleanPath(b) && PrintedHunks(hs)
    ensures AllOneLine(Markers(a, b, hs))
  {
    HunksAreLines(hs);
    Joined("--- ", a);
    Joined("+++ ", b);
    Both(["--- " + a, "+++ " + b], HunksLines(hs));
  }

  /** A git line, one line more and the markers with their hunks. */
  function GitLines(p: string, note: string, a: string, b: string, hs: seq<Hunk>): seq<string> {
    ["diff --git a/" + p + " b/" + p] + ([note] + Markers(a, b, hs))
  }

  lemma ReadNoted(p: string, note: string, a: string, b: string, hs: seq<Hunk>, d: FileChange)
    requires IsGitName(p) && OneLine(note) && CleanPath(a) && CleanPath(b) && PrintedHunks(hs)
    requires d.hasHeader && d.hunks == []
    requires Meta([note] + Markers(a, b, hs), Headed(p, p), false, false) == Meta(Markers(a, b, hs), d, false, false)
    ensures Parse(Unlines(GitLines(p, note, a, b, hs)))
         == Ok([d.(originalAPath := a, originalBPath := b, hunks := hs)])
  {
    MetaOfMarkers(a, b, hs, d);
    MarkersAreOneLine(a, b, hs);
    Both([note], Markers(a, b, hs));
    ReadGitText(p, p, [note] + Markers(a, b, hs), d.(originalAPath := a, originalBPath := b, hunks := hs));
  }

  /** The git line names the file, whatever its index line says. */
  lemma GitModifies(p: string, x: string, hs: seq<Hunk>)
    requires IsGitName(p) && CleanPath(x) && PrintedHunks(hs)
    ensures Parse(Unlines(GitLines(p, "index " + x, "a/" + p, "b/" + p, hs)))
         == Ok([FileChange(Modify, p, "", hs, 0, false, "a/" + p, "b/" + p, true, 0)])
  {
    NamesAreStripped(p);
    IndexIsSkipped(x, Markers("a/" + p, "b/" + p, hs), Headed(p, p));
    Joined("index ", x);
    ReadNoted(p, "index " + x, "a/" + p, "b/" + p, hs, Headed(p, p));
  }

  lemma ModesDiffer()
    ensures "100644" != "100755"
  {
    assert "100644"[3] != "100755"[3];
  }

  lemma NotesNewFile(mode: string, bits: nat, rest: seq<string>, d: FileChange)
    requires (mode, bits) in [("100644", 420), ("100755", 493)]
    ensures Meta(["new file mode " + mode] + rest, d, false, false)
         == Meta(rest, d.(op := Create, createMode := bits), false, false)
    ensures OneLine("new file mode " + mode)
  {
    ModesDiffer();
    ClassifyNewFile(mode);
    MetaNewFile("new file mode " + mode, mode, rest, d);
    Joined("new file mode ", mode);
  }

  lemma NotesDeleted(mode: string, rest: seq<string>, d: FileChange)
    requires mode in ["100644", "100755"]
    ensures Meta(["deleted file mode " + mode] + rest, d, false, false) == Meta(rest, d.(op := Delete), false, false)
    ensures OneLine("deleted file mode " + mode)
  {
    ClassifyDeleted(mode);
    MetaDeletedFile("deleted file mode " + mode, mode, rest, d);
    Joined("deleted file mode ", mode);
  }

  /** A new file has the mode its line says. */
  lemma GitCreates(p: string, mode: string, bits: nat, b: string, hs: seq<Hunk>)
    requires IsGitName(p) && PrintedHunks(hs) && (mode, bits) in [("100644", 420), ("100755", 493)] && b == "b/" + p
    ensures Parse(Unlines(GitLines(p, "new file mode " + mode, "/dev/null", b, hs)))
         == Ok([FileChange(Create, p, "", hs, 0, false, "/dev/null", b, true, bits)])
  {
    var d := Headed(p, p).(op := Create, createMode := bits);
    NamesAreStripped(p);
    NotesNewFile(mode, bits, Markers("/dev/null", b, hs), Headed(p, p));
    ReadNoted(p, "new file mode " + mode, "/dev/null", b, hs, d);
  }

  lemma GitDeletes(p: string, mode: string, a: string, hs: seq<Hunk>)
    requires IsGitName(p) && PrintedHunks(hs) && mode in ["100644", "100755"] && a == "a/" + p
    ensures Parse(Unlines(GitLines(p, "deleted file mode " + mode, a, "/dev/null", hs)))
         == Ok([FileChange(Delete, p, "", hs, 0, false, a, "/dev/null", true, 0)])
  {
    NamesAreStripped(p);
    NotesDeleted(mode, Markers(a, "/dev/null", hs), Headed(p, p));
    ReadNoted(p, "deleted file mode " + mode, a, "/dev/null", hs, Headed(p, p).(op := Delete));
  }

  /** A rename takes its names from its own lines, with a/ and b/ or without. */
  lemma GitRenames(p: string, q: string, from: string, to: string, hs: seq<Hunk>)
    requires IsGitName(p) && IsGitName(q) && PrintedHunks(hs)
    requires (from == p || from == "a/" + p) && (to == q || to == "b/" + q)
    ensures var names := ["rename from " + from] + ["rename to " + to];
      && Parse(Unlines(["diff --git a/" + p + " b/" + q] + (names + Markers("a/" + p, "b/" + q, hs))))
           == Ok([FileChange(Rename, q, p, hs, 0, false, "a/" + p, "b/" + q, true, 0)])
      && Parse(Unlines(["diff --git a/" + p + " b/" + q] + names))
           == Ok([FileChange(Rename, q, p, [], 0, false, "a/" + p, "b/" + q, true, 0)])
  {
    var d := FileChange(Rename, q, p, [], 0, false, "a/" + p, "b/" + q, true, 0);
    var names, markers := ["rename from " + from] + ["rename to " + to], Markers("a/" + p, "b/" + q, hs);
    NamesAreStripped(p);
    NamesAreStripped(q);
    MetaOfNames(p, q, from, to, markers);
    MetaOfNames(p, q, from, to, []);
    MetaOfMarkers("a/" + p, "b/" + q, hs, d);
    MarkersAreOneLine("a/" + p, "b/" + q, hs);
    NamesAreOneLine(from, to);
    Both(names, markers);
    ReadGitText(p, q, names + markers, d.(hunks := hs));
    assert names + [] == names;
    ReadGitText(p, q, names, d);
  }

  lemma MetaOfNames(p: string, q: string, from: string, to: string, rest: seq<string>)
    requires CleanPath(from) && CleanPath(to) && StripPrefix(from) == p && StripPrefix(to) == q
    ensures var names := ["rename from " + from] + ["rename to " + to];
      && Meta(names + rest, Headed(p, q), false, false)
           == Meta(rest, FileChange(Rename, q, p, [], 0, false, "a/" + p, "b/" + q, true, 0), false, false)
  {
    var was, now := "rename from " + from, "rename to " + to;
    var d := Headed(p, q).(op := Rename, oldPath := p, originalAPath := "a/" + p);
    assert [was] + [now] + rest == [was] + ([now] + rest);
    ClassifyRename(from);
    ClassifyRename(to);
    MetaRenameFrom(was, from, p, [now] + rest, Headed(p, q));
    MetaRenameTo(now, to, q, rest, d);
  }

  lemma NamesAreOneLine(from: string, to: string)
    requires CleanPath(from) && CleanPath(to)
    ensures AllOneLine(["rename from " + from] + ["rename to " + to])
  {
    Joined("rename from ", from);
    Joined("rename to ", to);
  }

  /** The line alone names a file before and after; the change is of the one after. */
  lemma GitNames(p: string, q: string)
    requires IsGitName(p) && IsGitName(q)
    ensures Parse(Unlines(["diff --git a/" + p + " b/" + q]))
         == Ok([FileChange(Modify, q, "", [], 0, false, p, q, true, 0)])
  {
    var line := "diff --git a/" + p + " b/" + q;
    assert [line] + [] == [line];
    ReadGitText(p, q, [], FileChange(Modify, q, "", [], 0, false, p, q, true, 0));
  }

  /** A first name in quotes is the name in them. */
  lemma QuotedIsRead(p: string, q: string, quoted: string, line: string)
    requires IsGitName(p) && IsGitName(q) && quoted == ['"'] + ("a/" + p) + ['"']
    requires line == "diff --git " + (quoted + " b/" + q)
    ensures ExtractPaths(line) == (p, q)
  {
    Unquoted("a/" + p);
    QuotesKept("a/", p);
    QuotesKept("b/", q);
    LastB(quoted, q);
    var rest := quoted + " b/" + q;
    assert rest[..|quoted|] == quoted && rest[|quoted| + 1..] == "b/" + q;
    ExtractParts(line, rest, quoted, "b/" + q);
  }

  lemma Unquoted(s: string)
    requires s != "" && s[0] != '"' && s[|s| - 1] != '"'
    ensures TrimQuotes(['"'] + s + ['"']) == s
  {
    var quoted, half := ['"'] + s + ['"'], s + ['"'];
    assert quoted[1..] == half && half[0] == s[0] && half[|half| - 1] == '"' && half[..|half| - 1] == s;
    assert TrimQuotes(quoted) == TrimQuotes(half) == TrimQuotes(s) == s;
  }

  /** A mode change is between the two modes git knows. */
  lemma GitChangesMode(p: string, from: string, to: string, bits: nat)
    requires IsGitName(p) && (from, to, bits) in [("100644", "100755", 493), ("100755", "100644", 420)]
    ensures Parse(Unlines(["diff --git a/" + p + " b/" + p] + ["old mode " + from, "new mode " + to]))
         == Ok([FileChange(Modify, p, "", [], bits, false, p, p, true, 0)])
  {
    var modes := ["old mode " + from, "new mode " + to];
    ModesDiffer();
    MetaModeLines(from, to, [], Headed(p, p));
    assert modes + [] == modes;
    Joined("old mode ", from);
    Joined("new mode ", to);
    ReadGitText(p, p, modes, FileChange(Modify, p, "", [], bits, false, p, p, true, 0));
  }

  /** A binary file has no hunks, only a mark. */
  lemma GitIsBinary(p: string)
    requires IsGitName(p)
    ensures Parse(Unlines(["diff --git a/" + p + " b/" + p] + ["Binary files a/" + p + " and b/" + p + " differ"]))
         == Ok([FileChange(Modify, p, "", [], 0, true, p, p, true, 0)])
  {
    var c := NO_CHANGE.(path := p);
    ClassifyBinary(c);
    MetaBinary(BinaryLine(c), [], Headed(p, p), false);
    assert [BinaryLine(c)] + [] == [BinaryLine(c)];
    GitLineIsLine(c);
    ReadGitText(p, p, [BinaryLine(c)], FileChange(Modify, p, "", [], 0, true, p, p, true, 0));
  }

  // --------------------------------------------------------- what is refused

  /** A line of prose: no change and no hunk starts there. */
  predicate IsProse(line: string) {
    !("diff --git " <= TrimCR(line)) && !("--- " <= TrimCR(line)) && !("@@ " <= TrimCR(line))
  }

  lemma ProseIsSkipped(line: string, rest: seq<string>, read: seq<FileChange>)
    requires IsProse(line)
    ensures Changes([line] + rest, read) == Changes(rest, read)
  {
    HasPrefixIs(TrimCR(line), "diff --git ");
    HasPrefixIs(TrimCR(line), "--- ");
    HasPrefixIs(TrimCR(line), "@@ ");
    ChangesSkip([line] + rest, read);
    assert ([line] + rest)[1..] == rest;
  }

  predicate AllProse(lines: seq<string>) {
    lines == [] || (IsProse(lines[0]) && AllProse(lines[1..]))
  }

  lemma ConsThen(prose: seq<string>, lines: seq<string>)
    requires prose != []
    ensures prose + lines == [prose[0]] + (prose[1..] + lines)
  {
  }

  /** Whatever is written before the first change does not matter. */
  lemma {:induction false} ProseBefore(prose: seq<string>, lines: seq<string>, read: seq<FileChange>)
    requires AllProse(prose)
    ensures Changes(prose + lines, read) == Changes(lines, read)
  {
    if prose == [] {
      assert prose + lines == lines;
    } else {
      ConsThen(prose, lines);
      ProseIsSkipped(prose[0], prose[1..] + lines, read);
      ProseBefore(prose[1..], lines, read);
    }
  }

  /** A text that names no file, or that has a hunk first, is refused. */
  lemma NoFileIsRefused(prose: seq<string>, hunk: string, rest: seq<string>)
    requires AllProse(prose) && AllOneLine(prose) && "@@ " <= TrimCR(hunk)
    ensures Parse(Unlines(prose)) == Err(MissingHeader)
    ensures Changes(prose + ([hunk] + rest), []) == Err(MissingHeader)
  {
    ProseBefore(prose, [], []);
    assert prose + [] == prose;
    TextOfLines(prose);
    ProseBefore(prose, [hunk] + rest, []);
    ClassifyAt(TrimCR(hunk));
    ChangesSkip([hunk] + rest, []);
  }

  /** A hunk after "--- " alone names no file. */
  lemma MinusAloneIsRefused(a: string, hunk: string, rest: seq<string>, read: seq<FileChange>)
    requires CleanPath(a) && "@@" <= TrimCR(hunk)
    ensures Changes(["--- " + a] + ([hunk] + rest), read) == Err(MissingHeader)
  {
    var all := ["--- " + a] + ([hunk] + rest);
    ClassifyMarkers(a);
    ClassifyAts(TrimCR(hunk));
    MetaMinus("--- " + a, a, [hunk] + rest, NO_CHANGE);
    FirstAndRest(hunk, [], rest);
    assert ParseFileChange(all) == Err(MissingHeader);
    ChangesFail(all, read, MissingHeader);
  }

  lemma ClassifyAts(line: string)
    requires "@@" <= line
    ensures Classify(line) == At("@@ " <= line)
  {
    DiffersAt(line, "diff --git ", 0);
    HasPrefixIs(line, "@@");
    HasPrefixIs(line, "@@ ");
  }

  /** "@@" without a space after it is no hunk, and says nothing. */
  lemma UnspacedIsNoHunk(hunk: string, rest: seq<string>, c: FileChange, minus: bool, plus: bool)
    requires "@@" <= TrimCR(hunk) && !("@@ " <= TrimCR(hunk)) && (minus ==> plus)
    ensures Meta([hunk] + rest, c, minus, plus) == Meta(rest, c, minus, plus)
  {
    ClassifyAts(TrimCR(hunk));
    FirstAndRest(hunk, [], rest);
  }

  lemma OldModeSkips(line: string, mode: string, rest: seq<string>, c: FileChange, minus: bool, plus: bool)
    requires Classify(TrimCR(line)) == OldMode(mode) && (rest != [] ==> !Classify(TrimCR(rest[0])).NewMode?)
    ensures Meta([line] + rest, c, minus, plus) == Meta(rest, c, minus, plus)
  {
    FirstAndRest(line, [], rest);
  }

  lemma NoNewMode(line: string)
    requires !("new mode " <= line)
    ensures !Classify(line).NewMode?
  {
    HasPrefixIs(line, "new mode ");
  }

  /** An "old mode " line alone says nothing. */
  lemma OldModeAloneSaysNothing(mode: string, rest: seq<string>, c: FileChange, minus: bool, plus: bool)
    requires CleanPath(mode) && (rest != [] ==> !("new mode " <= TrimCR(rest[0])))
    ensures Meta(["old mode " + mode] + rest, c, minus, plus) == Meta(rest, c, minus, plus)
  {
    ClassifyAnyChange(mode, "");
    if rest != [] {
      NoNewMode(TrimCR(rest[0]));
    }
    OldModeSkips("old mode " + mode, mode, rest, c, minus, plus);
  }

  /** Only the modes 100644 and 100755 are taken, and a mode change is between the two. */
  lemma OtherModesAreRefused(mode: string, rest: seq<string>, c: FileChange, minus: bool, plus: bool)
    requires CleanPath(mode) && mode != "100644" && mode != "100755"
    ensures Meta(["new file mode " + mode] + rest, c, minus, plus) == Err(BadMode)
    ensures Meta(["deleted file mode " + mode] + rest, c, minus, plus) == Err(BadMode)
  {
    ClassifyAnyMode(mode);
    BadModeIsRefused("new file mode " + mode, mode, rest, c, minus, plus);
    BadModeIsRefused("deleted file mode " + mode, mode, rest, c, minus, plus);
  }

  lemma BadModeIsRefused(line: string, mode: string, rest: seq<string>, c: FileChange, minus: bool, plus: bool)
    requires Classify(TrimCR(line)) in [NewFile(mode), DeletedFile(mode)] && !IsMode(mode)
    ensures Meta([line] + rest, c, minus, plus) == Err(BadMode)
  {
    FirstAndRest(line, [], rest);
  }

  lemma ClassifyAnyMode(mode: string)
    requires CleanPath(mode)
    ensures Classify(TrimCR("new file mode " + mode)) == NewFile(mode)
    ensures Classify(TrimCR("deleted file mode " + mode)) == DeletedFile(mode)
  {
    var line := "deleted file mode " + mode;
    TrimTagged("new file mode ", mode);
    PlainTags("new file mode " + mode);
    TrimTagged("deleted file mode ", mode);
    DiffersAt(line, "diff --git ", 1);
    DiffersAt(line, "@@", 0);
    DiffersAt(line, "--- ", 0);
    DiffersAt(line, "+++ ", 0);
    DiffersAt(line, "new file mode ", 0);
  }

  lemma OtherModeChangesAreRefused(from: string, to: string, rest: seq<string>, c: FileChange, minus: bool, plus: bool)
    requires CleanPath(from) && CleanPath(to)
    requires !((from == "100644" && to == "100755") || (from == "100755" && to == "100644"))
    ensures Meta(["old mode " + from] + (["new mode " + to] + rest), c, minus, plus) == Err(BadMode)
  {
    var all := ["old mode " + from] + (["new mode " + to] + rest);
    ClassifyAnyChange(from, to);
    assert all[1..] == ["new mode " + to] + rest;
  }

  lemma ClassifyAnyChange(from: string, to: string)
    requires CleanPath(from) && CleanPath(to)
    ensures Classify(TrimCR("old mode " + from)) == OldMode(from)
    ensures Classify(TrimCR("new mode " + to)) == NewMode(to)
  {
    TrimTagged("old mode ", from);
    PlainTags("old mode " + from);
    DiffersAt("old mode " + from, "new file mode ", 0);
    TrimTagged("new mode ", to);
    PlainTags("new mode " + to);
    DiffersAt("new mode " + to, "new file mode ", 4);
    DiffersAt("new mode " + to, "old mode ", 0);
  }

  // ----------------------------------------------------- binary and unnamed

  predicate IsData(line: string) {
    TrimCR(line) != "" && !("diff --git " <= TrimCR(line))
  }

  ghost predicate AllData(lines: seq<string>) {
    lines == [] || (IsData(lines[0]) && AllData(lines[1..]))
  }

  lemma DataIsNoHeader(line: string)
    ensures Classify(line).DiffGit? <==> "diff --git " <= line
  {
    HasPrefixIs(line, "diff --git ");
  }

  lemma {:induction false} DataIsSkipped(data: seq<string>, after: seq<string>)
    requires AllData(data) && (after != [] ==> !IsData(after[0]))
    ensures SkipBinary(data + after) == after
  {
    if data == [] {
      assert data + after == after;
      if after != [] {
        DataIsNoHeader(TrimCR(after[0]));
      }
    } else {
      DataIsNoHeader(TrimCR(data[0]));
      FirstOfBoth(data, after);
      DataIsSkipped(data[1..], after);
    }
  }

  lemma FirstOfBoth(data: seq<string>, after: seq<string>)
    requires data != []
    ensures (data + after)[0] == data[0] && (data + after)[1..] == data[1..] + after
  {
  }

  /** The data of a binary patch are not read: they end at an empty line or at the next "diff --git " line. */
  lemma BinaryPatchIsSkipped(line: string, data: seq<string>, after: seq<string>, c: FileChange,
                             minus: bool, plus: bool)
    requires Classify(TrimCR(line)).BinaryPatch? && AllData(data) && (after != [] ==> !IsData(after[0]))
    ensures Meta([line] + (data + after), c, minus, plus) == Ok((c.(isBinary := true), after))
  {
    assert ([line] + (data + after))[1..] == data + after;
    BinaryPatchLine([line] + (data + after), c, minus, plus);
    DataIsSkipped(data, after);
  }

  lemma BinaryPatchReads()
    ensures Classify(TrimCR("GIT binary patch")).BinaryPatch?
  {
    var line := "GIT binary patch";
    assert TrimCR(line) == line && line[0] == 'G';
    PlainTags(line);
    DiffersAt(line, "new file mode ", 0);
    DiffersAt(line, "old mode ", 0);
    DiffersAt(line, "new mode ", 0);
    DiffersAt(line, "rename from ", 0);
    DiffersAt(line, "rename to ", 0);
    DiffersAt(line, "Binary files ", 0);
    HasPrefixIs(line, "GIT binary patch");
  }

  /** "Binary files " without " differ" says nothing. */
  lemma BinaryWithoutDiffer(x: string, rest: seq<string>, c: FileChange, minus: bool, plus: bool)
    requires CleanPath(x) && Index("Binary files " + x, " differ") < 0
    ensures Meta(["Binary files " + x] + rest, c, minus, plus) == Meta(rest, c, minus, plus)
  {
    var line := "Binary files " + x;
    TrimTagged("Binary files ", x);
    assert line[0] == 'B';
    PlainTags(line);
    DiffersAt(line, "new file mode ", 0);
    DiffersAt(line, "old mode ", 0);
    DiffersAt(line, "new mode ", 0);
    DiffersAt(line, "rename from ", 0);
    DiffersAt(line, "rename to ", 0);
    DiffersAt(line, "GIT binary patch", 0);
    MetaSkips(line, rest, c, minus, plus);
  }

  lemma MetaSkips(line: string, rest: seq<string>, c: FileChange, minus: bool, plus: bool)
    requires Classify(TrimCR(line)).Unknown?
    ensures Meta([line] + rest, c, minus, plus) == Meta(rest, c, minus, plus)
  {
    FirstAndRest(line, [], rest);
  }

  /** A "diff --git " line with no " b/" in it names no file, and is refused. */
  lemma UnnamedIsRefused(x: string, rest: seq<string>, read: seq<FileChange>)
    requires CleanPath(x) && forall i :: 0 <= i < |x| ==> !HasAt(x, i, " b/")
    ensures Changes(["diff --git " + x] + rest, read) == Err(MissingHeader)
  {
    var line := "diff --git " + x;
    TrimTagged("diff --git ", x);
    NoNames(line, x);
    FirstAndRest(line, [], rest);
    assert ParseFileChange([line] + rest) == Err(MissingHeader);
    ChangesFail([line] + rest, read, MissingHeader);
  }

  lemma NoNames(line: string, x: string)
    requires line == "diff --git " + x && forall i :: 0 <= i < |x| ==> !HasAt(x, i, " b/")
    ensures ExtractPaths(line) == ("", "") && TrimPrefix(line, "diff --git ") == x
  {
    LastIndexIsLast(x, " b/", |x|);
    assert line[11..] == x && |"diff --git "| == 11;
  }
}
