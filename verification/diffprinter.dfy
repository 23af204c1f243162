/** Render: file changes as unified-diff text. */
module DiffPrinter {
  import opened Prelude
  import opened Strings
  import opened PatchTypes
  import opened DiffSyntax

  // ---------------------------------------------------------- line by line

  function BodyLine(l: HunkLine): string {
    (if l.prefix == '\\' then "\\ " else [l.prefix]) + l.content
  }

  function BodyLines(ls: seq<HunkLine>): seq<string> {
    if ls == [] then [] else [BodyLine(ls[0])] + BodyLines(ls[1..])
  }

  function Range(start: int, count: int): string {
    Decimal(start) + "," + Decimal(count)
  }

  function HunkHeader(h: Hunk): string {
    "@@" + (" " + ("-" + Range(h.oldStart, h.oldLines)) + " " + ("+" + Range(h.newStart, h.newLines)) + " ") + "@@"
  }

  function HunkLines(h: Hunk): seq<string> {
    [HunkHeader(h)] + BodyLines(h.lines)
  }

  function HunksLines(hs: seq<Hunk>): seq<string> {
    if hs == [] then [] else HunkLines(hs[0]) + HunksLines(hs[1..])
  }

  /** The old name of a change. */
  function SourcePath(c: FileChange): string {
    if c.op == Rename then c.oldPath else c.path
  }

  function ModeName(bits: nat): string {
    if bits == EXECUTABLE then "100755" else "100644"
  }

  function ModeLines(c: FileChange): seq<string> {
    if c.newMode == 0 then []
    else
      var was := if c.newMode == EXECUTABLE then PLAIN else EXECUTABLE;
      ["old mode " + ModeName(was), "new mode " + ModeName(c.newMode)]
  }

  function RenameLines(c: FileChange): seq<string> {
    if c.op == Rename then ["rename from " + c.oldPath, "rename to " + c.path] else []
  }

  function CreateLines(c: FileChange): seq<string> {
    if c.op == Create then ["new file mode " + ModeName(c.createMode)] else []
  }

  function DeleteLines(c: FileChange): seq<string> {
    if c.op == Delete then ["deleted file mode " + ModeName(PLAIN)] else []
  }

  function GitLine(c: FileChange): string {
    "diff --git a/" + SourcePath(c) + " b/" + c.path
  }

  function TopLines(c: FileChange): seq<string> {
    if c.hasHeader then [GitLine(c)] + (ModeLines(c) + (RenameLines(c) + (CreateLines(c) + DeleteLines(c)))) else []
  }

  predicate HasMarkers(c: FileChange) {
    c.hunks != [] || c.op == Create || c.op == Delete || (c.isBinary && c.originalAPath != "")
  }

  function ShownMinus(c: FileChange): string {
    if c.originalAPath != "" && c.originalAPath != "a/" then c.originalAPath
    else if c.op == Create then "/dev/null"
    else "a/" + c.path
  }

  function ShownPlus(c: FileChange): string {
    if c.originalBPath != "" && c.originalBPath != "b/" then c.originalBPath
    else if c.op == Delete then "/dev/null"
    else "b/" + c.path
  }

  function MarkerLines(c: FileChange): seq<string> {
    if HasMarkers(c) then ["--- " + ShownMinus(c), "+++ " + ShownPlus(c)] else []
  }

  function BinaryLine(c: FileChange): string {
    "Binary files a/" + SourcePath(c) + " and b/" + c.path + " differ"
  }

  function ContentLines(c: FileChange): seq<string> {
    if c.isBinary then [BinaryLine(c)] else HunksLines(c.hunks)
  }

  function ChangeLines(c: FileChange): seq<string> {
    TopLines(c) + (MarkerLines(c) + ContentLines(c))
  }

  function RenderLines(cs: seq<FileChange>): seq<string> {
    if cs == [] then [] else ChangeLines(cs[0]) + RenderLines(cs[1..])
  }

  // ------------------------------------------------------------- the buffer

  /** Write `line` and a newline to the buffer `text`, which holds the lines `done`. */
  method WriteLine(text: string, ghost done: seq<string>, line: string)
    returns (text': string, ghost done': seq<string>)
    requires text == Unlines(done)
    ensures done' == done + [line] && text' == Unlines(done')
  {
    text', done' := text + line + "\n", done + [line];
    UnlinesSnoc(done, line);
  }

  method WriteTop(text: string, ghost done: seq<string>, c: FileChange)
    returns (text': string, ghost done': seq<string>)
    requires text == Unlines(done)
    ensures done' == done + TopLines(c) && text' == Unlines(done')
  {
    text', done' := text, done;
    if c.hasHeader {
      var diffAPath, diffBPath := "a/" + c.path, "b/" + c.path;
      if c.op == Rename {
        diffAPath, diffBPath := "a/" + c.oldPath, "b/" + c.path;
      }
      GitText(SourcePath(c), c.path);
      text', done' := WriteLine(text', done', "diff --git " + diffAPath + " " + diffBPath);
      text', done' := WriteModes(text', done', c);
      ghost var soFar := done';
      if c.op == Rename {
        text', done' := WriteLine(text', done', "rename from " + c.oldPath);
        text', done' := WriteLine(text', done', "rename to " + c.path);
      }
      assert done' == soFar + RenameLines(c);
      text', done' := WriteKind(text', done', c);
      ghost var kind := CreateLines(c) + DeleteLines(c);
      Assoc(done + [GitLine(c)] + ModeLines(c), RenameLines(c), kind);
      Assoc(done + [GitLine(c)], ModeLines(c), RenameLines(c) + kind);
      Assoc(done, [GitLine(c)], ModeLines(c) + (RenameLines(c) + kind));
    } else {
      assert done + TopLines(c) == done;
    }
  }

  lemma GitText(a: string, b: string)
    ensures "diff --git a/" + a + " b/" + b == "diff --git " + ("a/" + a) + " " + ("b/" + b)
  {
  }

  method WriteModes(text: string, ghost done: seq<string>, c: FileChange)
    returns (text': string, ghost done': seq<string>)
    requires text == Unlines(done)
    ensures done' == done + ModeLines(c) && text' == Unlines(done')
  {
    text', done' := text, done;
    if c.newMode != 0 {
      var was, now := "100755", "100644";
      if c.newMode == EXECUTABLE {
        was, now := "100644", "100755";
      }
      text', done' := WriteLine(text', done', "old mode " + was);
      text', done' := WriteLine(text', done', "new mode " + now);
    } else {
      assert done + ModeLines(c) == done;
    }
  }

  method WriteKind(text: string, ghost done: seq<string>, c: FileChange)
    returns (text': string, ghost done': seq<string>)
    requires text == Unlines(done)
    ensures done' == done + (CreateLines(c) + DeleteLines(c)) && text' == Unlines(done')
  {
    text', done' := text, done;
    if c.op == Create {
      var mode := if c.createMode == EXECUTABLE then "100755" else "100644";
      text', done' := WriteLine(text', done', "new file mode " + mode);
    }
    if c.op == Delete {
      assert "deleted file mode 100644" == "deleted file mode " + ModeName(PLAIN);
      text', done' := WriteLine(text', done', "deleted file mode 100644");
    }
    assert done' == done + (CreateLines(c) + DeleteLines(c));
  }

  method WriteMarkers(text: string, ghost done: seq<string>, c: FileChange)
    returns (text': string, ghost done': seq<string>)
    requires text == Unlines(done)
    ensures done' == done + MarkerLines(c) && text' == Unlines(done')
  {
    text', done' := text, done;
    if |c.hunks| > 0 || c.op == Create || c.op == Delete || (c.isBinary && c.originalAPath != "") {
      var displayMinusPath, displayPlusPath := c.originalAPath, c.originalBPath;
      if displayMinusPath == "" || displayMinusPath == "a/" {
        displayMinusPath := if c.op == Create then "/dev/null" else "a/" + c.path;
      }
      if displayPlusPath == "" || displayPlusPath == "b/" {
        displayPlusPath := if c.op == Delete then "/dev/null" else "b/" + c.path;
      }
      text', done' := WriteLine(text', done', "--- " + displayMinusPath);
      text', done' := WriteLine(text', done', "+++ " + displayPlusPath);
    } else {
      assert done + MarkerLines(c) == done;
    }
  }

  method WriteHunk(text: string, ghost done: seq<string>, h: Hunk) returns (text': string, ghost done': seq<string>)
    requires text == Unlines(done)
    ensures done' == done + HunkLines(h) && text' == Unlines(done')
  {
    var header := "@@ -" + Decimal(h.oldStart) + "," + Decimal(h.oldLines)
      + " +" + Decimal(h.newStart) + "," + Decimal(h.newLines) + " @@";
    HeaderText(h);
    text', done' := WriteLine(text, done, header);
    for i := 0 to |h.lines|
      invariant done' + BodyLines(h.lines[i..]) == done + [HunkHeader(h)] + BodyLines(h.lines)
      invariant text' == Unlines(done')
    {
      var line := h.lines[i];
      assert h.lines[i..][1..] == h.lines[i + 1..];
      text', done' := WriteLine(text', done', (if line.prefix == '\\' then "\\ " else [line.prefix]) + line.content);
    }
    assert done + [HunkHeader(h)] + BodyLines(h.lines) == done + HunkLines(h);
  }

  lemma HeaderText(h: Hunk)
    ensures HunkHeader(h) == "@@ -" + Decimal(h.oldStart) + "," + Decimal(h.oldLines)
                             + " +" + Decimal(h.newStart) + "," + Decimal(h.newLines) + " @@"
  {
    ManyParts(Decimal(h.oldStart), Decimal(h.oldLines), Decimal(h.newStart), Decimal(h.newLines));
  }

  lemma ManyParts(a: string, b: string, c: string, d: string)
    ensures "@@" + (" " + ("-" + (a + "," + b)) + " " + ("+" + (c + "," + d)) + " ") + "@@"
         == "@@ -" + a + "," + b + " +" + c + "," + d + " @@"
  {
  }

  method WriteContent(text: string, ghost done: seq<string>, c: FileChange)
    returns (text': string, ghost done': seq<string>)
    requires text == Unlines(done)
    ensures done' == done + ContentLines(c) && text' == Unlines(done')
  {
    text', done' := text, done;
    if c.isBinary {
      var diffAPath := if c.op == Rename then "a/" + c.oldPath else "a/" + c.path;
      BinaryText(SourcePath(c), c.path);
      text', done' := WriteLine(text', done', "Binary files " + diffAPath + " and " + ("b/" + c.path) + " differ");
    } else {
      text', done' := WriteHunks(text', done', c.hunks);
    }
  }

  lemma BinaryText(a: string, b: string)
    ensures "Binary files a/" + a + " and b/" + b + " differ"
         == "Binary files " + ("a/" + a) + " and " + ("b/" + b) + " differ"
  {
  }

  method WriteHunks(text: string, ghost done: seq<string>, hs: seq<Hunk>)
    returns (text': string, ghost done': seq<string>)
    requires text == Unlines(done)
    ensures done' == done + HunksLines(hs) && text' == Unlines(done')
  {
    text', done' := text, done;
    for i := 0 to |hs|
      invariant done' + HunksLines(hs[i..]) == done + HunksLines(hs) && text' == Unlines(done')
    {
      assert hs[i..][1..] == hs[i + 1..];
      ghost var before := done';
      text', done' := WriteHunk(text', done', hs[i]);
      Assoc(before, HunkLines(hs[i]), HunksLines(hs[i + 1..]));
    }
    assert done' + [] == done';
  }

  /** Render */
  method Render(changes: seq<FileChange>) returns (text: string)
    ensures text == Unlines(RenderLines(changes))
  {
    text := "";
    ghost var done := [];
    for i := 0 to |changes|
      invariant done + RenderLines(changes[i..]) == RenderLines(changes) && text == Unlines(done)
    {
      var c := changes[i];
      assert changes[i..][1..] == changes[i + 1..];
      ghost var before := done;
      text, done := WriteTop(text, done, c);
      text, done := WriteMarkers(text, done, c);
      text, done := WriteContent(text, done, c);
      Assoc(before + TopLines(c), MarkerLines(c), ContentLines(c));
      Assoc(before, TopLines(c), MarkerLines(c) + ContentLines(c));
      Assoc(before, ChangeLines(c), RenderLines(changes[i + 1..]));
    }
    assert done + [] == done;
  }

}
