/** What the unified-diff parser reads: each function takes the lines not yet read. */
module DiffSyntax {
  import opened Prelude
  import opened Strings
  import opened PatchTypes

  datatype ParseError = MissingHeader | BadMode | HunkCountMismatch

  const NO_NEWLINE := "No newline at end of file"

  // --------------------------------------------------------- where a hunk ends

  /** What the body loop knows: the declared counts and the lines counted so far. */
  datatype HunkState = HunkState(hasHeader: bool, declOld: int, declNew: int, oldCount: int, newCount: int) {
    predicate Reached() {
      oldCount >= declOld && newCount >= declNew
    }

    function Count(olds: int, news: int): HunkState {
      this.(oldCount := oldCount + olds, newCount := newCount + news)
    }
  }

  /** Digits, a dot, a digit: the start of a version number. */
  ghost predicate IsVersionLine(line: string) {
    exists i :: 0 < i < |line| - 1 && AllDigits(line[..i]) && line[i] == '.' && IsDigit(line[i + 1])
  }

  function NonEmpty(rest: seq<string>): seq<string> {
    if rest == [] then []
    else (if TrimCR(rest[0]) == "" then [] else [TrimCR(rest[0])]) + NonEmpty(rest[1..])
  }

  ghost predicate IsSignature(lines: seq<string>) {
    |lines| == 1 && IsVersionLine(lines[0])
  }

  /** Only a version line is left, among empty lines. */
  ghost predicate SignatureAt(rest: seq<string>) {
    IsSignature(NonEmpty(rest))
  }

  /** A "--- " line, a "+++ " line, then an "@@" line. */
  predicate HeaderPairAt(rest: seq<string>) {
    |rest| > 2 && "--- " <= TrimCR(rest[0]) && "+++ " <= TrimCR(rest[1]) && "@@" <= TrimCR(rest[2])
  }

  ghost predicate HunkEnds(rest: seq<string>, st: HunkState) {
    || rest == []
    || "@@" <= TrimCR(rest[0])
    || "diff --git " <= TrimCR(rest[0])
    || (TrimCR(rest[0]) == "-- " && st.Reached() && SignatureAt(rest[1..]))
    || (HeaderPairAt(rest) && !st.hasHeader && st.Reached())
  }

  predicate IsBodyChar(c: char) {
    c == ' ' || c == '+' || c == '-' || c == '\\'
  }

  ghost predicate BodyFollows(rest: seq<string>, st: HunkState) {
    if HunkEnds(rest, st) then false
    else
      var line := TrimCR(rest[0]);
      (line != "" && IsBodyChar(line[0])) || BodyFollows(rest[1..], st)
  }

  ghost predicate BodyContinues(rest: seq<string>, st: HunkState) {
    if rest == [] then false
    else
      var line := TrimCR(rest[0]);
      if line == "" then BodyContinues(rest[1..], st.Count(1, 1))
      else !HunkEnds(rest, st) && IsBodyChar(line[0])
  }

  // ------------------------------------------------------------------- a hunk

  /** A hunk body as read so far, and the lines after it. */
  datatype Body = Body(lines: seq<HunkLine>, st: HunkState, rest: seq<string>)

  ghost function ScanBody(rest: seq<string>, st: HunkState, read: seq<HunkLine>): (r: Result<Body, ParseError>)
    ensures r.Ok? ==> |r.value.rest| <= |rest|
    decreases |rest|
  {
    if HunkEnds(rest, st) then Ok(Body(read, st, rest))
    else
      var raw, line := rest[0], TrimCR(rest[0]);
      if line == "" then
        if BodyContinues(rest, st) then ScanBody(rest[1..], st.Count(1, 1), read + [HunkLine(' ', raw)])
        else Ok(Body(read, st, rest))
      else if "\\ " + NO_NEWLINE <= line then ScanBody(rest[1..], st, read + [HunkLine('\\', NO_NEWLINE)])
      else if line[0] == '\\' then ScanBody(rest[1..], st, read)
      else if IsBodyChar(line[0]) then
        var l := HunkLine(raw[0], raw[1..]);
        ScanBody(rest[1..], st.Count(Olds(l), News(l)), read + [l])
      else if BodyFollows(rest[1..], st) then Err(HunkCountMismatch)
      else Ok(Body(read, st, rest))
  }

  function Olds(l: HunkLine): int { if l.prefix == ' ' || l.prefix == '-' then 1 else 0 }
  function News(l: HunkLine): int { if l.prefix == ' ' || l.prefix == '+' then 1 else 0 }

  /** "-start,count" or "+start,count"; a missing count is 1. */
  function ParseRange(part: string, sign: string): Option<(int, int)> {
    if !(sign <= part) then None
    else
      var parts := SplitOn(TrimPrefix(part, sign), ',');
      match Atoi(parts[0])
      case None => None
      case Some(start) =>
        if |parts| != 2 then Some((start, 1))
        else
          match Atoi(parts[1])
          case None => None
          case Some(count) => Some((start, count))
  }

  function ParseHunkHeader(header: string): Option<((int, int), (int, int))> {
    var start := Index(header, "@@");
    if start < 0 then None
    else
      var end := Index(header[start + 2..], "@@");
      if end < 0 then None
      else
        var parts := Fields(header[start + 2..][..end]);
        if |parts| < 2 then None
        else
          match ParseRange(parts[0], "-")
          case None => None
          case Some(minus) =>
            match ParseRange(parts[1], "+")
            case None => None
            case Some(plus) => Some((minus, plus))
  }

  ghost function ParseHunk(rest: seq<string>, hasHeader: bool): (r: Result<(Hunk, seq<string>), ParseError>)
    requires rest != []
    ensures r.Ok? ==> |r.value.1| < |rest|
  {
    match ParseHunkHeader(TrimCR(rest[0]))
    case None => Err(HunkCountMismatch)
    case Some((minus, plus)) =>
      match ScanBody(rest[1..], HunkState(hasHeader, minus.1, plus.1, 0, 0), [])
      case Err(e) => Err(e)
      case Ok(body) =>
        if body.st.oldCount == 0 && body.st.newCount == 0 then Err(HunkCountMismatch)
        else Ok((Hunk(minus.0, body.st.oldCount, plus.0, body.st.newCount, body.lines), body.rest))
  }

  // ------------------------------------------------------------ a file change

  datatype MetaLine =
    | DiffGit | Empty
    | At(spaced: bool)
    | Minus(path: string) | Plus(path: string)
    | NewFile(mode: string) | DeletedFile(mode: string) | OldMode(mode: string) | NewMode(mode: string)
    | RenameFrom(path: string) | RenameTo(path: string)
    | BinaryFiles | BinaryPatch | Unknown

  function Classify(line: string): MetaLine {
    if HasPrefix(line, "diff --git ") then DiffGit
    else if line == "" then Empty
    else if HasPrefix(line, "@@") then At(HasPrefix(line, "@@ "))
    else if HasPrefix(line, "--- ") then Minus(line[4..])
    else if HasPrefix(line, "+++ ") then Plus(line[4..])
    else if HasPrefix(line, "new file mode ") then NewFile(line[14..])
    else if HasPrefix(line, "deleted file mode ") then DeletedFile(line[18..])
    else if HasPrefix(line, "old mode ") then OldMode(line[9..])
    else if HasPrefix(line, "new mode ") then NewMode(line[9..])
    else if HasPrefix(line, "rename from ") then RenameFrom(line[12..])
    else if HasPrefix(line, "rename to ") then RenameTo(line[10..])
    else if HasPrefix(line, "Binary files ") && Index(line, " differ") >= 0 then BinaryFiles
    else if HasPrefix(line, "GIT binary patch") then BinaryPatch
    else Unknown
  }

  function StripPrefix(path: string): string {
    TrimPrefix(TrimPrefix(path, "a/"), "b/")
  }

  const PLAIN: nat := 420
  const EXECUTABLE: nat := 493

  predicate IsMode(mode: string) { mode == "100644" || mode == "100755" }

  function ModeBits(mode: string): nat { if mode == "100755" then EXECUTABLE else PLAIN }

  function TakeMinus(c: FileChange, p: string): FileChange {
    var op := if !c.hasHeader && p == "/dev/null" && c.op == Modify then Create else c.op;
    var path := if !c.hasHeader && c.path == "" && p != "/dev/null" then StripPrefix(p) else c.path;
    c.(originalAPath := p, op := op, path := path)
  }

  function TakePlus(c: FileChange, p: string): FileChange {
    var op := if !c.hasHeader && p == "/dev/null" && c.op == Modify then Delete else c.op;
    var path := if !c.hasHeader && c.path == "" && p != "/dev/null" then StripPrefix(p) else c.path;
    c.(originalBPath := p, op := op, path := path)
  }

  function SkipBinary(rest: seq<string>): (r: seq<string>)
    ensures |r| <= |rest|
  {
    if rest == [] || Classify(TrimCR(rest[0])).DiffGit? || TrimCR(rest[0]) == "" then rest
    else SkipBinary(rest[1..])
  }

  /** What a line other than a marker or a hunk says about the change. */
  function Note(line: MetaLine, c: FileChange): Result<FileChange, ParseError> {
    match line
    case NewFile(mode) => if IsMode(mode) then Ok(c.(op := Create, createMode := ModeBits(mode))) else Err(BadMode)
    case DeletedFile(mode) => if IsMode(mode) then Ok(c.(op := Delete)) else Err(BadMode)
    case RenameFrom(p) => Ok(c.(op := Rename, oldPath := StripPrefix(p), originalAPath := "a/" + StripPrefix(p)))
    case RenameTo(p) => Ok(c.(path := StripPrefix(p), originalBPath := "b/" + StripPrefix(p)))
    case _ => Ok(c)
  }

  /** A line that only says something about the change. */
  predicate IsNote(line: MetaLine) {
    && !line.DiffGit? && !line.Minus? && !line.Plus? && !line.At? && !line.OldMode?
    && !line.BinaryFiles? && !line.BinaryPatch?
  }

  /** An "old mode " line wants a "new mode " line after it; how many lines were taken. */
  function ModePair(from: string, after: seq<string>, c: FileChange): (r: Result<(FileChange, nat), ParseError>)
    ensures r.Ok? ==> 1 <= r.value.1 <= 1 + |after|
  {
    if after == [] || !Classify(TrimCR(after[0])).NewMode? then Ok((c, 1))
    else
      var to := Classify(TrimCR(after[0])).mode;
      if IsMode(from) && IsMode(to) && from != to then Ok((c.(newMode := ModeBits(to)), 2)) else Err(BadMode)
  }

  /** The lines of a file change after its "diff --git " line, if it has one. */
  ghost function Meta(rest: seq<string>, c: FileChange, minus: bool, plus: bool)
    : (r: Result<(FileChange, seq<string>), ParseError>)
    ensures r.Ok? ==> |r.value.1| <= |rest|
    ensures r.Ok? && rest != [] && Classify(TrimCR(rest[0])).Minus? && !minus ==> |r.value.1| < |rest|
    decreases |rest|, 1
  {
    if rest == [] then Ok((c, rest)) else MetaAt(Classify(TrimCR(rest[0])), rest, c, minus, plus)
  }

  /** The same from a line on that has been classified. */
  ghost function MetaAt(line: MetaLine, rest: seq<string>, c: FileChange, minus: bool, plus: bool)
    : (r: Result<(FileChange, seq<string>), ParseError>)
    requires rest != []
    ensures r.Ok? ==> |r.value.1| <= |rest|
    ensures r.Ok? && line.Minus? && !minus ==> |r.value.1| < |rest|
    decreases |rest|, 0
  {
    match line
    case DiffGit => Ok((c, rest))
    case Minus(p) =>
      if !c.hasHeader && minus && plus then Ok((c, rest)) else Meta(rest[1..], TakeMinus(c, p), true, plus)
    case Plus(p) => Meta(rest[1..], TakePlus(c, p), minus, true)
    case At(spaced) =>
      if minus && !plus then Err(MissingHeader)
      else if !spaced then Meta(rest[1..], c, minus, plus)
      else if !minus || !plus then Err(MissingHeader)
      else (
        match ParseHunk(rest, c.hasHeader)
        case Err(e) => Err(e)
        case Ok((h, after)) => Meta(after, c.(hunks := c.hunks + [h]), minus, plus))
    case OldMode(from) => (
      match ModePair(from, rest[1..], c)
      case Err(e) => Err(e)
      case Ok((d, n)) => Meta(rest[n..], d, minus, plus))
    case BinaryFiles => Ok((c.(isBinary := true), rest[1..]))
    case BinaryPatch => Ok((c.(isBinary := true), SkipBinary(rest[1..])))
    case _ => (
      match Note(line, c)
      case Err(e) => Err(e)
      case Ok(d) => Meta(rest[1..], d, minus, plus))
  }

  lemma BinaryPatchLine(rest: seq<string>, c: FileChange, minus: bool, plus: bool)
    requires rest != [] && Classify(TrimCR(rest[0])).BinaryPatch?
    ensures Meta(rest, c, minus, plus) == Ok((c.(isBinary := true), SkipBinary(rest[1..])))
  {
  }

  /** The a/ and b/ paths of a "diff --git " line. */
  function ExtractPaths(line: string): (string, string) {
    var rest := TrimPrefix(line, "diff --git ");
    var split := LastIndex(rest, " b/");
    if !("diff --git " <= line) || split < 0 then ("", "")
    else (TrimPrefix(TrimQuotes(rest[..split]), "a/"), TrimPrefix(TrimQuotes(rest[split + 1..]), "b/"))
  }

  const NO_CHANGE := FileChange(Modify, "", "", [], 0, false, "", "", false, 0)

  /** A change as its "diff --git " line tells it. */
  function Headed(a: string, b: string): FileChange {
    NO_CHANGE.(path := b, originalAPath := a, originalBPath := b, hasHeader := true)
  }

  ghost function ParseFileChange(rest: seq<string>): (r: Result<(FileChange, seq<string>), ParseError>)
    requires rest != [] && (Classify(TrimCR(rest[0])).DiffGit? || Classify(TrimCR(rest[0])).Minus?)
    ensures r.Ok? ==> |r.value.1| < |rest|
  {
    if Classify(TrimCR(rest[0])).DiffGit? then
      var (a, b) := ExtractPaths(TrimCR(rest[0]));
      if a == "" || b == "" then Err(MissingHeader)
      else Meta(rest[1..], Headed(a, b), false, false)
    else Meta(rest, NO_CHANGE, false, false)
  }

  ghost function Changes(rest: seq<string>, read: seq<FileChange>): Result<seq<FileChange>, ParseError>
    decreases |rest|
  {
    if rest == [] then Ok(read)
    else
      var line := Classify(TrimCR(rest[0]));
      if line.DiffGit? || line.Minus? then
        match ParseFileChange(rest)
        case Err(e) => Err(e)
        case Ok((c, after)) => Changes(after, read + [c])
      else if line == At(true) then Err(MissingHeader)
      else Changes(rest[1..], read)
  }

  lemma ChangesTake(rest: seq<string>, read: seq<FileChange>, c: FileChange, after: seq<string>)
    requires rest != [] && (Classify(TrimCR(rest[0])).DiffGit? || Classify(TrimCR(rest[0])).Minus?)
    requires ParseFileChange(rest) == Ok((c, after))
    ensures Changes(rest, read) == Changes(after, read + [c])
  {
  }

  lemma ChangesFail(rest: seq<string>, read: seq<FileChange>, e: ParseError)
    requires rest != [] && (Classify(TrimCR(rest[0])).DiffGit? || Classify(TrimCR(rest[0])).Minus?)
    requires ParseFileChange(rest) == Err(e)
    ensures Changes(rest, read) == Err(e)
  {
  }

  lemma ChangesSkip(rest: seq<string>, read: seq<FileChange>)
    requires rest != [] && !Classify(TrimCR(rest[0])).DiffGit? && !Classify(TrimCR(rest[0])).Minus?
    ensures Changes(rest, read)
         == if Classify(TrimCR(rest[0])) == At(true) then Err(MissingHeader) else Changes(rest[1..], read)
  {
  }

  /** The lines of a text, without a last fragment of white space only. */
  function TextLines(data: string): seq<string> {
    var lines := SplitOn(data, '\n');
    if Blank(lines[|lines| - 1]) then lines[..|lines| - 1] else lines
  }

  ghost function Parse(data: string): Result<seq<FileChange>, ParseError> {
    match Changes(TextLines(data), [])
    case Err(e) => Err(e)
    case Ok(cs) => if cs == [] then Err(MissingHeader) else Ok(cs)
  }
}
