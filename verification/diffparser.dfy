/** The unified-diff parser: a position in the lines, moved forward step by step. */
module DiffParser {
  import opened Prelude
  import opened Strings
  import opened PatchTypes
  import opened DiffSyntax

  /** isVersionLine */
  method LooksLikeVersion(line: string) returns (r: bool)
    ensures r <==> IsVersionLine(line)
  {
    var i := DigitsFrom(line, 0);
    if i == 0 {
      return false;
    }
    ghost var first := i;
    forall k | first < k <= |line| ensures !AllDigits(line[..k]) {
      NotAllDigits(line, first, k);
    }
    var groups := 0;
    while i < |line| && line[i] == '.'
      invariant first <= i <= |line|
      invariant groups == 0 ==> i == first
      invariant groups > 0 ==> first < |line| - 1 && line[first] == '.' && IsDigit(line[first + 1])
    {
      var end := DigitsFrom(line, i + 1);
      if end == i + 1 {
        break;
      }
      groups := groups + 1;
      i := end;
    }
    assert AllDigits(line[..first]);
    return groups > 0;
  }

  lemma NotAllDigits(line: string, i: nat, k: nat)
    requires i < k <= |line| && !IsDigit(line[i])
    ensures !AllDigits(line[..k])
  {
    assert line[..k][i] == line[i];
  }

  method DigitsFrom(line: string, start: nat) returns (i: nat)
    requires start <= |line|
    ensures start <= i <= |line| && (forall k :: start <= k < i ==> IsDigit(line[k]))
    ensures i < |line| ==> !IsDigit(line[i])
  {
    i := start;
    while i < |line| && IsDigit(line[i])
      invariant start <= i <= |line| && forall k :: start <= k < i ==> IsDigit(line[k])
    {
      i := i + 1;
    }
  }

  /** The loop of signatureAt, with `found` lines found so far. */
  ghost predicate SignatureLeft(found: nat, rest: seq<string>)
    decreases rest
  {
    if rest == [] then found == 1
    else if TrimCR(rest[0]) == "" then SignatureLeft(found, rest[1..])
    else IsVersionLine(TrimCR(rest[0])) && SignatureLeft(found + 1, rest[1..])
  }

  lemma {:induction false} SignatureLeftIs(found: nat, rest: seq<string>)
    ensures SignatureLeft(found, rest)
       <==> found + |NonEmpty(rest)| == 1 && (NonEmpty(rest) != [] ==> IsVersionLine(NonEmpty(rest)[0]))
    decreases rest
  {
    if rest != [] {
      var line := TrimCR(rest[0]);
      SignatureLeftIs(if line == "" then found else found + 1, rest[1..]);
    }
  }

  lemma OldModeLine(rest: seq<string>, from: string, c: FileChange, minus: bool, plus: bool)
    requires rest != [] && Classify(TrimCR(rest[0])) == OldMode(from)
    ensures match ModePair(from, rest[1..], c)
            case Err(e) => Meta(rest, c, minus, plus) == Err(e)
            case Ok((d, n)) => Meta(rest, c, minus, plus) == Meta(rest[n..], d, minus, plus)
  {
  }

  lemma TwoModes(from: string, to: string)
    ensures (from == "100644" && to == "100755") || (from == "100755" && to == "100644")
            <==> IsMode(from) && IsMode(to) && from != to
  {
    assert "100644"[3] != "100755"[3];
  }

  class Parser {
    const lines: seq<string>
    var pos: nat

    constructor (lines: seq<string>)
      ensures this.lines == lines && pos == 0
    {
      this.lines := lines;
      pos := 0;
    }

    ghost predicate Valid()
      reads this
    {
      pos <= |lines|
    }

    /** The lines not yet read. */
    ghost function Rest(): seq<string>
      requires Valid()
      reads this
    {
      lines[pos..]
    }

    /** signatureAt */
    method SignatureFrom(start: nat) returns (r: bool)
      requires start <= |lines|
      ensures r <==> SignatureAt(lines[start..])
    {
      var found := 0;
      SignatureLeftIs(0, lines[start..]);
      for i := start to |lines|
        invariant SignatureLeft(0, lines[start..]) == SignatureLeft(found, lines[i..])
      {
        var line := TrimCR(lines[i]);
        assert lines[i..][1..] == lines[i + 1..];
        if line != "" {
          found := found + 1;
          var version := LooksLikeVersion(line);
          if !version {
            return false;
          }
        }
      }
      return found == 1;
    }

    /** hunkEndsAt */
    method HunkEndsAt(i: nat, st: HunkState) returns (r: bool)
      requires i <= |lines|
      ensures r <==> HunkEnds(lines[i..], st)
    {
      if i >= |lines| {
        return true;
      }
      var line := TrimCR(lines[i]);
      assert lines[i..][1..] == lines[i + 1..];
      if "@@" <= line || "diff --git " <= line {
        return true;
      }
      if line == "-- " && st.oldCount >= st.declOld && st.newCount >= st.declNew {
        var signature := SignatureFrom(i + 1);
        if signature {
          return true;
        }
      }
      if "--- " <= line && i + 2 < |lines| && "+++ " <= TrimCR(lines[i + 1]) && "@@" <= TrimCR(lines[i + 2]) {
        if st.hasHeader {
          return false;
        }
        return st.oldCount >= st.declOld && st.newCount >= st.declNew;
      }
      return false;
    }

    /** bodyFollowsAt */
    method BodyFollowsAt(start: nat, st: HunkState) returns (r: bool)
      requires start <= |lines|
      ensures r <==> BodyFollows(lines[start..], st)
    {
      var i := start;
      while i < |lines|
        invariant start <= i <= |lines|
        invariant BodyFollows(lines[start..], st) == BodyFollows(lines[i..], st)
      {
        var ends := HunkEndsAt(i, st);
        if ends {
          return false;
        }
        var line := TrimCR(lines[i]);
        assert lines[i..][1..] == lines[i + 1..];
        if line != "" && IsBodyChar(line[0]) {
          return true;
        }
        i := i + 1;
      }
      return false;
    }

    /** bodyContinuesAt */
    method BodyContinuesAt(start: nat, given: HunkState) returns (r: bool)
      requires start <= |lines|
      ensures r <==> BodyContinues(lines[start..], given)
    {
      var st := given;
      var i := start;
      while i < |lines|
        invariant start <= i <= |lines|
        invariant BodyContinues(lines[start..], given) == BodyContinues(lines[i..], st)
      {
        var line := TrimCR(lines[i]);
        assert lines[i..][1..] == lines[i + 1..];
        if line != "" {
          var ends := HunkEndsAt(i, st);
          return !ends && IsBodyChar(line[0]);
        }
        st := st.Count(1, 1);
        i := i + 1;
      }
      return false;
    }

    /** The prefix and the content of a body line, which keeps the CR it had. */
    method SplitLine(rawLine: string) returns (prefix: char, content: string)
      requires TrimCR(rawLine) != ""
      ensures prefix == rawLine[0] == TrimCR(rawLine)[0] && content == rawLine[1..]
    {
      var trimmedLine := TrimCR(rawLine);
      prefix, content := trimmedLine[0], "";
      if |trimmedLine| > 1 {
        content := trimmedLine[1..];
      }
      if |rawLine| > |trimmedLine| {
        content := content + "\r";
      }
    }

    /** One turn of the body loop of parseHunk; false when the body ends here. */
    method ReadBodyLine(given: HunkState, before: seq<HunkLine>)
      returns (r: Result<bool, ParseError>, st: HunkState, read: seq<HunkLine>)
      requires Valid() && pos < |lines|
      modifies this`pos
      ensures Valid() && pos >= old(pos)
      ensures r == Ok(true) ==> pos > old(pos) && ScanBody(old(Rest()), given, before) == ScanBody(Rest(), st, read)
      ensures r == Ok(false) ==> ScanBody(old(Rest()), given, before) == Ok(Body(read, st, Rest()))
      ensures r.Err? ==> ScanBody(old(Rest()), given, before) == Err(r.error)
    {
      st, read := given, before;
      var rawLine := lines[pos];
      assert Rest()[1..] == lines[pos + 1..];
      var ends := HunkEndsAt(pos, st);
      if ends {
        return Ok(false), st, read;
      }
      if TrimCR(rawLine) == "" {
        var continues := BodyContinuesAt(pos, st);
        if !continues {
          return Ok(false), st, read;
        }
        var content := if |rawLine| > 0 then "\r" else "";
        assert content == rawLine;
        st, read, pos := st.Count(1, 1), read + [HunkLine(' ', content)], pos + 1;
        return Ok(true), st, read;
      }
      if "\\ " + NO_NEWLINE <= TrimCR(rawLine) {
        read, pos := read + [HunkLine('\\', NO_NEWLINE)], pos + 1;
        return Ok(true), st, read;
      }
      var prefix, content := SplitLine(rawLine);
      match prefix {
        case ' ' => st, read, pos := st.Count(1, 1), read + [HunkLine(' ', content)], pos + 1;
        case '+' => st, read, pos := st.Count(0, 1), read + [HunkLine('+', content)], pos + 1;
        case '-' => st, read, pos := st.Count(1, 0), read + [HunkLine('-', content)], pos + 1;
        case '\\' => pos := pos + 1;
        case _ =>
          var follows := BodyFollowsAt(pos + 1, st);
          if follows {
            return Err(HunkCountMismatch), st, read;
          }
          return Ok(false), st, read;
      }
      r := Ok(true);
    }

    /** The body loop of parseHunk. */
    method ReadBody(given: HunkState) returns (r: Result<(seq<HunkLine>, int, int), ParseError>)
      requires Valid()
      modifies this`pos
      ensures Valid() && pos >= old(pos)
      ensures match ScanBody(old(Rest()), given, [])
              case Err(e) => r == Err(e)
              case Ok(body) => r == Ok((body.lines, body.st.oldCount, body.st.newCount)) && Rest() == body.rest
    {
      var read: seq<HunkLine>, st := [], given;
      while pos < |lines|
        invariant Valid() && pos >= old(pos)
        invariant ScanBody(old(Rest()), given, []) == ScanBody(Rest(), st, read)
        decreases |lines| - pos
      {
        var more;
        more, st, read := ReadBodyLine(st, read);
        if more.Err? {
          return Err(more.error);
        }
        if !more.value {
          return Ok((read, st.oldCount, st.newCount));
        }
      }
      r := Ok((read, st.oldCount, st.newCount));
    }

    /** parseHunk */
    method ReadHunk(hasHeader: bool) returns (r: Result<Hunk, ParseError>)
      requires Valid() && pos < |lines|
      modifies this`pos
      ensures Valid() && pos > old(pos)
      ensures match ParseHunk(old(Rest()), hasHeader)
              case Err(e) => r == Err(e)
              case Ok((h, rest)) => r == Ok(h) && Rest() == rest
    {
      var ranges := ParseHunkHeader(TrimCR(lines[pos]));
      assert Rest()[1..] == lines[pos + 1..];
      pos := pos + 1;
      if ranges.None? {
        return Err(HunkCountMismatch);
      }
      var ((oldStart, oldLines), (newStart, newLines)) := ranges.value;
      var body := ReadBody(HunkState(hasHeader, oldLines, newLines, 0, 0));
      if body.Err? {
        return Err(body.error);
      }
      var (read, oldCount, newCount) := body.value;
      if oldCount == 0 && newCount == 0 {
        return Err(HunkCountMismatch);
      }
      r := Ok(Hunk(oldStart, oldCount, newStart, newCount, read));
    }

    method SkipBinaryData()
      requires Valid()
      modifies this`pos
      ensures Valid() && pos >= old(pos) && Rest() == SkipBinary(old(Rest()))
    {
      while pos < |lines| && !Classify(TrimCR(lines[pos])).DiffGit? && TrimCR(lines[pos]) != ""
        invariant Valid() && pos >= old(pos) && SkipBinary(old(Rest())) == SkipBinary(Rest())
      {
        assert Rest()[1..] == lines[pos + 1..];
        pos := pos + 1;
      }
    }

    /** A line that is not a marker, a hunk, a mode pair or a binary patch. */
    method NoteLine(line: MetaLine, c: FileChange) returns (r: Result<FileChange, ParseError>)
      ensures r == Note(line, c)
    {
      match line {
        case NewFile(mode) =>
          if mode != "100644" && mode != "100755" {
            return Err(BadMode);
          }
          return Ok(c.(op := Create, createMode := ModeBits(mode)));
        case DeletedFile(mode) =>
          if mode != "100644" && mode != "100755" {
            return Err(BadMode);
          }
          return Ok(c.(op := Delete));
        case RenameFrom(path) =>
          var from := StripPrefix(path);
          return Ok(c.(op := Rename, oldPath := from, originalAPath := "a/" + from));
        case RenameTo(path) =>
          var to := StripPrefix(path);
          return Ok(c.(path := to, originalBPath := "b/" + to));
        case _ => return Ok(c);
      }
    }

    /** A line that starts with "@@". */
    method TakeHunk(change: FileChange, seenMinusLine: bool, seenPlusLine: bool)
      returns (r: Result<FileChange, ParseError>)
      requires Valid() && pos < |lines| && Classify(TrimCR(lines[pos])).At?
      modifies this`pos
      ensures Valid() && pos >= old(pos)
      ensures r.Ok? ==>
        pos > old(pos)
        && Meta(old(Rest()), change, seenMinusLine, seenPlusLine) == Meta(Rest(), r.value, seenMinusLine, seenPlusLine)
      ensures r.Err? ==> Meta(old(Rest()), change, seenMinusLine, seenPlusLine) == Err(r.error)
    {
      assert Rest()[1..] == lines[pos + 1..];
      if seenMinusLine && !seenPlusLine {
        return Err(MissingHeader);
      }
      if !Classify(TrimCR(lines[pos])).spaced {
        pos := pos + 1;
        return Ok(change);
      }
      if !seenMinusLine || !seenPlusLine {
        return Err(MissingHeader);
      }
      var hunk := ReadHunk(change.hasHeader);
      if hunk.Err? {
        return Err(hunk.error);
      }
      r := Ok(change.(hunks := change.hunks + [hunk.value]));
    }

    method ReadModes(change: FileChange, oldMode: string) returns (r: Result<FileChange, ParseError>)
      requires Valid() && pos < |lines|
      modifies this`pos
      ensures Valid() && pos > old(pos)
      ensures match ModePair(oldMode, old(lines[pos + 1..]), change)
              case Err(e) => r == Err(e)
              case Ok((c, n)) => r == Ok(c) && pos == old(pos) + n
    {
      pos := pos + 1;
      if pos >= |lines| || !Classify(TrimCR(lines[pos])).NewMode? {
        return Ok(change);
      }
      var newMode := Classify(TrimCR(lines[pos])).mode;
      pos := pos + 1;
      TwoModes(oldMode, newMode);
      if !((oldMode == "100644" && newMode == "100755") || (oldMode == "100755" && newMode == "100644")) {
        return Err(BadMode);
      }
      r := Ok(change.(newMode := ModeBits(newMode)));
    }

    /** An "old mode " line, which wants a "new mode " line after it. */
    method TakeModes(change: FileChange, ghost minus: bool, ghost plus: bool)
      returns (r: Result<FileChange, ParseError>)
      requires Valid() && pos < |lines| && Classify(TrimCR(lines[pos])).OldMode?
      modifies this`pos
      ensures Valid() && pos >= old(pos)
      ensures r.Ok? ==> pos > old(pos) && Meta(old(Rest()), change, minus, plus) == Meta(Rest(), r.value, minus, plus)
      ensures r.Err? ==> Meta(old(Rest()), change, minus, plus) == Err(r.error)
    {
      ghost var rest := Rest();
      var oldMode := Classify(TrimCR(lines[pos])).mode;
      assert rest[0] == lines[pos] && rest[1..] == lines[pos + 1..];
      OldModeLine(rest, oldMode, change, minus, plus);
      r := ReadModes(change, oldMode);
      assert Rest() == rest[pos - old(pos)..];
    }

    /** Any other line that does not end the change. */
    method TakeNote(change: FileChange, seenMinusLine: bool, seenPlusLine: bool)
      returns (r: Result<FileChange, ParseError>)
      requires Valid() && pos < |lines| && IsNote(Classify(TrimCR(lines[pos])))
      modifies this`pos
      ensures Valid() && pos >= old(pos)
      ensures r.Ok? ==>
        pos > old(pos)
        && Meta(old(Rest()), change, seenMinusLine, seenPlusLine) == Meta(Rest(), r.value, seenMinusLine, seenPlusLine)
      ensures r.Err? ==> Meta(old(Rest()), change, seenMinusLine, seenPlusLine) == Err(r.error)
    {
      assert Rest()[1..] == lines[pos + 1..];
      r := NoteLine(Classify(TrimCR(lines[pos])), change);
      pos := pos + 1;
    }

    /** A "--- " or "+++ " line that belongs to the change. */
    method TakeMarker(change: FileChange, seenMinusLine: bool, seenPlusLine: bool)
      returns (c: FileChange, minus: bool, plus: bool)
      requires Valid() && pos < |lines|
      requires
        Classify(TrimCR(lines[pos])).Plus?
        || (Classify(TrimCR(lines[pos])).Minus? && !(!change.hasHeader && seenMinusLine && seenPlusLine))
      modifies this`pos
      ensures Valid() && pos > old(pos)
      ensures Meta(old(Rest()), change, seenMinusLine, seenPlusLine) == Meta(Rest(), c, minus, plus)
    {
      assert Rest()[1..] == lines[pos + 1..];
      c, minus, plus := change, seenMinusLine, seenPlusLine;
      match Classify(TrimCR(lines[pos])) {
        case Minus(path) => c, minus := TakeMinus(change, path), true;
        case Plus(path) => c, plus := TakePlus(change, path), true;
      }
      pos := pos + 1;
    }

    /** A binary patch and its data end the change. */
    method TakeBinaryPatch(change: FileChange, ghost minus: bool, ghost plus: bool) returns (c: FileChange)
      requires Valid() && pos < |lines| && Classify(TrimCR(lines[pos])).BinaryPatch?
      modifies this`pos
      ensures Valid() && pos >= old(pos)
      ensures Meta(old(Rest()), change, minus, plus) == Ok((c, Rest()))
    {
      ghost var rest := Rest();
      assert rest[1..] == lines[pos + 1..];
      BinaryPatchLine(rest, change, minus, plus);
      c := change.(isBinary := true);
      pos := pos + 1;
      SkipBinaryData();
    }

    /** A binary marker ends the change. */
    method TakeBinaryFiles(change: FileChange, ghost minus: bool, ghost plus: bool) returns (c: FileChange)
      requires Valid() && pos < |lines| && Classify(TrimCR(lines[pos])).BinaryFiles?
      modifies this`pos
      ensures Valid() && pos >= old(pos)
      ensures Meta(old(Rest()), change, minus, plus) == Ok((c, Rest()))
    {
      assert Rest()[1..] == lines[pos + 1..];
      pos := pos + 1;
      c := change.(isBinary := true);
    }

    /** The metadata loop of parseFileChange. */
    method ReadMeta(given: FileChange) returns (r: Result<FileChange, ParseError>)
      requires Valid()
      modifies this`pos
      ensures Valid() && pos >= old(pos)
      ensures r.Ok? ==> Meta(old(Rest()), given, false, false) == Ok((r.value, Rest()))
      ensures r.Err? ==> Meta(old(Rest()), given, false, false) == Err(r.error)
    {
      var change, seenMinusLine, seenPlusLine := given, false, false;
      ghost var target := Meta(Rest(), given, false, false);
      while pos < |lines|
        invariant Valid() && pos >= old(pos)
        invariant target == Meta(Rest(), change, seenMinusLine, seenPlusLine)
        decreases |lines| - pos
      {
        var line := Classify(TrimCR(lines[pos]));
        if line.DiffGit? || (line.Minus? && !change.hasHeader && seenMinusLine && seenPlusLine) {
          return Ok(change);
        }
        if line.BinaryFiles? {
          change := TakeBinaryFiles(change, seenMinusLine, seenPlusLine);
          return Ok(change);
        }
        if line.BinaryPatch? {
          change := TakeBinaryPatch(change, seenMinusLine, seenPlusLine);
          return Ok(change);
        }
        if line.Minus? || line.Plus? {
          change, seenMinusLine, seenPlusLine := TakeMarker(change, seenMinusLine, seenPlusLine);
        } else {
          var taken;
          if line.At? {
            taken := TakeHunk(change, seenMinusLine, seenPlusLine);
          } else if line.OldMode? {
            taken := TakeModes(change, seenMinusLine, seenPlusLine);
          } else {
            taken := TakeNote(change, seenMinusLine, seenPlusLine);
          }
          if taken.Err? {
            return Err(taken.error);
          }
          change := taken.value;
        }
      }
      r := Ok(change);
    }

    /** parseFileChange */
    method ReadFileChange() returns (r: Result<FileChange, ParseError>)
      requires Valid() && pos < |lines|
      requires Classify(TrimCR(lines[pos])).DiffGit? || Classify(TrimCR(lines[pos])).Minus?
      modifies this`pos
      ensures Valid()
      ensures r.Ok? ==> pos > old(pos) && ParseFileChange(old(Rest())) == Ok((r.value, Rest()))
      ensures r.Err? ==> ParseFileChange(old(Rest())) == Err(r.error)
    {
      assert Rest()[1..] == lines[pos + 1..];
      if Classify(TrimCR(lines[pos])).DiffGit? {
        var (aPath, bPath) := ExtractPaths(TrimCR(lines[pos]));
        pos := pos + 1;
        if aPath == "" || bPath == "" {
          return Err(MissingHeader);
        }
        r := ReadMeta(Headed(aPath, bPath));
      } else {
        r := ReadMeta(NO_CHANGE);
      }
    }

    /** One turn of the loop of parse: a file change, or a line between two. */
    method ReadChange(changes: seq<FileChange>) returns (r: Result<seq<FileChange>, ParseError>)
      requires Valid() && pos < |lines|
      modifies this`pos
      ensures Valid()
      ensures r.Ok? ==> pos > old(pos) && Changes(old(Rest()), changes) == Changes(Rest(), r.value)
      ensures r.Err? ==> Changes(old(Rest()), changes) == Err(r.error)
    {
      ghost var rest := Rest();
      assert rest[0] == lines[pos] && rest[1..] == lines[pos + 1..];
      var line := Classify(TrimCR(lines[pos]));
      if line.DiffGit? || line.Minus? {
        var change := ReadFileChange();
        if change.Err? {
          ChangesFail(rest, changes, change.error);
          return Err(change.error);
        }
        ChangesTake(rest, changes, change.value, Rest());
        r := Ok(changes + [change.value]);
      } else {
        ChangesSkip(rest, changes);
        pos := pos + 1;
        r := if line == At(true) then Err(MissingHeader) else Ok(changes);
      }
    }

    /** parse: every file change of the lines, in order. */
    method ReadChanges() returns (r: Result<seq<FileChange>, ParseError>)
      requires Valid()
      modifies this`pos
      ensures r == Changes(old(Rest()), [])
    {
      var changes: seq<FileChange> := [];
      ghost var target := Changes(Rest(), []);
      while pos < |lines|
        invariant Valid() && target == Changes(Rest(), changes)
        decreases |lines| - pos
      {
        var next := ReadChange(changes);
        if next.Err? {
          return next;
        }
        changes := next.value;
      }
      r := Ok(changes);
    }
  }

  /** Parse */
  method ParseDiff(data: string) returns (r: Result<seq<FileChange>, ParseError>)
    ensures r == Parse(data)
  {
    var p := new Parser(TextLines(data));
    assert p.Rest() == TextLines(data);
    var changes := p.ReadChanges();
    if changes.Ok? && |changes.value| == 0 {
      return Err(MissingHeader);
    }
    r := changes;
  }
}
