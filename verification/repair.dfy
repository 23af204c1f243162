/** Opening a log after a crash: repairing its end, and replaying what is left. */
module LogRepair {
  import opened Prelude
  import opened Strings
  import opened SessionLog

  /** What a trimmed line is to the reader. */
  datatype Item = Torn | NotAnEvent | BadEvent | Event(line: Line)

  /** bytes.TrimSpace */
  function Trimmed(s: string): string {
    if s != "" && IsSpace(s[0]) then Trimmed(s[1..])
    else if s != "" && IsSpace(s[|s| - 1]) then Trimmed(s[..|s| - 1])
    else s
  }

  /** The length of the first line, with its newline. */
  function FirstLine(s: string): (n: nat)
    requires s != ""
    ensures 0 < n <= |s|
  {
    if s[0] == '\n' || |s| == 1 then 1 else 1 + FirstLine(s[1..])
  }

  /** The lines of a file, each with its newline, the last perhaps without. */
  function RawLines(s: string): seq<string>
    decreases |s|
  {
    if s == "" then [] else [s[..FirstLine(s)]] + RawLines(s[FirstLine(s)..])
  }

  // --------------------------------------------------------------- repair

  predicate Good(decode: string -> Item, line: string) {
    Trimmed(line) == "" || decode(Trimmed(line)) != Torn
  }

  /** The lines up to the last good one. */
  function UpToGood(decode: string -> Item, lines: seq<string>): seq<string> {
    if lines == [] || Good(decode, lines[|lines| - 1]) then lines else UpToGood(decode, lines[..|lines| - 1])
  }

  function Repaired(decode: string -> Item, file: string): string {
    Concat(UpToGood(decode, RawLines(file)))
  }

  /** What the loop of repairSession knows: the lines read, and those up to the last good one. */
  ghost predicate ReadSoFar(decode: string -> Item, file: string, offset: nat, lastGood: nat, lines: seq<string>) {
    && lastGood <= offset <= |file|
    && RawLines(file) == lines + RawLines(file[offset..])
    && Concat(lines) == file[..offset] && Concat(UpToGood(decode, lines)) == file[..lastGood]
  }

  lemma ReadOneMore(decode: string -> Item, file: string, offset: nat, lastGood: nat, lines: seq<string>)
    requires ReadSoFar(decode, file, offset, lastGood, lines) && offset < |file|
    ensures var n := FirstLine(file[offset..]);
      var line := file[offset..][..n];
      ReadSoFar(decode, file, offset + n, if Good(decode, line) then offset + n else lastGood, lines + [line])
  {
    var rest := file[offset..];
    var n := FirstLine(rest);
    var line := rest[..n];
    ConcatSnoc(lines, line);
    assert file[..offset] + line == file[..offset + n];
    assert RawLines(rest) == [line] + RawLines(file[offset + n..]) by {
      assert rest[n..] == file[offset + n..];
    }
    Assoc(lines, [line], RawLines(file[offset + n..]));
    GoodSnoc(decode, lines, line);
  }

  lemma GoodSnoc(decode: string -> Item, lines: seq<string>, line: string)
    ensures UpToGood(decode, lines + [line]) == if Good(decode, line) then lines + [line] else UpToGood(decode, lines)
  {
    assert (lines + [line])[..|lines|] == lines;
  }

  /** repairSession: truncate after the last good line. */
  method RepairSession(decode: string -> Item, file: string) returns (repaired: string, recovered: bool)
    ensures repaired == Repaired(decode, file) && repaired <= file
    ensures recovered <==> repaired != file
  {
    var offset, lastGood := 0, 0;
    ghost var lines: seq<string> := [];
    NothingRead(decode, file);
    while offset < |file|
      invariant ReadSoFar(decode, file, offset, lastGood, lines)
      decreases |file| - offset
    {
      ReadOneMore(decode, file, offset, lastGood, lines);
      var n := FirstLine(file[offset..]);
      var line := file[offset..][..n];
      var trimmed := Trimmed(line);
      if |trimmed| == 0 || decode(trimmed) != Torn {
        lastGood := offset + n;
      }
      lines := lines + [line];
      offset := offset + n;
    }
    AllRead(decode, file, lastGood, lines);
    repaired, recovered := file[..lastGood], lastGood < |file|;
  }

  lemma NothingRead(decode: string -> Item, file: string)
    ensures ReadSoFar(decode, file, 0, 0, [])
  {
    assert file[0..] == file && [] + RawLines(file) == RawLines(file) && file[..0] == "";
  }

  lemma AllRead(decode: string -> Item, file: string, lastGood: nat, lines: seq<string>)
    requires ReadSoFar(decode, file, |file|, lastGood, lines)
    ensures Repaired(decode, file) == file[..lastGood]
  {
    assert lines + [] == lines;
  }

  // ------------------------------------------------------- lines of a prefix

  /** Lines as RawLines gives them: only the last can lack its newline. */
  ghost predicate AreRaw(lines: seq<string>) {
    lines == [] || (lines[0] != "" && FirstLine(lines[0]) == |lines[0]|
                    && (|lines| > 1 ==> lines[0][|lines[0]| - 1] == '\n') && AreRaw(lines[1..]))
  }

  lemma {:induction false} FirstLineConcat(line: string, rest: string)
    requires line != "" && FirstLine(line) == |line| && (rest == "" || line[|line| - 1] == '\n')
    ensures FirstLine(line + rest) == |line|
  {
    if rest == "" {
      assert line + rest == line;
    } else if |line| > 1 {
      assert (line + rest)[1..] == line[1..] + rest;
      assert line[1..][|line| - 2] == line[|line| - 1];
      FirstLineConcat(line[1..], rest);
    }
  }

  lemma {:induction false} RawLinesOfConcat(lines: seq<string>)
    requires AreRaw(lines)
    ensures RawLines(Concat(lines)) == lines
  {
    if lines != [] {
      var rest := Concat(lines[1..]);
      RawLinesOfConcat(lines[1..]);
      assert |lines| == 1 ==> rest == "";
      FirstLineConcat(lines[0], rest);
      assert (lines[0] + rest)[..|lines[0]|] == lines[0] && (lines[0] + rest)[|lines[0]|..] == rest;
    }
  }

  lemma {:induction false} FirstLineEnds(s: string)
    requires s != ""
    ensures var n := FirstLine(s);
      FirstLine(s[..n]) == n && (n < |s| ==> s[n - 1] == '\n')
  {
    var n := FirstLine(s);
    if n > 1 {
      FirstLineEnds(s[1..]);
      assert s[..n][1..] == s[1..][..n - 1];
    }
  }

  lemma AreRawCons(line: string, lines: seq<string>)
    requires line != "" && FirstLine(line) == |line| && AreRaw(lines)
    requires lines != [] ==> line[|line| - 1] == '\n'
    ensures AreRaw([line] + lines)
  {
    assert ([line] + lines)[1..] == lines;
  }

  lemma {:induction false} RawLinesAreRaw(s: string)
    ensures AreRaw(RawLines(s)) && Concat(RawLines(s)) == s
    decreases |s|
  {
    if s != "" {
      var n := FirstLine(s);
      var line, rest := s[..n], s[n..];
      assert line + rest == s;
      FirstLineEnds(s);
      RawLinesAreRaw(rest);
      var lines := RawLines(rest);
      assert RawLines(s) == [line] + lines;
      assert line[n - 1] == s[n - 1] && (rest == "" <==> lines == []);
      AreRawCons(line, lines);
      ConcatCons(line, lines);
    }
  }

  lemma {:induction false} RawPrefix(lines: seq<string>, k: nat)
    requires AreRaw(lines) && k <= |lines|
    ensures AreRaw(lines[..k])
  {
    if k > 0 {
      RawPrefix(lines[1..], k - 1);
      assert lines[..k][1..] == lines[1..][..k - 1];
    }
  }

  lemma {:induction false} GoodPrefix(decode: string -> Item, lines: seq<string>)
    ensures var kept := UpToGood(decode, lines);
      && kept <= lines && UpToGood(decode, kept) == kept
  {
    if lines != [] && !Good(decode, lines[|lines| - 1]) {
      GoodPrefix(decode, lines[..|lines| - 1]);
    }
  }

  /** On any file at all, repairing twice is repairing once. */
  lemma RepairIsIdempotent(decode: string -> Item, file: string)
    ensures Repaired(decode, Repaired(decode, file)) == Repaired(decode, file)
  {
    var lines := RawLines(file);
    var kept := UpToGood(decode, lines);
    RawLinesAreRaw(file);
    GoodPrefix(decode, lines);
    assert kept == lines[..|kept|];
    RawPrefix(lines, |kept|);
    RawLinesOfConcat(kept);
  }

  // --------------------------------------------------------------- resume

  /** The events Resume gets to see; None is an event that cannot be decoded. */
  function Decoded(decode: string -> Item, lines: seq<string>): Option<seq<Line>> {
    if lines == [] then Some([])
    else if Trimmed(lines[0]) == "" then Decoded(decode, lines[1..])
    else
      match decode(Trimmed(lines[0]))
      case Torn => Some([])
      case NotAnEvent => Some([])
      case BadEvent => None
      case Event(line) =>
        match Decoded(decode, lines[1..])
        case None => None
        case Some(more) => Some([line] + more)
  }

  /** Resume, on the text of a log. */
  function Resumed(decode: string -> Item, file: string): Option<Reading> {
    match Decoded(decode, RawLines(file))
    case None => None
    case Some(lines) => Read(NOTHING_READ, lines)
  }

  /** What the store writes for one event: an object, of which no proper prefix is an object,
      and which is torn when another line follows it without a newline. */
  ghost predicate WholeLine(decode: string -> Item, p: string) {
    && p != "" && '\n' !in p && !IsSpace(p[0]) && !IsSpace(p[|p| - 1])
    && decode(p).Event?
    && (forall i :: 0 < i < |p| ==> decode(p[..i]) == Torn)
  }

  ghost predicate WholeLines(decode: string -> Item, ls: seq<string>) {
    ls == [] || (WholeLine(decode, ls[0]) && WholeLines(decode, ls[1..]))
  }

  function EventsOf(decode: string -> Item, ls: seq<string>): seq<Line> {
    if ls == [] then []
    else
      var item := decode(ls[0]);
      (if item.Event? then [item.line] else []) + EventsOf(decode, ls[1..])
  }

  lemma {:induction false} TrimmedPrefix(p: string, j: nat) returns (i: nat)
    requires 0 < j <= |p| && !IsSpace(p[0])
    ensures 0 < i <= j && Trimmed(p[..j]) == p[..i]
  {
    i := j;
    if IsSpace(p[j - 1]) {
      assert p[..j][..j - 1] == p[..j - 1];
      i := TrimmedPrefix(p, j - 1);
    }
  }

  lemma {:induction false} NoNewlineIsOneLine(p: string)
    requires p != "" && '\n' !in p
    ensures FirstLine(p) == |p| && FirstLine(p + "\n") == |p| + 1
  {
    assert p[0] in p;
    if |p| > 1 {
      NoNewlineIsOneLine(p[1..]);
      assert (p + "\n")[1..] == p[1..] + "\n";
    } else {
      assert (p + "\n")[1..] == "\n";
    }
  }

  /** The lines of whole lines with something after them. */
  lemma {:induction false} RawLinesOfText(decode: string -> Item, ls: seq<string>, tail: string)
    requires WholeLines(decode, ls)
    ensures RawLines(Unlines(ls) + tail) == Ended(ls) + RawLines(tail)
  {
    if ls == [] {
      assert Unlines(ls) + tail == tail;
    } else {
      var line, rest := ls[0] + "\n", Unlines(ls[1..]) + tail;
      assert Unlines(ls) + tail == line + rest;
      NoNewlineIsOneLine(ls[0]);
      FirstLineConcat(line, rest);
      assert (line + rest)[..|line|] == line && (line + rest)[|line|..] == rest;
      RawLinesOfText(decode, ls[1..], tail);
      assert [line] + (Ended(ls[1..]) + RawLines(tail)) == [line] + Ended(ls[1..]) + RawLines(tail);
    }
  }

  function Ended(ls: seq<string>): seq<string> {
    if ls == [] then [] else [ls[0] + "\n"] + Ended(ls[1..])
  }

  function WithEvents(events: seq<Line>, more: Option<seq<Line>>): Option<seq<Line>> {
    match more
    case None => None
    case Some(rest) => Some(events + rest)
  }

  lemma DecodedCons(decode: string -> Item, p: string, lines: seq<string>)
    requires WholeLine(decode, p)
    ensures Decoded(decode, [p + "\n"] + lines) == WithEvents([decode(p).line], Decoded(decode, lines))
  {
    TrimmedLine(p);
    assert ([p + "\n"] + lines)[1..] == lines;
  }

  lemma {:induction false} DecodedWhole(decode: string -> Item, ls: seq<string>, more: seq<string>)
    requires WholeLines(decode, ls)
    ensures Decoded(decode, Ended(ls) + more) == WithEvents(EventsOf(decode, ls), Decoded(decode, more))
  {
    var after := Decoded(decode, more);
    if ls == [] {
      assert Ended(ls) + more == more;
      assert after.Some? ==> [] + after.value == after.value;
    } else {
      DecodedWhole(decode, ls[1..], more);
      assert Ended(ls) + more == [ls[0] + "\n"] + (Ended(ls[1..]) + more);
      DecodedCons(decode, ls[0], Ended(ls[1..]) + more);
      EventsAssoc([decode(ls[0]).line], EventsOf(decode, ls[1..]), after);
    }
  }

  lemma EventsAssoc(a: seq<Line>, b: seq<Line>, more: Option<seq<Line>>)
    ensures WithEvents(a, WithEvents(b, more)) == WithEvents(a + b, more)
  {
    if more.Some? {
      assert a + (b + more.value) == a + b + more.value;
    }
  }

  // -------------------------------------------------------- crash prefixes

  /** Every cut of a log is some whole lines and a prefix of the next, without its newline. */
  lemma {:induction false} EveryCut(ls: seq<string>, c: nat) returns (k: nat, j: nat)
    requires c <= |Unlines(ls)|
    ensures k <= |ls| && j <= (if k < |ls| then |ls[k]| else 0)
    ensures Unlines(ls)[..c] == Unlines(ls[..k]) + (if k < |ls| then ls[k][..j] else "")
  {
    if ls == [] {
      k, j := 0, 0;
      assert Unlines(ls)[..c] == Unlines(ls[..k]) + "";
    } else if c <= |ls[0]| {
      k, j := 0, c;
      assert Unlines(ls)[..c] == ls[0][..c];
      assert ls[..0] == [];
    } else {
      var line := ls[0] + "\n";
      k, j := EveryCut(ls[1..], c - |line|);
      assert Unlines(ls) == line + Unlines(ls[1..]);
      assert Unlines(ls)[..c] == line + Unlines(ls[1..])[..c - |line|];
      assert ls[..k + 1] == [ls[0]] + ls[1..][..k] && ls[..k + 1][1..] == ls[1..][..k];
      assert Unlines(ls[..k + 1]) == line + Unlines(ls[1..][..k]);
      k := k + 1;
    }
  }

  lemma {:induction false} WholePrefix(decode: string -> Item, ls: seq<string>, k: nat)
    requires WholeLines(decode, ls) && k <= |ls|
    ensures WholeLines(decode, ls[..k]) && (k < |ls| ==> WholeLine(decode, ls[k]))
  {
    if k > 0 {
      WholePrefix(decode, ls[1..], k - 1);
      assert ls[..k][1..] == ls[1..][..k - 1];
    }
  }

  lemma {:induction false} EventsSnoc(decode: string -> Item, ls: seq<string>, p: string)
    requires decode(p).Event?
    ensures EventsOf(decode, ls + [p]) == EventsOf(decode, ls) + [decode(p).line]
  {
    if ls == [] {
      assert EventsOf(decode, [] + [p]) == [decode(p).line] + EventsOf(decode, ([] + [p])[1..]);
    } else {
      var first := if decode(ls[0]).Event? then [decode(ls[0]).line] else [];
      assert (ls + [p])[0] == ls[0] && (ls + [p])[1..] == ls[1..] + [p];
      EventsSnoc(decode, ls[1..], p);
      Assoc(first, EventsOf(decode, ls[1..]), [decode(p).line]);
    }
  }

  /** A torn end of a line, alone. */
  lemma PartialLine(decode: string -> Item, p: string, j: nat)
    requires WholeLine(decode, p) && 0 < j <= |p|
    ensures RawLines(p[..j]) == [p[..j]]
    ensures Decoded(decode, [p[..j]]) == Some(if j == |p| then [decode(p).line] else [])
    ensures Good(decode, p[..j]) <==> j == |p|
  {
    NoNewlineIsOneLine(p[..j]);
    assert p[..j][..j] == p[..j] && p[..j][j..] == "";
    TrimmedLine(p);
    if j == |p| {
      assert p[..j] == p;
      DecodedOne(decode, p);
    } else {
      var i := TrimmedPrefix(p, j);
      assert decode(p[..i]) == Torn && p[..i] != "";
    }
  }

  lemma DecodedOne(decode: string -> Item, line: string)
    requires Trimmed(line) != "" && decode(Trimmed(line)).Event?
    ensures Decoded(decode, [line]) == Some([decode(Trimmed(line)).line])
  {
    assert [line][1..] == [];
    assert [decode(Trimmed(line)).line] + [] == [decode(Trimmed(line)).line];
  }

  /** What is left of a log of whole lines after a crash: k lines, and j characters of the next. */
  function CutLog(ls: seq<string>, k: nat, j: nat): string
    requires k < |ls| && j <= |ls[k]|
  {
    Unlines(ls[..k]) + ls[k][..j]
  }

  /** Resume of a cut log is Resume of the lines it holds whole. */
  lemma CutLogResumes(decode: string -> Item, ls: seq<string>, k: nat, j: nat)
    requires WholeLines(decode, ls) && k < |ls| && j <= |ls[k]|
    ensures Resumed(decode, CutLog(ls, k, j))
         == Read(NOTHING_READ, EventsOf(decode, if j == |ls[k]| then ls[..k + 1] else ls[..k]))
  {
    WholePrefix(decode, ls, k);
    assert ls[..k + 1] == ls[..k] + [ls[k]];
    EventsSnoc(decode, ls[..k], ls[k]);
    if j > 0 {
      PartialLine(decode, ls[k], j);
    }
    var events := if j == |ls[k]| then [decode(ls[k]).line] else [];
    ResumedAfter(decode, ls[..k], ls[k][..j], events);
    assert EventsOf(decode, ls[..k]) + [] == EventsOf(decode, ls[..k]);
  }

  lemma {:induction false} AllGood(decode: string -> Item, ls: seq<string>)
    requires WholeLines(decode, ls)
    ensures UpToGood(decode, Ended(ls)) == Ended(ls)
    ensures ls != [] ==> Good(decode, Ended(ls)[|Ended(ls)| - 1])
  {
    if ls != [] {
      TrimmedLine(ls[0]);
      if |ls| > 1 {
        AllGood(decode, ls[1..]);
        assert Ended(ls)[|Ended(ls)| - 1] == Ended(ls[1..])[|Ended(ls[1..])| - 1];
      }
    }
  }

  lemma {:induction false} ConcatEnded(ls: seq<string>)
    ensures Concat(Ended(ls)) == Unlines(ls)
  {
    if ls != [] {
      ConcatEnded(ls[1..]);
    }
  }

  /** Repair takes away exactly a torn end; a whole last line stays, newline or not. */
  lemma CutLogRepairs(decode: string -> Item, ls: seq<string>, k: nat, j: nat)
    requires WholeLines(decode, ls) && k < |ls| && j <= |ls[k]|
    ensures Repaired(decode, CutLog(ls, k, j)) == if j == |ls[k]| then CutLog(ls, k, j) else Unlines(ls[..k])
  {
    WholePrefix(decode, ls, k);
    var part := ls[k][..j];
    RawLinesOfText(decode, ls[..k], part);
    AllGood(decode, ls[..k]);
    ConcatEnded(ls[..k]);
    if j == 0 {
      assert Ended(ls[..k]) + [] == Ended(ls[..k]);
      assert Unlines(ls[..k]) + "" == Unlines(ls[..k]);
    } else {
      PartialLine(decode, ls[k], j);
      assert (Ended(ls[..k]) + [part])[..|Ended(ls[..k])|] == Ended(ls[..k]);
      ConcatSnoc(Ended(ls[..k]), part);
    }
  }

  /** Repairing a crashed log changes nothing for Resume. */
  lemma RepairKeepsResume(decode: string -> Item, ls: seq<string>, k: nat, j: nat)
    requires WholeLines(decode, ls) && k < |ls| && j <= |ls[k]|
    ensures Resumed(decode, Repaired(decode, CutLog(ls, k, j))) == Resumed(decode, CutLog(ls, k, j))
  {
    CutLogRepairs(decode, ls, k, j);
    CutLogResumes(decode, ls, k, j);
    if j < |ls[k]| {
      CutLogResumes(decode, ls, k, 0);
      assert CutLog(ls, k, 0) == Unlines(ls[..k]) + "" == Unlines(ls[..k]);
    }
  }

  /** Writing on after a repair.  A cut exactly before a newline leaves a whole line without
      one: the next record joins it, and Resume from then on stops in front of both. */
  lemma WritingOnAfterRepair(decode: string -> Item, ls: seq<string>, k: nat, j: nat, ms: seq<string>)
    requires WholeLines(decode, ls) && WholeLines(decode, ms) && k < |ls| && j <= |ls[k]| && ms != []
    requires decode(ls[k] + ms[0]) == Torn
    ensures Resumed(decode, Repaired(decode, CutLog(ls, k, j)) + Unlines(ms))
         == Read(NOTHING_READ, EventsOf(decode, ls[..k]) + if j == |ls[k]| then [] else EventsOf(decode, ms))
  {
    WholePrefix(decode, ls, k);
    CutLogRepairs(decode, ls, k, j);
    if j == |ls[k]| {
      GluedLine(decode, ls, k, ms);
    } else {
      WholeText(decode, ms);
      ResumedAfter(decode, ls[..k], Unlines(ms), EventsOf(decode, ms));
    }
  }

  lemma GluedLine(decode: string -> Item, ls: seq<string>, k: nat, ms: seq<string>)
    requires k < |ls| && WholeLines(decode, ls[..k]) && WholeLine(decode, ls[k])
    requires ms != [] && WholeLine(decode, ms[0]) && decode(ls[k] + ms[0]) == Torn
    ensures Resumed(decode, CutLog(ls, k, |ls[k]|) + Unlines(ms)) == Read(NOTHING_READ, EventsOf(decode, ls[..k]) + [])
  {
    JoinedLineIsTorn(decode, ls[k], ms);
    CutAtNewline(ls, k, Unlines(ms));
    ResumedAfter(decode, ls[..k], ls[k] + Unlines(ms), []);
  }

  lemma CutAtNewline(ls: seq<string>, k: nat, more: string)
    requires k < |ls|
    ensures CutLog(ls, k, |ls[k]|) + more == Unlines(ls[..k]) + (ls[k] + more)
  {
    assert ls[k][..|ls[k]|] == ls[k];
  }

  lemma ResumedAfter(decode: string -> Item, ls: seq<string>, tail: string, events: seq<Line>)
    requires WholeLines(decode, ls) && Decoded(decode, RawLines(tail)) == Some(events)
    ensures Resumed(decode, Unlines(ls) + tail) == Read(NOTHING_READ, EventsOf(decode, ls) + events)
  {
    RawLinesOfText(decode, ls, tail);
    DecodedWhole(decode, ls, RawLines(tail));
  }

  lemma WholeText(decode: string -> Item, ms: seq<string>)
    requires WholeLines(decode, ms)
    ensures Decoded(decode, RawLines(Unlines(ms))) == Some(EventsOf(decode, ms))
  {
    RawLinesOfText(decode, ms, "");
    assert Unlines(ms) + "" == Unlines(ms);
    DecodedWhole(decode, ms, []);
    assert Ended(ms) + [] == Ended(ms) && EventsOf(decode, ms) + [] == EventsOf(decode, ms);
  }

  lemma JoinedLineIsTorn(decode: string -> Item, p: string, ms: seq<string>)
    requires WholeLine(decode, p) && ms != [] && WholeLine(decode, ms[0]) && decode(p + ms[0]) == Torn
    ensures Decoded(decode, RawLines(p + Unlines(ms))) == Some([])
  {
    var joined := p + ms[0];
    assert joined[0] == p[0] && joined[|joined| - 1] == ms[0][|ms[0]| - 1];
    assert p + Unlines(ms) == joined + "\n" + Unlines(ms[1..]);
    TornLineStops(decode, joined, Unlines(ms[1..]));
  }

  lemma TornLineStops(decode: string -> Item, torn: string, rest: string)
    requires torn != "" && '\n' !in torn && !IsSpace(torn[0]) && !IsSpace(torn[|torn| - 1]) && decode(torn) == Torn
    ensures RawLines(torn + "\n" + rest) == [torn + "\n"] + RawLines(rest)
    ensures Decoded(decode, RawLines(torn + "\n" + rest)) == Some([])
  {
    var line := torn + "\n";
    NoNewlineIsOneLine(torn);
    FirstLineConcat(line, rest);
    assert (line + rest)[..|line|] == line && (line + rest)[|line|..] == rest;
    TrimmedLine(torn);
  }

  lemma TrimmedLine(p: string)
    requires p != "" && !IsSpace(p[0]) && !IsSpace(p[|p| - 1])
    ensures Trimmed(p + "\n") == p && Trimmed(p) == p && IsSpace('\n')
  {
    assert (p + "\n")[..|p|] == p && (p + "\n")[0] == p[0] && (p + "\n")[|p|] == '\n' && IsSpace('\n');
  }

  /** A torn line in the middle: repair keeps it, as good lines follow it, and Resume stops at
      it, so nothing recorded after it is ever read. */
  lemma TornInside(decode: string -> Item, ls: seq<string>, torn: string, ms: seq<string>)
    requires WholeLines(decode, ls) && WholeLines(decode, ms) && ms != []
    requires torn != "" && '\n' !in torn && !IsSpace(torn[0]) && !IsSpace(torn[|torn| - 1]) && decode(torn) == Torn
    ensures var file := Unlines(ls) + (torn + "\n" + Unlines(ms));
      Repaired(decode, file) == file && Resumed(decode, file) == Read(NOTHING_READ, EventsOf(decode, ls))
  {
    var line, tail := torn + "\n", torn + "\n" + Unlines(ms);
    TornFirst(decode, torn, ms);
    ResumedAfter(decode, ls, tail, []);
    assert EventsOf(decode, ls) + [] == EventsOf(decode, ls);
    RawLinesOfText(decode, ls, tail);
    Assoc(Ended(ls), [line], Ended(ms));
    LastLineGood(decode, Unlines(ls) + tail, Ended(ls) + [line], ms);
  }

  lemma TornFirst(decode: string -> Item, torn: string, ms: seq<string>)
    requires WholeLines(decode, ms)
    requires torn != "" && '\n' !in torn && !IsSpace(torn[0]) && !IsSpace(torn[|torn| - 1]) && decode(torn) == Torn
    ensures RawLines(torn + "\n" + Unlines(ms)) == [torn + "\n"] + Ended(ms)
    ensures Decoded(decode, RawLines(torn + "\n" + Unlines(ms))) == Some([])
  {
    TornLineStops(decode, torn, Unlines(ms));
    RawLinesOfText(decode, ms, "");
    assert Unlines(ms) + "" == Unlines(ms) && Ended(ms) + [] == Ended(ms);
  }

  lemma LastLineGood(decode: string -> Item, file: string, lines: seq<string>, ms: seq<string>)
    requires RawLines(file) == lines + Ended(ms) && WholeLines(decode, ms) && ms != []
    ensures Repaired(decode, file) == file
  {
    AllGood(decode, ms);
    RawLinesAreRaw(file);
    assert RawLines(file)[|RawLines(file)| - 1] == Ended(ms)[|Ended(ms)| - 1];
  }

  lemma {:induction false} EventsOfPrefix(decode: string -> Item, ls: seq<string>, n: nat)
    requires WholeLines(decode, ls) && n <= |ls|
    ensures n <= |EventsOf(decode, ls)| && EventsOf(decode, ls[..n]) == EventsOf(decode, ls)[..n]
  {
    if n > 0 {
      EventsOfPrefix(decode, ls[1..], n - 1);
      assert ls[..n][1..] == ls[1..][..n - 1];
    }
  }

  /** The first c characters hold n lines whole; the newline of the last may be gone. */
  predicate HoldsWhole(ls: seq<string>, c: nat, n: nat) {
    && n <= |ls|
    && (n > 0 ==> |Unlines(ls[..n])| <= c + 1)
    && (n < |ls| ==> c + 1 < |Unlines(ls[..n + 1])|)
  }

  lemma WholeAt(ls: seq<string>, k: nat, j: nat)
    requires k < |ls| && j <= |ls[k]|
    ensures HoldsWhole(ls, |Unlines(ls[..k])| + j, if j == |ls[k]| then k + 1 else k)
  {
    assert ls[..k + 1] == ls[..k] + [ls[k]];
    UnlinesSnoc(ls[..k], ls[k]);
    if k + 1 < |ls| {
      assert ls[..k + 2] == ls[..k + 1] + [ls[k + 1]];
      UnlinesSnoc(ls[..k + 1], ls[k + 1]);
    }
  }

  /** A log that Resume can read, cut at any byte: Resume still succeeds, on exactly the lines
      left whole, and repairing changes nothing about it. */
  lemma CrashIsHarmless(decode: string -> Item, ls: seq<string>, c: nat) returns (n: nat)
    requires WholeLines(decode, ls) && c <= |Unlines(ls)| && Read(NOTHING_READ, EventsOf(decode, ls)).Some?
    ensures HoldsWhole(ls, c, n)
    ensures var cut := Unlines(ls)[..c];
      && Resumed(decode, cut) == Read(NOTHING_READ, EventsOf(decode, ls[..n])) && Resumed(decode, cut).Some?
      && Resumed(decode, Repaired(decode, cut)) == Resumed(decode, cut)
  {
    var k, j := EveryCut(ls, c);
    if k == |ls| {
      n := k;
      assert ls[..k] == ls && Unlines(ls) + "" == Unlines(ls);
      WholeText(decode, ls);
      if ls != [] {
        LastLineGood(decode, Unlines(ls), [], ls) by {
          RawLinesOfText(decode, ls, "");
          assert Ended(ls) + [] == Ended(ls) == [] + Ended(ls);
        }
      }
    } else {
      n := if j == |ls[k]| then k + 1 else k;
      assert |Unlines(ls)[..c]| == c;
      WholeAt(ls, k, j);
      CutLogResumes(decode, ls, k, j);
      RepairKeepsResume(decode, ls, k, j);
    }
    EventsOfPrefix(decode, ls, n);
    if Read(NOTHING_READ, EventsOf(decode, ls[..n])).None? {
      ReadStopsAtError(NOTHING_READ, EventsOf(decode, ls), n);
    }
  }

  // ------------------------------------------------------- what a repair keeps

  /** A line without the white space around it. */
  lemma {:induction false} TrimmedIsMiddle(before: string, text: string, after: string)
    requires Blank(before) && Blank(after)
    requires text != "" ==> !IsSpace(text[0]) && !IsSpace(text[|text| - 1])
    ensures Trimmed(before + text + after) == text
    decreases |before| + |after|
  {
    var line := before + text + after;
    if before != "" {
      assert before[0] in before && line[1..] == before[1..] + text + after;
      assert forall c :: c in before[1..] ==> c in before;
      TrimmedIsMiddle(before[1..], text, after);
    } else if after != "" {
      var n := |after| - 1;
      assert after[n] in after && after[0] in after && line == text + after && line[..|line| - 1] == text + after[..n];
      assert forall c :: c in after[..n] ==> c in after;
      TrimmedIsMiddle("", text, after[..n]);
      assert "" + text + after[..n] == text + after[..n];
      if text == "" {
        AllWhite(line);
      }
    } else {
      assert line == text;
    }
  }

  lemma {:induction false} AllWhite(s: string)
    requires Blank(s)
    ensures Trimmed(s) == ""
  {
    if s != "" {
      assert s[0] in s && forall c :: c in s[1..] ==> c in s;
      AllWhite(s[1..]);
    }
  }

  /** A line that a repair does not take for torn: empty, or anything the decoder reads, be it an event or not. */
  predicate Stays(decode: string -> Item, line: string) {
    Trimmed(line) == "" || decode(Trimmed(line)).NotAnEvent? || decode(Trimmed(line)).BadEvent?
    || decode(Trimmed(line)).Event?
  }

  lemma {:induction false} UpToStaying(decode: string -> Item, kept: seq<string>, torn: seq<string>)
    requires kept == [] || Stays(decode, kept[|kept| - 1])
    requires forall i :: 0 <= i < |torn| ==> !Stays(decode, torn[i])
    ensures UpToGood(decode, kept + torn) == kept
  {
    if torn == [] {
      assert kept + torn == kept;
    } else {
      var n := |torn| - 1;
      assert (kept + torn)[..|kept + torn| - 1] == kept + torn[..n];
      UpToStaying(decode, kept, torn[..n]);
    }
  }

  /** A repair keeps the file up to the last line that stays, and drops the torn lines after it. */
  lemma RepairsExactly(decode: string -> Item, kept: seq<string>, torn: seq<string>)
    requires AreRaw(kept + torn) && (kept == [] || Stays(decode, kept[|kept| - 1]))
    requires forall i :: 0 <= i < |torn| ==> !Stays(decode, torn[i])
    ensures Repaired(decode, Concat(kept + torn)) == Concat(kept)
  {
    RawLinesOfConcat(kept + torn);
    UpToStaying(decode, kept, torn);
  }

  // ------------------------------------------------------- what Resume is shown

  /** The events of blank lines and events. */
  function Shown(decode: string -> Item, lines: seq<string>): seq<Line> {
    if lines == [] then []
    else if Trimmed(lines[0]) != "" && decode(Trimmed(lines[0])).Event? then
      [decode(Trimmed(lines[0])).line] + Shown(decode, lines[1..])
    else Shown(decode, lines[1..])
  }

  ghost predicate AllShown(decode: string -> Item, lines: seq<string>) {
    forall i :: 0 <= i < |lines| ==> Trimmed(lines[i]) == "" || decode(Trimmed(lines[i])).Event?
  }

  /** Resume reads the events up to the first line that is torn or no event, and refuses the log when the first
      line that is neither blank nor an event is an event it does not know how to decode. */
  lemma {:induction false} ReadsUpTo(decode: string -> Item, lines: seq<string>, k: nat)
    requires k <= |lines| && AllShown(decode, lines[..k])
    requires k < |lines| ==> Trimmed(lines[k]) != "" && !decode(Trimmed(lines[k])).Event?
    ensures Decoded(decode, lines)
         == if k < |lines| && decode(Trimmed(lines[k])).BadEvent? then None else Some(Shown(decode, lines[..k]))
  {
    if k > 0 {
      assert lines[..k][0] == lines[0] && lines[..k][1..] == lines[1..][..k - 1];
      ReadsUpTo(decode, lines[1..], k - 1);
    }
  }
}
