/** A file as text: its lines and line endings, and the text a change leaves. */
module TextFile {
  import opened Prelude
  import opened Strings
  import opened PatchTypes
  import Hunks

  datatype Ending = LF | CRLF

  /** lineSep */
  function Sep(le: Ending): string {
    if le == CRLF then "\r\n" else "\n"
  }

  predicate PairAt(s: string) {
    |s| > 1 && s[0] == '\r' && s[1] == '\n'
  }

  // ------------------------------------------------------ the line ending

  /** How many "\r\n" the text has. */
  function Pairs(s: string): nat {
    if s == "" then 0 else if PairAt(s) then 1 + Pairs(s[2..]) else Pairs(s[1..])
  }

  /** How many newlines have no '\r' before them. */
  function Bare(s: string): nat {
    if s == "" then 0
    else if PairAt(s) then Bare(s[2..])
    else (if s[0] == '\n' then 1 else 0) + Bare(s[1..])
  }

  function EndingOf(s: string): Ending {
    if Pairs(s) > Bare(s) then CRLF else LF
  }

  /** detectLineEnding */
  method DetectLineEnding(content: string) returns (le: Ending)
    ensures le == EndingOf(content)
  {
    var crlfCount, lfCount, i := 0, 0, 0;
    while i < |content|
      invariant 0 <= i <= |content|
      invariant Pairs(content) == crlfCount + Pairs(content[i..]) && Bare(content) == lfCount + Bare(content[i..])
    {
      var rest := content[i..];
      assert rest[1..] == content[i + 1..];
      if i + 1 < |content| && content[i] == '\r' && content[i + 1] == '\n' {
        assert rest[2..] == content[i + 2..];
        crlfCount := crlfCount + 1;
        i := i + 1;
      } else if content[i] == '\n' {
        lfCount := lfCount + 1;
      }
      i := i + 1;
    }
    if crlfCount == 0 && lfCount == 0 {
      return LF;
    }
    le := if crlfCount > lfCount then CRLF else LF;
  }

  // ------------------------------------------------------------- the lines

  /** Every line ending as a plain newline. */
  function Normal(s: string): string {
    if s == "" then ""
    else if PairAt(s) then "\n" + Normal(s[2..])
    else (if s[0] == '\r' then "\n" else [s[0]]) + Normal(s[1..])
  }

  function DropBlankEnd(lines: seq<string>): seq<string> {
    if lines != [] && lines[|lines| - 1] == "" then lines[..|lines| - 1] else lines
  }

  /** splitLines */
  function Lines(s: string): seq<string> {
    DropBlankEnd(SplitOn(Normal(s), '\n'))
  }

  /** The lines with a separator between them, and after the last if `ended`. */
  function Rejoined(lines: seq<string>, sep: string, ended: bool): string {
    if lines == [] then ""
    else if |lines| == 1 then lines[0] + if ended then sep else ""
    else lines[0] + sep + Rejoined(lines[1..], sep, ended)
  }

  method WriteLines(lines: seq<string>, sep: string, ended: bool) returns (result: string)
    ensures result == Rejoined(lines, sep, ended)
  {
    result := "";
    for i := 0 to |lines|
      invariant result + Rejoined(lines[i..], sep, ended) == Rejoined(lines, sep, ended)
    {
      assert lines[i..][1..] == lines[i + 1..];
      ghost var before := result;
      result := result + lines[i];
      if i < |lines| - 1 || ended {
        result := result + sep;
      }
      ghost var rest := Rejoined(lines[i + 1..], sep, ended);
      if i < |lines| - 1 {
        Assoc(before, lines[i], sep);
        Assoc(before, lines[i] + sep, rest);
      } else {
        Assoc(before, lines[i], if ended then sep else "");
        assert before + lines[i] + "" == before + lines[i] && result + rest == result;
      }
    }
    assert result + "" == result;
  }

  // -------------------------------------------------- what hunks say of endings

  predicate CarriesCR(l: HunkLine) {
    l.content != "" && l.content[|l.content| - 1] == '\r'
  }

  predicate CarriesEnding(l: HunkLine) {
    (l.prefix == ' ' || l.prefix == '-' || l.prefix == '+') && CarriesCR(l)
  }

  /** A patch made from a CRLF file shows it on some line. */
  predicate CarriesEndings(hunks: seq<Hunk>) {
    exists i, j :: 0 <= i < |hunks| && 0 <= j < |hunks[i].lines| && CarriesEnding(hunks[i].lines[j])
  }

  /** An added line that will have a terminator has the file's own. */
  predicate LineAgrees(ls: seq<HunkLine>, j: nat, le: Ending)
    requires j < |ls|
  {
    ls[j].prefix == '+' && !(j + 1 < |ls| && ls[j + 1].prefix == '\\') ==> (CarriesCR(ls[j]) <==> le == CRLF)
  }

  predicate AllAgree(hunks: seq<Hunk>, le: Ending) {
    forall i, j :: 0 <= i < |hunks| && 0 <= j < |hunks[i].lines| ==> LineAgrees(hunks[i].lines, j, le)
  }

  /** The conversion check of applyModify. */
  method EndingsFit(hunks: seq<Hunk>, le: Ending) returns (ok: bool)
    ensures ok <==> CarriesEndings(hunks) ==> AllAgree(hunks, le)
  {
    var carries := false;
    for i := 0 to |hunks|
      invariant carries <==> exists k, j :: 0 <= k < i && 0 <= j < |hunks[k].lines| && CarriesEnding(hunks[k].lines[j])
    {
      var lines := hunks[i].lines;
      for j := 0 to |lines|
        invariant carries <==>
          || (exists k, m :: 0 <= k < i && 0 <= m < |hunks[k].lines| && CarriesEnding(hunks[k].lines[m]))
          || (exists m :: 0 <= m < j && CarriesEnding(lines[m]))
      {
        if CarriesEnding(lines[j]) {
          carries := true;
        }
      }
    }
    if !carries {
      return true;
    }
    for i := 0 to |hunks|
      invariant forall k, j :: 0 <= k < i && 0 <= j < |hunks[k].lines| ==> LineAgrees(hunks[k].lines, j, le)
    {
      var lines := hunks[i].lines;
      for j := 0 to |lines|
        invariant forall m :: 0 <= m < j ==> LineAgrees(lines, m, le)
      {
        if !LineAgrees(lines, j, le) {
          return false;
        }
      }
    }
    ok := true;
  }

  /** The last hunk does not end in the no-newline marker. */
  predicate EndsInNewline(hunks: seq<Hunk>) {
    hunks == []
    || var last := hunks[|hunks| - 1].lines;
       last == [] || last[|last| - 1].prefix != '\\'
  }

  // ------------------------------------------------------------ new content

  datatype Refusal = Conflict(why: Hunks.Conflict) | EndingMismatch

  datatype Edit = Edit(text: string, moves: seq<Hunks.HunkMove>)

  /** applyModify, from the text of the file to the text it stages. */
  ghost function Modified(text: string, hunks: seq<Hunk>): Result<Edit, Refusal> {
    match Hunks.RunHunks(Lines(text), hunks)
    case Err(why) => Err(Conflict(why))
    case Ok(p) =>
      var le := EndingOf(text);
      var out := Rejoined(p.lines, Sep(le), EndsInNewline(hunks));
      if CarriesEndings(hunks) && !AllAgree(hunks, le) then Err(EndingMismatch)
      else if hunks != [] && EndingOf(out) != le then Err(EndingMismatch)
      else Ok(Edit(out, p.moves))
  }

  method Modify(text: string, hunks: seq<Hunk>) returns (r: Result<Edit, Refusal>)
    ensures r == Modified(text, hunks)
  {
    var le := DetectLineEnding(text);
    var applied := Hunks.ApplyHunks(Lines(text), hunks);
    if applied.Err? {
      return Err(Conflict(applied.error));
    }
    var (lines, moves) := applied.value;
    var fit := EndingsFit(hunks, le);
    if !fit {
      return Err(EndingMismatch);
    }
    var result := WriteLines(lines, Sep(le), EndsInNewline(hunks));
    if |hunks| > 0 {
      var newLE := DetectLineEnding(result);
      if newLE != le {
        return Err(EndingMismatch);
      }
    }
    r := Ok(Edit(result, moves));
  }

  /** The added lines of a new file. */
  function Added(ls: seq<HunkLine>): seq<string> {
    if ls == [] then []
    else
      var before, l := Added(ls[..|ls| - 1]), ls[|ls| - 1];
      if l.prefix == '+' then before + [l.content] else before
  }

  function AllAdded(hunks: seq<Hunk>): seq<string> {
    if hunks == [] then [] else AllAdded(hunks[..|hunks| - 1]) + Added(hunks[|hunks| - 1].lines)
  }

  function DropNewline(text: string): string {
    if text != "" && text[|text| - 1] == '\n' then text[..|text| - 1] else text
  }

  /** applyCreate: what a new file is to hold. */
  function Created(hunks: seq<Hunk>): string {
    if EndsInNewline(hunks) then Unlines(AllAdded(hunks)) else DropNewline(Unlines(AllAdded(hunks)))
  }

  method Create(hunks: seq<Hunk>) returns (content: string)
    ensures content == Created(hunks)
  {
    content := "";
    ghost var added: seq<string> := [];
    for i := 0 to |hunks|
      invariant added == AllAdded(hunks[..i]) && content == Unlines(added)
    {
      assert hunks[..i + 1][..i] == hunks[..i];
      var lines := hunks[i].lines;
      ghost var before := added;
      for j := 0 to |lines|
        invariant added == before + Added(lines[..j]) && content == Unlines(added)
      {
        assert lines[..j + 1][..j] == lines[..j];
        if lines[j].prefix == '+' {
          UnlinesSnoc(added, lines[j].content);
          content := content + lines[j].content + "\n";
          added := added + [lines[j].content];
        }
      }
      assert lines[..|lines|] == lines;
    }
    assert hunks[..|hunks|] == hunks;
    if !EndsInNewline(hunks) {
      content := DropNewline(content);
    }
  }
}
