/** Placing the hunks of one file: nearest-match search and in-order application. */
module Hunks {
  import opened Prelude
  import opened PatchTypes

  /** How many lines a hunk may move from its expected position. */
  const MAX_RELOCATION: nat := 10

  // ------------------------------------------------------------ the search

  ghost predicate MatchesAt(lines: seq<string>, block: seq<string>, pos: int) {
    0 <= pos && pos + |block| <= |lines| && lines[pos..pos + |block|] == block
  }

  datatype Located = Nowhere | Found(at: int) | Ambiguous(lower: int, upper: int)

  function Dist(p: int, q: int): nat {
    if p < q then q - p else p - q
  }

  /** One search: where does `block` stand in `lines`? */
  datatype Search = Search(lines: seq<string>, block: seq<string>, expected: int, floor: nat, window: nat) {

    ghost predicate Candidate(p: int) {
      floor <= p && Dist(p, expected) <= window && MatchesAt(lines, block, p)
    }

    ghost predicate Nearest(p: int) {
      Candidate(p) && forall q :: Candidate(q) ==> Dist(p, expected) <= Dist(q, expected)
    }

    /** What the search must answer, with no reference to how it scans. */
    ghost predicate Answers(r: Located) {
      match r
      case Nowhere => forall p :: !Candidate(p)
      case Found(p) => Nearest(p) && forall q :: Nearest(q) ==> q == p
      case Ambiguous(p, q) => p < q && Nearest(p) && Nearest(q)
    }

    /** Exactly one answer is right. */
    lemma AnswerIsUnique(r: Located, s: Located)
      requires Answers(r) && Answers(s)
      ensures r == s
    {
    }

    lemma {:induction false} NearestExists(p: int) returns (n: int)
      requires Candidate(p)
      ensures Nearest(n)
      decreases Dist(p, expected)
    {
      n := p;
      if q :| Candidate(q) && Dist(q, expected) < Dist(p, expected) {
        n := NearestExists(q);
      }
    }

    lemma AnswerExists()
      ensures exists r :: Answers(r)
    {
      if p :| Candidate(p) {
        var n := NearestExists(p);
        if q :| Nearest(q) && q != n {
          assert Answers(Ambiguous(if n < q then n else q, if n < q then q else n));
        } else {
          assert Answers(Found(n));
        }
      } else {
        assert Answers(Nowhere);
      }
    }

    /** The answer as a function. */
    ghost function Locate(): (r: Located)
      ensures Answers(r)
    {
      AnswerExists();
      var r :| Answers(r);
      r
    }

    /** What the scan knows in front of p: the nearest candidate, and a second one as near. */
    ghost predicate Scanned(p: int, found: int, alt: int, bestDist: int) {
      && -1 <= found < p && -1 <= alt < p
      && (found == -1 ==> alt == -1 && forall q :: q < p ==> !Candidate(q))
      && (found != -1 ==> Candidate(found) && bestDist == Dist(found, expected))
      && (found != -1 ==> forall q :: q < p && Candidate(q) ==> bestDist <= Dist(q, expected))
      && (alt == -1 ==> forall q :: q < p && Candidate(q) && q != found ==> bestDist < Dist(q, expected))
      && (alt != -1 ==> found < alt && Candidate(alt) && bestDist == Dist(alt, expected))
    }

    lemma ScanSkips(p: int, found: int, alt: int, bestDist: int)
      requires Scanned(p, found, alt, bestDist)
      requires !Candidate(p) || (found != -1 && bestDist < Dist(p, expected))
      ensures Scanned(p + 1, found, alt, bestDist)
    {
    }

    lemma ScanFinds(p: int, found: int, alt: int, bestDist: int)
      requires Scanned(p, found, alt, bestDist) && 0 <= p && Candidate(p)
      requires found == -1 || Dist(p, expected) < bestDist
      ensures Scanned(p + 1, p, -1, Dist(p, expected))
    {
    }

    lemma ScanTies(p: int, found: int, alt: int, bestDist: int)
      requires Scanned(p, found, alt, bestDist) && 0 <= p && Candidate(p)
      requires found != -1 && Dist(p, expected) == bestDist
      ensures Scanned(p + 1, found, p, bestDist)
    {
    }

    lemma ScanIsOver(p: int, found: int, alt: int, bestDist: int, r: Located)
      requires Scanned(p, found, alt, bestDist) && p > |lines| - |block|
      requires r == if found == -1 then Nowhere else if alt == -1 then Found(found) else Ambiguous(found, alt)
      ensures r == Locate()
    {
      assert forall q :: Candidate(q) ==> q < p;
      assert Answers(r);
      AnswerIsUnique(r, Locate());
    }

    /** A match at the expected position wins. */
    lemma HereIsFound()
      requires Candidate(expected)
      ensures Locate() == Found(expected)
    {
      AnswerIsUnique(Found(expected), Locate());
    }
  }

  method Matches(lines: seq<string>, block: seq<string>, pos: int) returns (ok: bool)
    ensures ok <==> MatchesAt(lines, block, pos)
  {
    if pos < 0 || pos + |block| > |lines| {
      return false;
    }
    for k := 0 to |block|
      invariant lines[pos..pos + k] == block[..k]
    {
      assert lines[pos..pos + k + 1] == lines[pos..pos + k] + [lines[pos + k]];
      assert block[..k + 1] == block[..k] + [block[k]];
      if lines[pos + k] != block[k] {
        assert lines[pos..pos + |block|][k] != block[k];
        return false;
      }
    }
    return true;
  }

  /** locateHunk: the scan with its running best values gives the one right answer. */
  method LocateHunk(s: Search) returns (r: Located)
    ensures r == s.Locate()
  {
    var here := Matches(s.lines, s.block, s.expected);
    if s.expected >= s.floor && here {
      s.HereIsFound();
      return Found(s.expected);
    }
    var found, alt, bestDist := -1, -1, 0;
    var p: int := s.floor;
    while p <= |s.lines| - |s.block|
      invariant s.floor <= p && s.Scanned(p, found, alt, bestDist)
      decreases |s.lines| - |s.block| - p
    {
      var dist := Dist(p, s.expected);
      var fits := Matches(s.lines, s.block, p);
      if dist <= s.window && fits {
        if found == -1 || dist < bestDist {
          s.ScanFinds(p, found, alt, bestDist);
          found, alt, bestDist := p, -1, dist;
        } else if dist == bestDist {
          s.ScanTies(p, found, alt, bestDist);
          alt := p;
        } else {
          s.ScanSkips(p, found, alt, bestDist);
        }
      } else {
        s.ScanSkips(p, found, alt, bestDist);
      }
      p := p + 1;
    }
    r := if found == -1 then Nowhere else if alt == -1 then Found(found) else Ambiguous(found, alt);
    s.ScanIsOver(p, found, alt, bestDist, r);
  }

  // --------------------------------------------------------- one hunk's sides

  /** The lines a hunk expects in the file. */
  function OldSide(ls: seq<HunkLine>): seq<string> {
    if ls == [] then []
    else
      var before, l := OldSide(ls[..|ls| - 1]), ls[|ls| - 1];
      if l.prefix == ' ' || l.prefix == '-' then before + [TrimCR(l.content)] else before
  }

  /** The lines a hunk leaves in the file. */
  function NewSide(ls: seq<HunkLine>): seq<string> {
    if ls == [] then []
    else
      var before, l := NewSide(ls[..|ls| - 1]), ls[|ls| - 1];
      if l.prefix == ' ' || l.prefix == '+' then before + [TrimCR(l.content)] else before
  }

  lemma {:induction false} OldSidePrefix(ls: seq<HunkLine>, j: nat)
    requires j <= |ls|
    ensures OldSide(ls[..j]) <= OldSide(ls)
  {
    if j < |ls| {
      assert ls[..|ls| - 1][..j] == ls[..j];
      OldSidePrefix(ls[..|ls| - 1], j);
    } else {
      assert ls[..j] == ls;
    }
  }

  /** oldSide */
  method CollectOldSide(ls: seq<HunkLine>) returns (block: seq<string>)
    ensures block == OldSide(ls)
  {
    block := [];
    for j := 0 to |ls|
      invariant block == OldSide(ls[..j])
    {
      assert ls[..j + 1][..j] == ls[..j];
      if ls[j].prefix == ' ' || ls[j].prefix == '-' {
        block := block + [TrimCR(ls[j].content)];
      }
    }
    assert ls[..|ls|] == ls;
  }

  /** Context comes from the file, additions from the patch: together, the new side. */
  method BuildNewLines(lines: seq<string>, ls: seq<HunkLine>, pos: int) returns (newLines: seq<string>)
    requires MatchesAt(lines, OldSide(ls), pos)
    ensures newLines == NewSide(ls)
  {
    newLines := [];
    var k := pos;
    for j := 0 to |ls|
      invariant k == pos + |OldSide(ls[..j])|
      invariant newLines == NewSide(ls[..j])
    {
      assert ls[..j + 1][..j] == ls[..j];
      OldSidePrefix(ls, j + 1);
      match ls[j].prefix {
        case ' ' =>
          assert lines[k] == lines[pos..pos + |OldSide(ls)|][k - pos];
          newLines := newLines + [lines[k]];
          k := k + 1;
        case '-' =>
          k := k + 1;
        case '+' =>
          newLines := newLines + [TrimCR(ls[j].content)];
        case _ =>
      }
    }
    assert ls[..|ls|] == ls;
  }

  // ------------------------------------------------------ hunks one by one

  datatype HunkMove = HunkMove(hunk: nat, declared: int, applied: int, insertion: bool)

  datatype Conflict =
    | PastEnd(hunk: nat)
    | InsidePrevious(hunk: nat)
    | TwoMatches(hunk: nat, lower: int, upper: int)
    | NoMatch(hunk: nat)

  /** The loop variables of applyModify, with the place found for each hunk in the numbering
      of the file before any hunk ran. */
  datatype Progress = Progress(
    lines: seq<string>, offset: int, resize: int, floor: nat, places: seq<int>, moves: seq<HunkMove>)

  function Old(h: Hunk): seq<string> { OldSide(h.lines) }
  function New(h: Hunk): seq<string> { NewSide(h.lines) }

  /** Where the header says the hunk's old side begins, counted from 0. */
  function Declared(h: Hunk): int {
    if Old(h) == [] then h.oldStart else h.oldStart - 1
  }

  ghost function Place(h: Hunk, no: nat, p: Progress): Result<int, Conflict> {
    var expected := Declared(h) + p.offset;
    if Old(h) == [] then
      if expected > |p.lines| then Err(PastEnd(no))
      else if expected < p.floor then Err(InsidePrevious(no))
      else Ok(expected)
    else
      match Search(p.lines, Old(h), expected, p.floor, MAX_RELOCATION).Locate()
      case Ambiguous(lower, upper) => Err(TwoMatches(no, lower, upper))
      case Nowhere => Err(NoMatch(no))
      case Found(at) => Ok(at)
  }

  ghost function Advance(h: Hunk, no: nat, pos: int, p: Progress): Progress
    requires 0 <= pos && pos + |Old(h)| <= |p.lines|
  {
    var place := pos - p.resize;
    var floor := pos + |New(h)|;
    Progress(
      p.lines[..pos] + New(h) + p.lines[pos + |Old(h)|..],
      floor - (Declared(h) + |Old(h)|),
      p.resize + |New(h)| - |Old(h)|,
      floor,
      p.places + [place],
      if place == Declared(h) then p.moves
      else p.moves + [HunkMove(no, h.oldStart, place - Declared(h) + h.oldStart, Old(h) == [])])
  }

  ghost function Step(h: Hunk, no: nat, p: Progress): Result<Progress, Conflict> {
    match Place(h, no, p)
    case Err(e) => Err(e)
    case Ok(pos) => Ok(Advance(h, no, pos, p))
  }

  /** Applying the hunks one after another. */
  ghost function RunHunks(content: seq<string>, hunks: seq<Hunk>): (r: Result<Progress, Conflict>)
  {
    if hunks == [] then Ok(Progress(content, 0, 0, 0, [], []))
    else
      var n := |hunks| - 1;
      match RunHunks(content, hunks[..n])
      case Err(e) => Err(e)
      case Ok(p) =>
        Step(hunks[n], n + 1, p)
  }

  lemma {:induction false} RunStopsAtError(content: seq<string>, hunks: seq<Hunk>, i: nat)
    requires i <= |hunks| && RunHunks(content, hunks[..i]).Err?
    ensures RunHunks(content, hunks) == RunHunks(content, hunks[..i])
  {
    if i < |hunks| {
      assert hunks[..|hunks| - 1][..i] == hunks[..i];
      RunStopsAtError(content, hunks[..|hunks| - 1], i);
    } else {
      assert hunks[..i] == hunks;
    }
  }

  /** Where the next hunk goes in the current lines. */
  method PlaceHunk(hunk: Hunk, no: nat, block: seq<string>, lines: seq<string>, offset: int, floor: nat,
                   ghost p: Progress)
    returns (r: Result<int, Conflict>)
    requires block == Old(hunk) && p.lines == lines && p.offset == offset && p.floor == floor
    ensures r == Place(hunk, no, p)
  {
    if |block| == 0 {
      var pos := hunk.oldStart + offset;
      if pos > |lines| {
        return Err(PastEnd(no));
      }
      if pos < floor {
        return Err(InsidePrevious(no));
      }
      return Ok(pos);
    }
    var located := LocateHunk(Search(lines, block, hunk.oldStart - 1 + offset, floor, MAX_RELOCATION));
    match located {
      case Ambiguous(lower, upper) => r := Err(TwoMatches(no, lower, upper));
      case Nowhere => r := Err(NoMatch(no));
      case Found(at) => r := Ok(at);
    }
  }

  lemma RunStep(content: seq<string>, hunks: seq<Hunk>, i: nat, p: Progress)
    requires i < |hunks| && RunHunks(content, hunks[..i]) == Ok(p)
    ensures RunHunks(content, hunks[..i + 1]) == Step(hunks[i], i + 1, p)
    ensures Step(hunks[i], i + 1, p).Err? ==> RunHunks(content, hunks) == Step(hunks[i], i + 1, p)
  {
    assert hunks[..i + 1][..i] == hunks[..i];
    if Step(hunks[i], i + 1, p).Err? {
      RunStopsAtError(content, hunks, i + 1);
    }
  }

  /** Replaces the old side at `pos` and carries the loop variables on. */
  method ReplaceOldSide(hunk: Hunk, no: nat, block: seq<string>, pos: nat, lines: seq<string>, resize: int,
                        moves: seq<HunkMove>, ghost p: Progress)
    returns (lines': seq<string>, offset: int, resize': int, floor: nat, moves': seq<HunkMove>)
    requires block == Old(hunk) && p.lines == lines && p.resize == resize && p.moves == moves
    requires MatchesAt(lines, block, pos)
    ensures Progress(lines', offset, resize', floor, p.places + [pos - resize], moves') == Advance(hunk, no, pos, p)
  {
    var declaredEnd, applied;
    if |block| == 0 {
      declaredEnd := hunk.oldStart;
      applied := pos - resize;
    } else {
      declaredEnd := hunk.oldStart - 1 + |block|;
      applied := pos - resize + 1;
    }
    var newLines := BuildNewLines(lines, hunk.lines, pos);
    lines' := lines[..pos] + newLines + lines[pos + |block|..];
    floor := pos + |newLines|;
    offset := floor - declaredEnd;
    resize' := resize + |newLines| - |block|;
    moves' := moves;
    if applied != hunk.oldStart {
      moves' := moves + [HunkMove(no, hunk.oldStart, applied, |block| == 0)];
    }
  }

  /** One round of the loop. */
  method ApplyHunk(hunk: Hunk, no: nat, lines: seq<string>, offset: int, resize: int, floor: nat,
                   moves: seq<HunkMove>, ghost p: Progress)
    returns (lines': seq<string>, offset': int, resize': int, floor': nat, moves': seq<HunkMove>,
             failed: Option<Conflict>, ghost p': Progress)
    requires p.lines == lines && p.offset == offset && p.resize == resize && p.floor == floor && p.moves == moves
    ensures p'.lines == lines' && p'.offset == offset' && p'.resize == resize' && p'.floor == floor'
    ensures p'.moves == moves'
    ensures Step(hunk, no, p) == if failed.Some? then Err(failed.value) else Ok(p')
  {
    lines', offset', resize', floor', moves', failed, p' := lines, offset, resize, floor, moves, None, p;
    var block := CollectOldSide(hunk.lines);
    var placed := PlaceHunk(hunk, no, block, lines, offset, floor, p);
    if placed.Err? {
      failed := Some(placed.error);
    } else {
      PlaceInBounds(hunk, no, p);
      lines', offset', resize', floor', moves' :=
        ReplaceOldSide(hunk, no, block, placed.value, lines, resize, moves, p);
      p' := Progress(lines', offset', resize', floor', p.places + [placed.value - resize], moves');
    }
  }

  ghost function Report(run: Result<Progress, Conflict>): Result<(seq<string>, seq<HunkMove>), Conflict> {
    match run
    case Err(e) => Err(e)
    case Ok(p) => Ok((p.lines, p.moves))
  }

  /** The hunk loop of applyModify. */
  method ApplyHunks(content: seq<string>, hunks: seq<Hunk>)
    returns (r: Result<(seq<string>, seq<HunkMove>), Conflict>)
    ensures r == Report(RunHunks(content, hunks))
  {
    var lines, moves: seq<HunkMove> := content, [];
    var offset, resize, floor: nat := 0, 0, 0;
    ghost var p := Progress(content, 0, 0, 0, [], []);
    for i := 0 to |hunks|
      invariant RunHunks(content, hunks[..i]) == Ok(p)
      invariant p.lines == lines && p.offset == offset && p.resize == resize && p.floor == floor && p.moves == moves
    {
      ghost var before := p;
      var failed;
      lines, offset, resize, floor, moves, failed, p :=
        ApplyHunk(hunks[i], i + 1, lines, offset, resize, floor, moves, p);
      RunStep(content, hunks, i, before);
      if failed.Some? {
        return Err(failed.value);
      }
    }
    assert hunks[..|hunks|] == hunks;
    r := Ok((lines, moves));
  }

  // -------------------------------------- all hunks at once, on the original

  ghost function End(hunks: seq<Hunk>, places: seq<int>): int
    requires |places| == |hunks|
  {
    if hunks == [] then 0 else places[|hunks| - 1] + |Old(hunks[|hunks| - 1])|
  }

  /** The hunks sit in the original file in order, without overlap, each on an exact match. */
  ghost predicate Fits(content: seq<string>, hunks: seq<Hunk>, places: seq<int>) {
    |places| == |hunks| &&
    (hunks == [] ||
     var n := |hunks| - 1;
     && Fits(content, hunks[..n], places[..n])
     && End(hunks[..n], places[..n]) <= places[n]
     && MatchesAt(content, Old(hunks[n]), places[n]))
  }

  lemma {:induction false} EndWithin(content: seq<string>, hunks: seq<Hunk>, places: seq<int>)
    requires Fits(content, hunks, places)
    ensures 0 <= End(hunks, places) <= |content|
  {
  }

  /** The original up to the last hunk, with every hunk's segment replaced. */
  ghost function Replaced(content: seq<string>, hunks: seq<Hunk>, places: seq<int>): seq<string>
    requires Fits(content, hunks, places)
  {
    if hunks == [] then []
    else
      var n := |hunks| - 1;
      EndWithin(content, hunks[..n], places[..n]);
      Replaced(content, hunks[..n], places[..n])
        + content[End(hunks[..n], places[..n])..places[n]] + New(hunks[n])
  }

  /** Replacing all segments of the original at once. */
  ghost function Simultaneous(content: seq<string>, hunks: seq<Hunk>, places: seq<int>): seq<string>
    requires Fits(content, hunks, places)
  {
    EndWithin(content, hunks, places);
    Replaced(content, hunks, places) + content[End(hunks, places)..]
  }

  /** From the floor on, the current lines are the original ones. */
  lemma TailAgrees(cur: seq<string>, orig: seq<string>, done: seq<string>, end: int, pos: int, len: nat)
    requires 0 <= end <= |orig| && cur == done + orig[end..]
    requires |done| <= pos && pos + len <= |cur|
    ensures var place := pos - |done| + end;
      && place + len <= |orig|
      && cur[pos..pos + len] == orig[place..place + len]
      && cur[..pos] == done + orig[end..place]
      && cur[pos + len..] == orig[place + len..]
  {
  }

  lemma AlignedTail(cur: seq<string>, orig: seq<string>, done: seq<string>, end: int, place: int, len: nat)
    requires 0 <= end <= place && place + len <= |orig| && cur == done + orig[end..]
    ensures var pos := place - end + |done|;
      pos + len <= |cur| && cur[pos..pos + len] == orig[place..place + len]
  {
    TailAgrees(cur, orig, done, end, place - end + |done|, len);
  }

  lemma PlaceInBounds(h: Hunk, no: nat, p: Progress)
    requires Place(h, no, p).Ok?
    ensures var pos := Place(h, no, p).value;
      p.floor <= pos && MatchesAt(p.lines, Old(h), pos)
  {
    var expected := Declared(h) + p.offset;
    if Old(h) != [] {
      var s := Search(p.lines, Old(h), expected, p.floor, MAX_RELOCATION);
      assert s.Candidate(s.Locate().at);
    }
  }

  /** The loop variables mean what they should: the lines are the original with the hunks so
      far replaced, the floor is their end now, the resize is how far that end has moved. */
  ghost predicate InStep(content: seq<string>, hunks: seq<Hunk>, p: Progress) {
    && Fits(content, hunks, p.places)
    && p.lines == Simultaneous(content, hunks, p.places)
    && p.floor == |Replaced(content, hunks, p.places)|
    && p.resize == p.floor - End(hunks, p.places)
  }

  lemma AdvanceInStep(content: seq<string>, hunks: seq<Hunk>, h: Hunk, no: nat, pos: int, p: Progress)
    requires InStep(content, hunks, p)
    requires p.floor <= pos && MatchesAt(p.lines, Old(h), pos)
    ensures InStep(content, hunks + [h], Advance(h, no, pos, p))
  {
    var q := Advance(h, no, pos, p);
    var n := |hunks|;
    EndWithin(content, hunks, p.places);
    TailAgrees(p.lines, content, Replaced(content, hunks, p.places), End(hunks, p.places), pos, |Old(h)|);
    assert (hunks + [h])[..n] == hunks && q.places[..n] == p.places;
    assert MatchesAt(content, Old(h), q.places[n]);
    assert Fits(content, hunks + [h], q.places);
    assert p.lines[..pos] + New(h) == Replaced(content, hunks + [h], q.places);
  }

  /** Applying hunks one after another, with carried offsets and a floor, is applying them all
      at once to the original at the places found. */
  lemma {:induction false} SequentialIsSimultaneous(content: seq<string>, hunks: seq<Hunk>)
    requires RunHunks(content, hunks).Ok?
    ensures InStep(content, hunks, RunHunks(content, hunks).value)
  {
    if hunks != [] {
      var before, h, no := hunks[..|hunks| - 1], hunks[|hunks| - 1], |hunks|;
      assert before + [h] == hunks;
      SequentialIsSimultaneous(content, before);
      var p := RunHunks(content, before).value;
      assert RunHunks(content, hunks) == Step(h, no, p);
      PlaceInBounds(h, no, p);
      AdvanceInStep(content, before, h, no, Place(h, no, p).value, p);
    }
  }

  ghost function DeclaredPlaces(hunks: seq<Hunk>): (places: seq<int>)
    ensures |places| == |hunks|
    ensures forall i :: 0 <= i < |hunks| ==> places[i] == Declared(hunks[i])
  {
    seq(|hunks|, i requires 0 <= i < |hunks| => Declared(hunks[i]))
  }

  /** With nothing shifted so far, a hunk that fits where declared is found there. */
  lemma DeclaredIsFound(content: seq<string>, hunks: seq<Hunk>, p: Progress, h: Hunk, no: nat)
    requires InStep(content, hunks, p) && p.offset == p.resize
    requires End(hunks, p.places) <= Declared(h) && MatchesAt(content, Old(h), Declared(h))
    ensures Place(h, no, p) == Ok(Declared(h) + p.resize)
  {
    EndWithin(content, hunks, p.places);
    AlignedTail(p.lines, content, Replaced(content, hunks, p.places), End(hunks, p.places), Declared(h), |Old(h)|);
    if Old(h) != [] {
      Search(p.lines, Old(h), Declared(h) + p.offset, p.floor, MAX_RELOCATION).HereIsFound();
    }
  }

  lemma NothingShifted(content: seq<string>, hunks: seq<Hunk>)
    requires RunHunks(content, hunks).Ok? && RunHunks(content, hunks).value.places == DeclaredPlaces(hunks)
    ensures RunHunks(content, hunks).value.offset == RunHunks(content, hunks).value.resize
  {
    SequentialIsSimultaneous(content, hunks);
  }

  /** One more hunk is reported as moved exactly when it was. */
  lemma MovesStep(content: seq<string>, hunks: seq<Hunk>, p: Progress, q: Progress)
    requires hunks != [] && |p.places| == |hunks| - 1
    requires Step(hunks[|hunks| - 1], |hunks|, p) == Ok(q)
    requires p.moves == [] <==> p.places == DeclaredPlaces(hunks[..|hunks| - 1])
    ensures q.moves == [] <==> q.places == DeclaredPlaces(hunks)
  {
    var n := |hunks| - 1;
    assert DeclaredPlaces(hunks) == DeclaredPlaces(hunks[..n]) + [Declared(hunks[n])];
    assert q.places == p.places + [q.places[n]];
    assert q.places == DeclaredPlaces(hunks) ==> q.places[..n] == DeclaredPlaces(hunks)[..n];
  }

  lemma FitsLast(content: seq<string>, hunks: seq<Hunk>, before: seq<int>)
    requires hunks != [] && before == DeclaredPlaces(hunks[..|hunks| - 1])
    requires Fits(content, hunks, DeclaredPlaces(hunks))
    ensures var h := hunks[|hunks| - 1];
      && DeclaredPlaces(hunks) == before + [Declared(h)]
      && End(hunks[..|hunks| - 1], before) <= Declared(h) && MatchesAt(content, Old(h), Declared(h))
  {
    assert DeclaredPlaces(hunks)[..|hunks| - 1] == before;
  }

  lemma StepAsDeclared(h: Hunk, no: nat, p: Progress)
    requires Place(h, no, p) == Ok(Declared(h) + p.resize)
    ensures Step(h, no, p).Ok? && Step(h, no, p).value.places == p.places + [Declared(h)]
  {
    PlaceInBounds(h, no, p);
  }

  /** Where the hunks so far went where declared, a next one that fits does so too. */
  lemma FitStep(content: seq<string>, hunks: seq<Hunk>, p: Progress)
    requires hunks != [] && RunHunks(content, hunks[..|hunks| - 1]) == Ok(p)
    requires p.places == DeclaredPlaces(hunks[..|hunks| - 1]) && Fits(content, hunks, DeclaredPlaces(hunks))
    ensures var next := Step(hunks[|hunks| - 1], |hunks|, p);
      next.Ok? && next.value.places == DeclaredPlaces(hunks)
  {
    var before, h := hunks[..|hunks| - 1], hunks[|hunks| - 1];
    FitsLast(content, hunks, p.places);
    SequentialIsSimultaneous(content, before);
    NothingShifted(content, before);
    DeclaredIsFound(content, before, p, h, |hunks|);
    StepAsDeclared(h, |hunks|, p);
  }

  /** The search extends strict application: hunks that fit where their headers say go there,
      and Moves() is empty exactly when every hunk did. */
  lemma {:induction false} DeclaredFitIsApplied(content: seq<string>, hunks: seq<Hunk>)
    ensures Fits(content, hunks, DeclaredPlaces(hunks)) <==>
              RunHunks(content, hunks).Ok? && RunHunks(content, hunks).value.moves == []
    ensures RunHunks(content, hunks).Ok? ==>
              (RunHunks(content, hunks).value.moves == [] <==>
               RunHunks(content, hunks).value.places == DeclaredPlaces(hunks))
  {
    if hunks != [] {
      var before := hunks[..|hunks| - 1];
      DeclaredFitIsApplied(content, before);
      if Fits(content, hunks, DeclaredPlaces(hunks)) {
        assert DeclaredPlaces(hunks)[..|hunks| - 1] == DeclaredPlaces(before);
        FitStep(content, hunks, RunHunks(content, before).value);
      }
      if RunHunks(content, hunks).Ok? {
        SequentialIsSimultaneous(content, before);
        SequentialIsSimultaneous(content, hunks);
        MovesStep(content, hunks, RunHunks(content, before).value, RunHunks(content, hunks).value);
      }
    }
  }

  /** A single hunk that fits where declared replaces its segment. */
  lemma OneFits(content: seq<string>, h: Hunk)
    requires MatchesAt(content, Old(h), Declared(h))
    ensures var hs, places, at := [h], DeclaredPlaces([h]), Declared(h);
      && places == [at] && Fits(content, hs, places)
      && Simultaneous(content, hs, places) == content[..at] + New(h) + content[at + |Old(h)|..]
  {
    var hs, places, at := [h], DeclaredPlaces([h]), Declared(h);
    assert places == [at] && hs[..0] == [] && places[..0] == [];
    assert Fits(content, hs[..0], places[..0]) && End(hs[..0], places[..0]) == 0;
    assert Fits(content, hs, places);
    assert Replaced(content, hs[..0], places[..0]) == [] && [] + content[0..at] == content[..at];
  }

  lemma FitIsReplaced(content: seq<string>, hunks: seq<Hunk>, result: seq<string>)
    requires Fits(content, hunks, DeclaredPlaces(hunks))
    requires Simultaneous(content, hunks, DeclaredPlaces(hunks)) == result
    ensures var run := RunHunks(content, hunks);
      run.Ok? && run.value.moves == [] && run.value.lines == result
  {
    DeclaredFitIsApplied(content, hunks);
    SequentialIsSimultaneous(content, hunks);
  }
}
