/** Where the hunks of a patch go, in the line numbers of the file before any of them ran. */
module HunkPlacement {
  import opened Prelude
  import opened PatchTypes
  import opened Hunks

  // --------------------------------------------------------- one hunk's sides

  lemma {:induction false} SidesConcat(a: seq<HunkLine>, b: seq<HunkLine>)
    ensures OldSide(a + b) == OldSide(a) + OldSide(b)
    ensures NewSide(a + b) == NewSide(a) + NewSide(b)
  {
    if b == [] {
      assert a + b == a;
    } else {
      var n := |b| - 1;
      assert (a + b)[..|a| + n] == a + b[..n];
      SidesConcat(a, b[..n]);
    }
  }

  /** Context is on both sides, a removal on the old one, an addition on the new one, the no-newline
      marker on neither; a carriage return at the end of a line does not count. */
  lemma SidesOfLine(text: string)
    requires text == "" || text[|text| - 1] != '\r'
    ensures forall line :: line in [text, text + "\r"] ==>
      && OldSide([HunkLine(' ', line)]) == [text] && NewSide([HunkLine(' ', line)]) == [text]
      && OldSide([HunkLine('-', line)]) == [text] && NewSide([HunkLine('-', line)]) == []
      && OldSide([HunkLine('+', line)]) == [] && NewSide([HunkLine('+', line)]) == [text]
      && OldSide([HunkLine('\\', line)]) == [] && NewSide([HunkLine('\\', line)]) == []
  {
    forall line, c | line in [text, text + "\r"]
      ensures [HunkLine(c, line)][..0] == [] && TrimCR(line) == text
    {
    }
  }

  // ------------------------------------------------------ the law of placement

  /** The part of a file that hunk `h` would replace at p. */
  ghost predicate StandsAt(content: seq<string>, h: Hunk, p: int) {
    0 <= p && p + |Old(h)| <= |content| && content[p..p + |Old(h)|] == Old(h)
  }

  /** Hunk `h`, expected at e and not before `floor`, goes to p: an insertion exactly where it is
      expected, another hunk to the one nearest place where its old side stands, at most ten
      lines away. */
  ghost predicate GoesTo(content: seq<string>, h: Hunk, e: int, floor: int, p: int) {
    && floor <= p && StandsAt(content, h, p)
    && if Old(h) == [] then p == e
       else
         && p - 10 <= e <= p + 10
         && forall q :: floor <= q && StandsAt(content, h, q) && Dist(q, e) <= Dist(p, e) ==> q == p
  }

  /** Where a hunk is expected: as far from the hunk before it as their headers say. */
  ghost function Expected(hunks: seq<Hunk>, places: seq<int>, h: Hunk): int
    requires |places| == |hunks|
  {
    if hunks == [] then Declared(h)
    else places[|hunks| - 1] + Declared(h) - Declared(hunks[|hunks| - 1])
  }

  /** Every hunk goes where the law sends it, given those before it. */
  ghost predicate Lawful(content: seq<string>, hunks: seq<Hunk>, places: seq<int>) {
    |places| == |hunks| &&
    (hunks == [] ||
     var n := |hunks| - 1;
     && Lawful(content, hunks[..n], places[..n])
     && GoesTo(content, hunks[n], Expected(hunks[..n], places[..n], hunks[n]), End(hunks[..n], places[..n]), places[n]))
  }

  lemma {:induction false} LawfulIsUnique(content: seq<string>, hunks: seq<Hunk>, places: seq<int>, others: seq<int>)
    requires Lawful(content, hunks, places) && Lawful(content, hunks, others)
    ensures places == others
  {
    if hunks != [] {
      var n := |hunks| - 1;
      LawfulIsUnique(content, hunks[..n], places[..n], others[..n]);
      assert places == places[..n] + [places[n]] && others == others[..n] + [others[n]];
    }
  }

  /** From the floor on, the current lines are the original ones from `end` on. */
  ghost predicate SameTail(content: seq<string>, end: int, p: Progress) {
    && 0 <= end <= |content| && p.floor <= |p.lines| && p.lines[p.floor..] == content[end..]
    && p.resize == p.floor - end
  }

  lemma TailIsSame(content: seq<string>, hunks: seq<Hunk>, p: Progress)
    requires InStep(content, hunks, p)
    ensures SameTail(content, End(hunks, p.places), p)
  {
    EndWithin(content, hunks, p.places);
  }

  /** Past the floor the current lines match exactly where the original ones do. */
  lemma MatchesCarry(content: seq<string>, end: int, p: Progress, h: Hunk, q: int)
    requires SameTail(content, end, p)
    ensures p.floor <= q && MatchesAt(p.lines, Old(h), q) <==> end <= q - p.resize && StandsAt(content, h, q - p.resize)
  {
    var k := q - p.floor;
    if 0 <= k && q + |Old(h)| <= |p.lines| {
      assert p.lines[q..q + |Old(h)|] == p.lines[p.floor..][k..k + |Old(h)|];
      assert content[end + k..end + k + |Old(h)|] == content[end..][k..k + |Old(h)|];
    }
  }

  lemma FoundIsNearest(s: Search, p: int)
    ensures s.Locate() == Found(p) <==>
      s.Candidate(p) && forall q :: s.Candidate(q) && Dist(q, s.expected) <= Dist(p, s.expected) ==> q == p
  {
    if s.Candidate(p) && forall q :: s.Candidate(q) && Dist(q, s.expected) <= Dist(p, s.expected) ==> q == p {
      assert s.Nearest(p);
      assert s.Answers(Found(p));
      s.AnswerIsUnique(Found(p), s.Locate());
    }
    if s.Locate() == Found(p) {
      forall q | s.Candidate(q) && Dist(q, s.expected) <= Dist(p, s.expected) ensures q == p {
        assert s.Nearest(q);
      }
    }
  }

  /** The search in the current lines and the nearest match in the original. */
  lemma NearestCarries(content: seq<string>, end: int, p: Progress, h: Hunk, e: int, pos: int)
    requires SameTail(content, end, p) && Old(h) != []
    ensures Search(p.lines, Old(h), e, p.floor, MAX_RELOCATION).Locate() == Found(pos)
       <==> GoesTo(content, h, e - p.resize, end, pos - p.resize)
  {
    var s := Search(p.lines, Old(h), e, p.floor, MAX_RELOCATION);
    FoundIsNearest(s, pos);
    MatchesCarry(content, end, p, h, pos);
    if s.Locate() == Found(pos) {
      forall q | end <= q && StandsAt(content, h, q) && Dist(q, e - p.resize) <= Dist(pos, e)
        ensures q == pos - p.resize
      {
        MatchesCarry(content, end, p, h, q + p.resize);
        assert s.Candidate(q + p.resize);
      }
    }
    if GoesTo(content, h, e - p.resize, end, pos - p.resize) {
      forall q | s.Candidate(q) && Dist(q, e) <= Dist(pos, e) ensures q == pos {
        MatchesCarry(content, end, p, h, q);
      }
    }
  }

  lemma PlacedExactly(content: seq<string>, end: int, p: Progress, h: Hunk, no: nat, pos: int)
    requires SameTail(content, end, p)
    ensures Place(h, no, p) == Ok(pos)
       <==> GoesTo(content, h, Declared(h) + p.offset - p.resize, end, pos - p.resize)
  {
    if Old(h) == [] {
      MatchesCarry(content, end, p, h, pos);
    } else {
      NearestCarries(content, end, p, h, Declared(h) + p.offset, pos);
    }
  }

  /** The carried offset, less the resize, is how far the last hunk is from where it was declared. */
  lemma OffsetCarries(content: seq<string>, hunks: seq<Hunk>, p: Progress, h: Hunk)
    requires RunHunks(content, hunks) == Ok(p)
    ensures |p.places| == |hunks|
    ensures Declared(h) + p.offset - p.resize == Expected(hunks, p.places, h)
  {
    SequentialIsSimultaneous(content, hunks);
    if hunks != [] {
      var n := |hunks| - 1;
      SequentialIsSimultaneous(content, hunks[..n]);
    }
  }

  lemma StepPlaces(h: Hunk, no: nat, p: Progress, place: int)
    ensures Step(h, no, p).Ok? && Step(h, no, p).value.places == p.places + [place]
       <==> Place(h, no, p) == Ok(place + p.resize)
  {
    if Place(h, no, p).Ok? {
      PlaceInBounds(h, no, p);
      assert (p.places + [place])[|p.places|] == place;
    }
  }

  /** What the run has come to before its next hunk. */
  lemma RunSoFar(content: seq<string>, hunks: seq<Hunk>, p: Progress, h: Hunk)
    requires RunHunks(content, hunks) == Ok(p)
    ensures |p.places| == |hunks| && SameTail(content, End(hunks, p.places), p)
    ensures Declared(h) + p.offset - p.resize == Expected(hunks, p.places, h)
  {
    SequentialIsSimultaneous(content, hunks);
    TailIsSame(content, hunks, p);
    OffsetCarries(content, hunks, p, h);
  }

  lemma StepsExactly(content: seq<string>, end: int, p: Progress, h: Hunk, no: nat, place: int)
    requires SameTail(content, end, p)
    ensures Step(h, no, p).Ok? && Step(h, no, p).value.places == p.places + [place]
       <==> GoesTo(content, h, Declared(h) + p.offset - p.resize, end, place)
  {
    PlacedExactly(content, end, p, h, no, place + p.resize);
    StepPlaces(h, no, p, place);
  }

  lemma LastPlaced(content: seq<string>, hunks: seq<Hunk>, p: Progress, h: Hunk, place: int)
    requires RunHunks(content, hunks) == Ok(p)
    ensures |p.places| == |hunks|
    ensures Step(h, |hunks| + 1, p).Ok? && Step(h, |hunks| + 1, p).value.places == p.places + [place]
       <==> GoesTo(content, h, Expected(hunks, p.places, h), End(hunks, p.places), place)
  {
    RunSoFar(content, hunks, p, h);
    StepsExactly(content, End(hunks, p.places), p, h, |hunks| + 1, place);
  }

  /** A patch is applied exactly when its hunks can go where the law sends them, and they go there:
      each is found the nearest to where the shift of the one before it leads, in the file before
      any of them ran. */
  lemma {:induction false} AppliedExactly(content: seq<string>, hunks: seq<Hunk>, places: seq<int>)
    ensures RunHunks(content, hunks).Ok? && RunHunks(content, hunks).value.places == places
       <==> Lawful(content, hunks, places)
  {
    if RunHunks(content, hunks).Ok? {
      SequentialIsSimultaneous(content, hunks);
    }
    if hunks != [] && |places| == |hunks| {
      var n := |hunks| - 1;
      AppliedExactly(content, hunks[..n], places[..n]);
      if RunHunks(content, hunks[..n]).Ok? {
        var p := RunHunks(content, hunks[..n]).value;
        if p.places == places[..n] {
          LastPlaced(content, hunks[..n], p, hunks[n], places[n]);
          assert places == p.places + [places[n]];
        } else if RunHunks(content, hunks).Ok? {
          assert RunHunks(content, hunks).value.places[..n] == p.places;
        }
      }
    }
  }

  // --------------------------------------------------------- what it refuses

  /** Why the hunk after those that have been placed goes nowhere. */
  ghost predicate RefusedFor(content: seq<string>, h: Hunk, no: nat, e: int, floor: int, why: Conflict) {
    match why
    case PastEnd(n) => n == no && Old(h) == [] && e > |content|
    case InsidePrevious(n) => n == no && Old(h) == [] && e <= |content| && e < floor
    case NoMatch(n) =>
      n == no && Old(h) != [] && forall q :: floor <= q && StandsAt(content, h, q) ==> Dist(q, e) > 10
    case TwoMatches(n, lower, upper) =>
      && n == no && Old(h) != [] && floor <= lower < upper && upper - e == e - lower <= 10
      && StandsAt(content, h, lower) && StandsAt(content, h, upper)
      && forall q :: floor <= q && StandsAt(content, h, q) ==> Dist(q, e) >= e - lower
  }

  /** The same conflict, in the numbering of the file `resize` lines on. */
  function Renumbered(why: Conflict, resize: int): Conflict {
    if why.TwoMatches? then TwoMatches(why.hunk, why.lower + resize, why.upper + resize) else why
  }

  lemma NoneCarries(content: seq<string>, end: int, p: Progress, h: Hunk, e: int, far: nat)
    requires SameTail(content, end, p)
    requires forall q :: p.floor <= q && MatchesAt(p.lines, Old(h), q) ==> Dist(q, e) >= far
    ensures forall q :: end <= q && StandsAt(content, h, q) ==> Dist(q, e - p.resize) >= far
  {
    forall q | end <= q && StandsAt(content, h, q) ensures Dist(q, e - p.resize) >= far {
      MatchesCarry(content, end, p, h, q + p.resize);
    }
  }

  lemma NowhereCarries(content: seq<string>, end: int, p: Progress, h: Hunk, no: nat, e: int)
    requires SameTail(content, end, p) && Old(h) != []
    requires Search(p.lines, Old(h), e, p.floor, MAX_RELOCATION).Locate() == Nowhere
    ensures RefusedFor(content, h, no, e - p.resize, end, NoMatch(no))
  {
    var s := Search(p.lines, Old(h), e, p.floor, MAX_RELOCATION);
    assert forall q :: p.floor <= q && MatchesAt(p.lines, Old(h), q) ==> !s.Candidate(q);
    NoneCarries(content, end, p, h, e, 11);
  }

  lemma TwoCarry(content: seq<string>, end: int, p: Progress, h: Hunk, no: nat, e: int, lower: int, upper: int)
    requires SameTail(content, end, p) && Old(h) != []
    requires Search(p.lines, Old(h), e, p.floor, MAX_RELOCATION).Locate() == Ambiguous(lower, upper)
    ensures RefusedFor(content, h, no, e - p.resize, end, TwoMatches(no, lower - p.resize, upper - p.resize))
  {
    var s := Search(p.lines, Old(h), e, p.floor, MAX_RELOCATION);
    assert s.Candidate(lower) && s.Candidate(upper) && Dist(lower, e) <= Dist(upper, e) <= Dist(lower, e);
    MatchesCarry(content, end, p, h, lower);
    MatchesCarry(content, end, p, h, upper);
    forall q | p.floor <= q && MatchesAt(p.lines, Old(h), q) ensures Dist(q, e) >= Dist(lower, e) {
      assert Dist(q, e) <= 10 ==> s.Candidate(q);
    }
    NoneCarries(content, end, p, h, e, Dist(lower, e));
  }

  lemma InsertionRefused(content: seq<string>, end: int, p: Progress, h: Hunk, no: nat)
    requires SameTail(content, end, p) && Old(h) == [] && Place(h, no, p).Err?
    ensures RefusedFor(content, h, no, Declared(h) + p.offset - p.resize, end, Place(h, no, p).error)
    ensures !Place(h, no, p).error.TwoMatches?
  {
    assert |p.lines| - p.floor == |p.lines[p.floor..]| == |content| - end;
  }

  lemma SearchFails(p: Progress, h: Hunk, no: nat, r: Located)
    requires Old(h) != [] && Place(h, no, p).Err?
    requires r == Search(p.lines, Old(h), Declared(h) + p.offset, p.floor, MAX_RELOCATION).Locate()
    ensures !r.Found?
    ensures Place(h, no, p).error == if r == Nowhere then NoMatch(no) else TwoMatches(no, r.lower, r.upper)
  {
  }

  lemma SearchRefused(content: seq<string>, end: int, p: Progress, h: Hunk, no: nat, e: int, r: Located)
    requires SameTail(content, end, p) && Old(h) != [] && !r.Found?
    requires r == Search(p.lines, Old(h), e, p.floor, MAX_RELOCATION).Locate()
    ensures var why := if r == Nowhere then NoMatch(no) else TwoMatches(no, r.lower, r.upper);
      RefusedFor(content, h, no, e - p.resize, end, Renumbered(why, -p.resize))
  {
    if r == Nowhere {
      NowhereCarries(content, end, p, h, no, e);
    } else {
      TwoCarry(content, end, p, h, no, e, r.lower, r.upper);
    }
  }

  lemma RefusedHere(content: seq<string>, end: int, p: Progress, h: Hunk, no: nat)
    requires SameTail(content, end, p) && Place(h, no, p).Err?
    ensures RefusedFor(content, h, no, Declared(h) + p.offset - p.resize, end,
                       Renumbered(Place(h, no, p).error, -p.resize))
  {
    if Old(h) == [] {
      InsertionRefused(content, end, p, h, no);
    } else {
      var e := Declared(h) + p.offset;
      var r := Search(p.lines, Old(h), e, p.floor, MAX_RELOCATION).Locate();
      SearchFails(p, h, no, r);
      SearchRefused(content, end, p, h, no, e, r);
    }
  }

  /** Hunk k is the first that goes nowhere, and why the patch is refused. */
  ghost predicate RefusedAt(content: seq<string>, hunks: seq<Hunk>, k: nat, places: seq<int>, why: Conflict) {
    && k < |hunks| && Lawful(content, hunks[..k], places)
    && RefusedFor(content, hunks[k], k + 1, Expected(hunks[..k], places, hunks[k]), End(hunks[..k], places), why)
  }

  lemma RefusedNext(content: seq<string>, before: seq<Hunk>, p: Progress, h: Hunk, why: Conflict)
    requires RunHunks(content, before) == Ok(p) && Place(h, |before| + 1, p) == Err(why)
    ensures RefusedAt(content, before + [h], |before|, p.places, Renumbered(why, -p.resize))
  {
    RunSoFar(content, before, p, h);
    AppliedExactly(content, before, p.places);
    RefusedHere(content, End(before, p.places), p, h, |before| + 1);
    assert (before + [h])[..|before|] == before;
  }

  lemma RefusedLater(content: seq<string>, before: seq<Hunk>, h: Hunk, k: nat, places: seq<int>, why: Conflict)
    requires RefusedAt(content, before, k, places, why)
    ensures RefusedAt(content, before + [h], k, places, why)
  {
    assert (before + [h])[..k] == before[..k];
  }

  lemma RunSnoc(content: seq<string>, before: seq<Hunk>, h: Hunk)
    ensures var run := RunHunks(content, before);
      RunHunks(content, before + [h]) == if run.Err? then run else Step(h, |before| + 1, run.value)
  {
    assert (before + [h])[..|before|] == before;
  }

  lemma StepFails(h: Hunk, no: nat, p: Progress, why: Conflict)
    requires Step(h, no, p) == Err(why)
    ensures Place(h, no, p) == Err(why)
  {
  }

  /** A patch that is not applied has a first hunk that goes nowhere, and is refused for it. */
  lemma {:induction false} RefusedExactly(content: seq<string>, hunks: seq<Hunk>, why: Conflict)
    returns (k: nat, places: seq<int>, resize: int)
    requires RunHunks(content, hunks) == Err(why)
    ensures RefusedAt(content, hunks, k, places, Renumbered(why, -resize))
    decreases |hunks|, 1
  {
    var before, h := hunks[..|hunks| - 1], hunks[|hunks| - 1];
    assert hunks == before + [h];
    if RunHunks(content, before).Err? {
      k, places, resize := RefusedBefore(content, hunks, before, h, why);
    } else {
      k, places, resize := RefusedOne(content, hunks, before, h, why);
    }
  }

  lemma RefusedBefore(content: seq<string>, hunks: seq<Hunk>, before: seq<Hunk>, h: Hunk, why: Conflict)
    returns (k: nat, places: seq<int>, resize: int)
    requires RunHunks(content, before).Err? && hunks == before + [h] && RunHunks(content, hunks) == Err(why)
    ensures RefusedAt(content, hunks, k, places, Renumbered(why, -resize))
    decreases |before|, 2
  {
    RunSnoc(content, before, h);
    k, places, resize := RefusedExactly(content, before, why);
    RefusedLater(content, before, h, k, places, Renumbered(why, -resize));
  }

  lemma RefusedLast(content: seq<string>, hunks: seq<Hunk>, before: seq<Hunk>, p: Progress, h: Hunk, why: Conflict)
    requires RunHunks(content, before) == Ok(p) && hunks == before + [h] && RunHunks(content, hunks) == Err(why)
    ensures RefusedAt(content, hunks, |before|, p.places, Renumbered(why, -p.resize))
  {
    RunSnoc(content, before, h);
    StepFails(h, |before| + 1, p, why);
    RefusedNext(content, before, p, h, why);
  }

  lemma RefusedOne(content: seq<string>, hunks: seq<Hunk>, before: seq<Hunk>, h: Hunk, why: Conflict)
    returns (k: nat, places: seq<int>, resize: int)
    requires RunHunks(content, before).Ok? && hunks == before + [h] && RunHunks(content, hunks) == Err(why)
    ensures RefusedAt(content, hunks, k, places, Renumbered(why, -resize))
  {
    var p := RunHunks(content, before).value;
    k, places, resize := |before|, p.places, p.resize;
    RefusedLast(content, hunks, before, p, h, why);
  }

  // ---------------------------------------------- shifted, and as declared

  /** The places where the headers say, all shifted by d. */
  function ShiftedBy(hunks: seq<Hunk>, d: int): seq<int> {
    seq(|hunks|, i requires 0 <= i < |hunks| => Declared(hunks[i]) + d)
  }

  /** Once the first hunk is found d lines off, the others go d lines off if they fit there. */
  lemma {:induction false} ShiftCarries(content: seq<string>, hunks: seq<Hunk>, d: int)
    requires hunks != [] && Fits(content, hunks, ShiftedBy(hunks, d))
    requires GoesTo(content, hunks[0], Declared(hunks[0]), 0, Declared(hunks[0]) + d)
    ensures RunHunks(content, hunks).Ok? && RunHunks(content, hunks).value.places == ShiftedBy(hunks, d)
  {
    ShiftIsLawful(content, hunks, d);
    AppliedExactly(content, hunks, ShiftedBy(hunks, d));
  }

  lemma {:induction false} ShiftIsLawful(content: seq<string>, hunks: seq<Hunk>, d: int)
    requires hunks != [] && Fits(content, hunks, ShiftedBy(hunks, d))
    requires GoesTo(content, hunks[0], Declared(hunks[0]), 0, Declared(hunks[0]) + d)
    ensures Lawful(content, hunks, ShiftedBy(hunks, d))
  {
    var n := |hunks| - 1;
    assert ShiftedBy(hunks, d)[..n] == ShiftedBy(hunks[..n], d);
    if n == 0 {
      assert Lawful(content, hunks[..0], []);
    } else {
      ShiftIsLawful(content, hunks[..n], d);
      var e := Declared(hunks[n]) + d;
      assert Expected(hunks[..n], ShiftedBy(hunks[..n], d), hunks[n]) == e;
      assert StandsAt(content, hunks[n], e);
    }
  }

  lemma OneDeclared(content: seq<string>, h: Hunk, at: int)
    requires at == Declared(h) && StandsAt(content, h, at)
    ensures var run := RunHunks(content, [h]);
      run.Ok? && run.value.moves == [] && run.value.lines == content[..at] + New(h) + content[at + |Old(h)|..]
  {
    OneFits(content, h);
    FitIsReplaced(content, [h], content[..at] + New(h) + content[at + |Old(h)|..]);
  }

  /** A hunk counts its old lines from 1, and goes where they are. */
  lemma ReplacesWhereDeclared(content: seq<string>, h: Hunk)
    requires Old(h) != [] && 1 <= h.oldStart && h.oldStart - 1 + |Old(h)| <= |content|
    requires content[h.oldStart - 1..h.oldStart - 1 + |Old(h)|] == Old(h)
    ensures var run := RunHunks(content, [h]);
      && run.Ok? && run.value.moves == []
      && run.value.lines == content[..h.oldStart - 1] + New(h) + content[h.oldStart - 1 + |Old(h)|..]
  {
    OneDeclared(content, h, h.oldStart - 1);
  }

  /** An insertion goes after the line its header names, line 0 being the start of the file. */
  lemma InsertsAfterLine(content: seq<string>, h: Hunk)
    requires Old(h) == [] && 0 <= h.oldStart <= |content|
    ensures var run := RunHunks(content, [h]);
      && run.Ok? && run.value.moves == []
      && run.value.lines == content[..h.oldStart] + New(h) + content[h.oldStart..]
  {
    OneDeclared(content, h, h.oldStart);
  }

  // ------------------------------------------------------ what is reported

  /** The line a hunk at p is reported at: its first old line, or the line it was inserted after. */
  function LineAt(h: Hunk, p: int): int {
    if Old(h) == [] then p else p + 1
  }

  /** Exactly the hunks away from the line their header names are reported, in order. */
  function Reported(hunks: seq<Hunk>, places: seq<int>): seq<HunkMove>
    requires |places| == |hunks|
  {
    if hunks == [] then []
    else
      var n := |hunks| - 1;
      var line := LineAt(hunks[n], places[n]);
      var before := Reported(hunks[..n], places[..n]);
      if line == hunks[n].oldStart then before
      else before + [HunkMove(n + 1, hunks[n].oldStart, line, Old(hunks[n]) == [])]
  }

  lemma MovesGrow(h: Hunk, no: nat, p: Progress)
    requires Step(h, no, p).Ok?
    ensures var q := Step(h, no, p).value;
      && q.places != [] && q.places == p.places + [q.places[|q.places| - 1]]
      && var line := LineAt(h, q.places[|q.places| - 1]);
         q.moves == if line == h.oldStart then p.moves else p.moves + [HunkMove(no, h.oldStart, line, Old(h) == [])]
  {
    PlaceInBounds(h, no, p);
  }

  lemma {:induction false} MovesAreReported(content: seq<string>, hunks: seq<Hunk>)
    requires RunHunks(content, hunks).Ok?
    ensures var p := RunHunks(content, hunks).value;
      |p.places| == |hunks| && p.moves == Reported(hunks, p.places)
  {
    if hunks != [] {
      var n := |hunks| - 1;
      var p := RunHunks(content, hunks[..n]).value;
      MovesAreReported(content, hunks[..n]);
      MovesGrow(hunks[n], |hunks|, p);
      assert Step(hunks[n], |hunks|, p).value.places[..n] == p.places;
    }
  }
}
