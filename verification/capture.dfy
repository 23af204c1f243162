/** Captured command output: a bounded buffer that agrees with truncating the whole stream. */
module Capture {
  import opened Prelude

  const NEWLINE: Byte := 10

  const ELLIPSIS: seq<Byte> := [0xE2, 0x80, 0xA6]
  const LEFT_MARK: seq<Byte> := [0xE2, 0x80, 0xB9]
  const RIGHT_MARK: seq<Byte> := [0xE2, 0x80, 0xBA]
  const BLANK_LINE: seq<Byte> := [NEWLINE, NEWLINE]

  /** " output truncated " */
  const WORDS: seq<Byte> := [32, 111, 117, 116, 112, 117, 116, 32, 116, 114, 117, 110, 99, 97, 116, 101, 100, 32]

  const MARKER: seq<Byte> := BLANK_LINE + (LEFT_MARK + (ELLIPSIS + (WORDS + (ELLIPSIS + (RIGHT_MARK + BLANK_LINE)))))

  const MAX_OUTPUT_BYTES := 204800
  const WRITER_SAFETY_CAP_BYTES := 4 * MAX_OUTPUT_BYTES

  const NEAR := 200
  const LEAST_BUDGET := 16

  // ----------------------------------------------------------- truncation

  /** utf8.RuneStart */
  predicate RuneStart(b: Byte) { b < 0x80 || b >= 0xC0 }

  /** The last newline before `end`, or -1. */
  function LastNewline(s: seq<Byte>, end: nat): (r: int)
    requires end <= |s|
    ensures -1 <= r < end && (r >= 0 ==> s[r] == NEWLINE)
  {
    if end == 0 then -1 else if s[end - 1] == NEWLINE then end - 1 else LastNewline(s, end - 1)
  }

  /** The first newline from `start` on, or -1. */
  function FirstNewline(s: seq<Byte>, start: nat): (r: int)
    requires start <= |s|
    ensures r == -1 || (start <= r < |s| && s[r] == NEWLINE)
    decreases |s| - start
  {
    if start == |s| then -1 else if s[start] == NEWLINE then start else FirstNewline(s, start + 1)
  }

  function BackOff(s: seq<Byte>, cut: nat): (r: nat)
    requires cut < |s|
    ensures r <= cut && (r == 0 || RuneStart(s[r]))
  {
    if cut > 0 && !RuneStart(s[cut]) then BackOff(s, cut - 1) else cut
  }

  function GoOn(s: seq<Byte>, cut: nat): (r: nat)
    requires cut <= |s|
    ensures cut <= r <= |s| && (r == |s| || RuneStart(s[r]))
    decreases |s| - cut
  {
    if cut < |s| && !RuneStart(s[cut]) then GoOn(s, cut + 1) else cut
  }

  /** Where safeCut ends its piece. */
  function CutAt(s: seq<Byte>, n: nat): (r: nat)
    ensures r <= |s| && r <= n
  {
    if n >= |s| then |s|
    else
      var idx := LastNewline(s, n);
      if idx > n - NEAR && idx > 0 then idx else BackOff(s, n)
  }

  /** Where safeCutTail starts its piece. */
  function TailAt(s: seq<Byte>, n: nat): (r: nat)
    ensures r <= |s| && |s| - r <= n
  {
    if n >= |s| then 0
    else
      var cut := |s| - n;
      var idx := FirstNewline(s, cut);
      if idx >= 0 && idx - cut < NEAR then idx + 1 else GoOn(s, cut)
  }

  /** The limit leaves room for the marker and some text. */
  predicate Roomy(max: int) {
    max - |MARKER| >= LEAST_BUDGET
  }

  function HeadOf(max: int): (n: nat)
    requires Roomy(max)
    ensures n <= max - |MARKER|
  {
    (max - |MARKER|) * 2 / 3
  }

  function TailOf(max: int): (n: nat)
    requires Roomy(max)
    ensures n + HeadOf(max) + |MARKER| == max
  {
    max - |MARKER| - HeadOf(max)
  }

  function Truncated(s: seq<Byte>, max: int): (seq<Byte>, bool) {
    if max <= 0 || |s| <= max then (s, false)
    else if !Roomy(max) then (s[..CutAt(s, max)], true)
    else (BothEnds(s, HeadOf(max), TailOf(max)), true)
  }

  function BothEnds(s: seq<Byte>, head: nat, tail: nat): seq<Byte> {
    s[..CutAt(s, head)] + MARKER + s[TailAt(s, tail)..]
  }

  /** safeCut */
  method SafeCut(s: seq<Byte>, n: nat) returns (r: seq<Byte>)
    ensures r == s[..CutAt(s, n)]
  {
    if n >= |s| {
      return s;
    }
    var cut := n;
    var idx := LastNewline(s, cut);
    if idx > cut - NEAR && idx > 0 {
      return s[..idx];
    }
    while cut > 0 && !RuneStart(s[cut])
      invariant 0 <= cut <= n && BackOff(s, n) == BackOff(s, cut)
    {
      cut := cut - 1;
    }
    r := s[..cut];
  }

  /** safeCutTail */
  method SafeCutTail(s: seq<Byte>, n: nat) returns (r: seq<Byte>)
    ensures r == s[TailAt(s, n)..]
  {
    if n >= |s| {
      return s;
    }
    var start := |s| - n;
    var idx := FirstNewline(s, start);
    if idx >= 0 && idx - start < NEAR {
      return s[idx + 1..];
    }
    var cut := start;
    while cut < |s| && !RuneStart(s[cut])
      invariant start <= cut <= |s| && GoOn(s, start) == GoOn(s, cut)
    {
      cut := cut + 1;
    }
    r := s[cut..];
  }

  /** Truncate */
  method Truncate(s: seq<Byte>, maxBytes: int) returns (r: seq<Byte>, truncated: bool)
    ensures (r, truncated) == Truncated(s, maxBytes)
  {
    if maxBytes <= 0 || |s| <= maxBytes {
      return s, false;
    }
    var budget := maxBytes - |MARKER|;
    if budget < LEAST_BUDGET {
      r := SafeCut(s, maxBytes);
      return r, true;
    }
    var head := budget * 2 / 3;
    var tail := budget - head;
    var front := SafeCut(s, head);
    var back := SafeCutTail(s, tail);
    return front + MARKER + back, true;
  }

  // ------------------------------------------------------------ the buffer

  function Head(cap: nat): (n: nat)
    ensures n <= cap
  {
    cap / 2
  }

  /** What is kept of a stream: all of it, or its first and last bytes. */
  function Kept(stream: seq<Byte>, cap: nat): seq<Byte> {
    if |stream| <= cap then stream else Ends(stream, Head(cap), cap - Head(cap))
  }

  function Ends(stream: seq<Byte>, head: nat, tail: nat): (r: seq<Byte>)
    requires head + tail <= |stream|
    ensures |r| == head + tail
  {
    stream[..head] + stream[|stream| - tail..]
  }

  /** Capturing what was captured so far and a chunk more is capturing the whole. */
  lemma KeptAgain(stream: seq<Byte>, p: seq<Byte>, cap: nat)
    ensures Kept(Kept(stream, cap) + p, cap) == Kept(stream + p, cap)
  {
    if |stream| > cap {
      var kept := Ends(stream, Head(cap), cap - Head(cap));
      EndsAgain(stream, p, Head(cap), cap - Head(cap));
      assert |kept + p| == cap + |p| && |stream + p| > cap;
      if p == [] {
        assert Kept(kept + p, cap) == kept + p;
      } else {
        assert Kept(kept + p, cap) == Ends(kept + p, Head(cap), cap - Head(cap));
      }
    }
  }

  lemma EndsAgain(stream: seq<Byte>, p: seq<Byte>, head: nat, tail: nat)
    requires |stream| > head + tail
    ensures Ends(Ends(stream, head, tail) + p, head, tail) == Ends(stream + p, head, tail)
    ensures p == [] ==> Ends(stream, head, tail) + p == Ends(stream + p, head, tail)
  {
    var kept := Ends(stream, head, tail);
    assert (kept + p)[..head] == (stream + p)[..head];
    assert kept[head..] == stream[|stream| - tail..];
    assert (kept + p)[|kept + p| - tail..] == (stream + p)[|stream + p| - tail..];
  }

  class CapWriter {
    const cap: nat
    var buf: seq<Byte>
    ghost var stream: seq<Byte>

    constructor (cap: nat)
      ensures this.cap == cap && Valid() && stream == []
    {
      this.cap, buf, stream := cap, [], [];
    }

    /** The buffer holds the stream, or its exact head and tail. */
    ghost predicate Valid()
      reads this
    {
      buf == Kept(stream, cap)
    }

    /** Write: whatever the chunks, only the stream they make up matters. */
    method Write(p: seq<Byte>) returns (n: nat)
      requires Valid()
      modifies this
      ensures Valid() && stream == old(stream) + p && n == |p|
    {
      n := |p|;
      KeptAgain(stream, p, cap);
      buf := buf + p;
      if |buf| > cap {
        var half := cap / 2;
        var head := buf[..half];
        var tail := buf[|buf| - (cap - half)..];
        buf := head + tail;
      }
      stream := stream + p;
    }
  }

  // ---------------------------------------------- truncating what was kept

  /** Two outputs that truncation cannot tell apart. */
  ghost predicate SameEnds(s: seq<Byte>, t: seq<Byte>, n: nat) {
    |s| > n && |t| > n && s[..n + 1] == t[..n + 1] && s[|s| - n..] == t[|t| - n..]
  }

  lemma {:induction false} SameLastNewline(s: seq<Byte>, t: seq<Byte>, end: nat)
    requires end <= |s| && end <= |t| && s[..end] == t[..end]
    ensures LastNewline(s, end) == LastNewline(t, end)
  {
    if end > 0 {
      assert s[end - 1] == s[..end][end - 1] && t[end - 1] == t[..end][end - 1];
      assert s[..end - 1] == s[..end][..end - 1] && t[..end - 1] == t[..end][..end - 1];
      SameLastNewline(s, t, end - 1);
    }
  }

  lemma {:induction false} SameBackOff(s: seq<Byte>, t: seq<Byte>, cut: nat)
    requires cut < |s| && cut < |t| && s[..cut + 1] == t[..cut + 1]
    ensures BackOff(s, cut) == BackOff(t, cut)
  {
    assert s[cut] == s[..cut + 1][cut] && t[cut] == t[..cut + 1][cut];
    if cut > 0 {
      assert s[..cut] == s[..cut + 1][..cut] && t[..cut] == t[..cut + 1][..cut];
      SameBackOff(s, t, cut - 1);
    }
  }

  lemma SameCut(s: seq<Byte>, t: seq<Byte>, n: nat)
    requires n < |s| && n < |t| && s[..n + 1] == t[..n + 1]
    ensures s[..CutAt(s, n)] == t[..CutAt(t, n)]
  {
    assert s[..n] == s[..n + 1][..n] && t[..n] == t[..n + 1][..n];
    SameLastNewline(s, t, n);
    SameBackOff(s, t, n);
    assert s[..CutAt(s, n)] == s[..n + 1][..CutAt(s, n)] && t[..CutAt(t, n)] == t[..n + 1][..CutAt(t, n)];
  }

  lemma {:induction false} SameFirstNewline(s: seq<Byte>, t: seq<Byte>, k: nat)
    requires k <= |s| && k <= |t| && s[|s| - k..] == t[|t| - k..]
    ensures var i, j := FirstNewline(s, |s| - k), FirstNewline(t, |t| - k);
      (i < 0 && j < 0) || (i >= 0 && j >= 0 && |s| - i == |t| - j)
  {
    if k > 0 {
      assert s[|s| - k] == s[|s| - k..][0] && t[|t| - k] == t[|t| - k..][0];
      assert s[|s| - (k - 1)..] == s[|s| - k..][1..] && t[|t| - (k - 1)..] == t[|t| - k..][1..];
      SameFirstNewline(s, t, k - 1);
    }
  }

  lemma {:induction false} SameGoOn(s: seq<Byte>, t: seq<Byte>, k: nat)
    requires k <= |s| && k <= |t| && s[|s| - k..] == t[|t| - k..]
    ensures |s| - GoOn(s, |s| - k) == |t| - GoOn(t, |t| - k)
  {
    if k > 0 {
      assert s[|s| - k] == s[|s| - k..][0] && t[|t| - k] == t[|t| - k..][0];
      assert s[|s| - (k - 1)..] == s[|s| - k..][1..] && t[|t| - (k - 1)..] == t[|t| - k..][1..];
      SameGoOn(s, t, k - 1);
    }
  }

  lemma SameTail(s: seq<Byte>, t: seq<Byte>, n: nat)
    requires n < |s| && n < |t| && s[|s| - n..] == t[|t| - n..]
    ensures s[TailAt(s, n)..] == t[TailAt(t, n)..]
  {
    SameFirstNewline(s, t, n);
    SameGoOn(s, t, n);
    var i, j := TailAt(s, n), TailAt(t, n);
    assert |s| - i == |t| - j <= n;
    assert s[i..] == s[|s| - n..][n - (|s| - i)..] && t[j..] == t[|t| - n..][n - (|t| - j)..];
  }

  lemma ShorterEnds(s: seq<Byte>, t: seq<Byte>, n: nat, head: nat, tail: nat)
    requires SameEnds(s, t, n) && head <= n && tail <= n
    ensures s[..head + 1] == t[..head + 1] && s[|s| - tail..] == t[|t| - tail..]
  {
    assert s[..head + 1] == s[..n + 1][..head + 1] && t[..head + 1] == t[..n + 1][..head + 1];
    assert s[|s| - tail..] == s[|s| - n..][n - tail..] && t[|t| - tail..] == t[|t| - n..][n - tail..];
  }

  lemma TruncatesAlike(s: seq<Byte>, t: seq<Byte>, max: nat)
    requires max > 0 && SameEnds(s, t, max)
    ensures Truncated(s, max) == Truncated(t, max)
  {
    if Roomy(max) {
      SamePieces(s, t, max, HeadOf(max), TailOf(max));
    } else {
      SameCut(s, t, max);
    }
  }

  lemma SamePieces(s: seq<Byte>, t: seq<Byte>, max: nat, head: nat, tail: nat)
    requires SameEnds(s, t, max) && head <= max && tail <= max
    ensures BothEnds(s, head, tail) == BothEnds(t, head, tail)
  {
    ShorterEnds(s, t, max, head, tail);
    SameCut(s, t, head);
    SameTail(s, t, tail);
  }

  /** For every stream and every chunking, truncating the bounded buffer is truncating the whole
      stream, and the flag says exactly whether the stream was longer than the limit. */
  lemma CaptureRefinesTruncation(stream: seq<Byte>, max: nat)
    requires max > 0
    ensures Truncated(Kept(stream, 4 * max), max) == Truncated(stream, max)
    ensures Truncated(stream, max).1 <==> |stream| > max
  {
    var cap := 4 * max;
    if |stream| > cap {
      assert Head(cap) == 2 * max;
      EndsLookAlike(stream, 2 * max, 2 * max, max);
      TruncatesAlike(Kept(stream, cap), stream, max);
    }
  }

  lemma EndsLookAlike(stream: seq<Byte>, head: nat, tail: nat, n: nat)
    requires head + tail < |stream| && n < head && n < tail
    ensures SameEnds(Ends(stream, head, tail), stream, n)
  {
    var kept := Ends(stream, head, tail);
    assert kept[..n + 1] == stream[..n + 1];
    assert kept[head..] == stream[|stream| - tail..];
    assert kept[|kept| - n..] == stream[|stream| - n..];
  }

  /** Output that was cut is never longer than the limit. */
  lemma NeverTooLong(stream: seq<Byte>, max: nat)
    requires max > 0
    ensures |Truncated(stream, max).0| <= max
  {
  }

  function Joined(chunks: seq<seq<Byte>>): seq<Byte> {
    if chunks == [] then [] else Joined(chunks[..|chunks| - 1]) + chunks[|chunks| - 1]
  }

  /** What Invoke makes of a command's output, however it arrives. */
  method CapturedOutput(chunks: seq<seq<Byte>>) returns (content: seq<Byte>, truncated: bool)
    ensures (content, truncated) == Truncated(Joined(chunks), MAX_OUTPUT_BYTES)
    ensures truncated <==> |Joined(chunks)| > MAX_OUTPUT_BYTES
    ensures |content| <= MAX_OUTPUT_BYTES
  {
    var w := new CapWriter(WRITER_SAFETY_CAP_BYTES);
    for i := 0 to |chunks|
      invariant w.Valid() && w.stream == Joined(chunks[..i])
    {
      assert chunks[..i + 1][..i] == chunks[..i];
      var n := w.Write(chunks[i]);
    }
    assert chunks[..|chunks|] == chunks;
    content, truncated := Truncate(w.buf, MAX_OUTPUT_BYTES);
    CaptureRefinesTruncation(w.stream, MAX_OUTPUT_BYTES);
    NeverTooLong(w.stream, MAX_OUTPUT_BYTES);
  }

  // ------------------------------------------------------------- UTF-8

  predicate Continues(s: seq<Byte>, i: nat, low: Byte, high: Byte) {
    i < |s| && low <= s[i] <= high
  }

  /** Two bytes that go on with any rune, at i. */
  predicate ContinuesTwice(s: seq<Byte>, i: nat) {
    Continues(s, i, 0x80, 0xBF) && Continues(s, i + 1, 0x80, 0xBF)
  }

  /** The length of the well-formed rune at the front, or 0. */
  function RuneLen(s: seq<Byte>): (n: nat)
    ensures n <= 4 && n <= |s|
  {
    if s == [] then 0
    else if s[0] < 0x80 then 1
    else if 0xC2 <= s[0] <= 0xDF && Continues(s, 1, 0x80, 0xBF) then 2
    else if s[0] == 0xE0 && Continues(s, 1, 0xA0, 0xBF) && Continues(s, 2, 0x80, 0xBF) then 3
    else if s[0] == 0xED && Continues(s, 1, 0x80, 0x9F) && Continues(s, 2, 0x80, 0xBF) then 3
    else if 0xE1 <= s[0] <= 0xEF && s[0] != 0xED && Continues(s, 1, 0x80, 0xBF) && Continues(s, 2, 0x80, 0xBF) then 3
    else if s[0] == 0xF0 && Continues(s, 1, 0x90, 0xBF) && ContinuesTwice(s, 2) then 4
    else if 0xF1 <= s[0] <= 0xF3 && Continues(s, 1, 0x80, 0xBF) && ContinuesTwice(s, 2) then 4
    else if s[0] == 0xF4 && Continues(s, 1, 0x80, 0x8F) && ContinuesTwice(s, 2) then 4
    else 0
  }

  predicate ValidUTF8(s: seq<Byte>)
    decreases |s|
  {
    s == [] || (RuneLen(s) > 0 && ValidUTF8(s[RuneLen(s)..]))
  }

  lemma RuneIsWhole(s: seq<Byte>, t: seq<Byte>)
    requires RuneLen(s) > 0 && RuneLen(s) <= |t| && t[..RuneLen(s)] == s[..RuneLen(s)]
    ensures RuneLen(t) == RuneLen(s)
    ensures forall i :: 0 < i < RuneLen(s) ==> !RuneStart(s[i])
  {
    var n := RuneLen(s);
    assert forall i :: 0 <= i < n ==> t[i] == t[..n][i] && s[i] == s[..n][i];
  }

  /** Valid text stays valid on both sides of a rune start. */
  lemma {:induction false} SplitsAtRuneStart(s: seq<Byte>, i: nat)
    requires ValidUTF8(s) && i < |s| && RuneStart(s[i])
    ensures ValidUTF8(s[..i]) && ValidUTF8(s[i..])
    decreases |s|
  {
    if i > 0 {
      var n := RuneLen(s);
      RuneIsWhole(s, s);
      assert i >= n;
      SplitsAtRuneStart(s[n..], i - n);
      assert s[..i][..n] == s[..n];
      RuneIsWhole(s, s[..i]);
      assert s[..i][n..] == s[n..][..i - n];
      assert s[i..] == s[n..][i - n..];
    } else {
      assert s[..0] == [] && s[0..] == s;
    }
  }

  lemma {:induction false} ValidConcat(a: seq<Byte>, b: seq<Byte>)
    requires ValidUTF8(a) && ValidUTF8(b)
    ensures ValidUTF8(a + b)
    decreases |a|
  {
    if a == [] {
      assert a + b == b;
    } else {
      var n := RuneLen(a);
      RuneIsWhole(a, a + b);
      ValidConcat(a[n..], b);
      assert (a + b)[n..] == a[n..] + b;
    }
  }

  lemma CutIsValid(s: seq<Byte>, n: nat)
    requires ValidUTF8(s)
    ensures ValidUTF8(s[..CutAt(s, n)])
  {
    var cut := CutAt(s, n);
    if cut == |s| {
      assert s[..cut] == s;
    } else if cut > 0 {
      SplitsAtRuneStart(s, cut);
    }
  }

  lemma TailIsValid(s: seq<Byte>, n: nat)
    requires ValidUTF8(s)
    ensures ValidUTF8(s[TailAt(s, n)..])
  {
    var cut := TailAt(s, n);
    if cut == |s| {
      assert s[cut..] == [];
    } else if n >= |s| {
      assert s[cut..] == s;
    } else if RuneStart(s[cut]) {
      SplitsAtRuneStart(s, cut);
    } else {
      AfterNewline(s, cut - 1);
    }
  }

  /** What follows a newline is a whole text. */
  lemma AfterNewline(s: seq<Byte>, i: nat)
    requires ValidUTF8(s) && i < |s| && s[i] == NEWLINE
    ensures ValidUTF8(s[i + 1..])
  {
    SplitsAtRuneStart(s, i);
    assert RuneLen(s[i..]) == 1 && s[i..][1..] == s[i + 1..];
  }

  lemma {:induction false} AsciiIsValid(s: seq<Byte>)
    requires forall i :: 0 <= i < |s| ==> s[i] < 0x80
    ensures ValidUTF8(s)
  {
    if s != [] {
      AsciiIsValid(s[1..]);
    }
  }

  lemma ThreeBytesAreValid(s: seq<Byte>)
    requires |s| == 3 && s[0] == 0xE2 && s[1] == 0x80 && 0x80 <= s[2] <= 0xBF
    ensures ValidUTF8(s)
  {
    assert RuneLen(s) == 3 && s[3..] == [];
  }

  lemma MarkerIsValid()
    ensures ValidUTF8(MARKER)
  {
    AsciiIsValid(BLANK_LINE);
    AsciiIsValid(WORDS);
    ThreeBytesAreValid(LEFT_MARK);
    ThreeBytesAreValid(ELLIPSIS);
    ThreeBytesAreValid(RIGHT_MARK);
    ValidConcat(RIGHT_MARK, BLANK_LINE);
    ValidConcat(ELLIPSIS, RIGHT_MARK + BLANK_LINE);
    ValidConcat(WORDS, ELLIPSIS + (RIGHT_MARK + BLANK_LINE));
    ValidConcat(ELLIPSIS, WORDS + (ELLIPSIS + (RIGHT_MARK + BLANK_LINE)));
    ValidConcat(LEFT_MARK, ELLIPSIS + (WORDS + (ELLIPSIS + (RIGHT_MARK + BLANK_LINE))));
    ValidConcat(BLANK_LINE, LEFT_MARK + (ELLIPSIS + (WORDS + (ELLIPSIS + (RIGHT_MARK + BLANK_LINE)))));
  }

  /** Valid output stays valid text, though the buffer's own middle may cut a rune in two. */
  lemma TruncationIsValid(stream: seq<Byte>, max: nat)
    requires ValidUTF8(stream) && max > 0
    ensures ValidUTF8(Truncated(Kept(stream, 4 * max), max).0)
  {
    CaptureRefinesTruncation(stream, max);
    if Roomy(max) {
      PiecesAreValid(stream, HeadOf(max), TailOf(max));
    } else {
      CutIsValid(stream, max);
    }
  }

  lemma PiecesAreValid(s: seq<Byte>, head: nat, tail: nat)
    requires ValidUTF8(s)
    ensures ValidUTF8(BothEnds(s, head, tail))
  {
    CutIsValid(s, head);
    TailIsValid(s, tail);
    MarkerIsValid();
    ValidConcat(s[..CutAt(s, head)], MARKER);
    ValidConcat(s[..CutAt(s, head)] + MARKER, s[TailAt(s, tail)..]);
  }

  // ------------------------------------------------- what the reader is shown

  /** utf8: a byte that goes on with a rune. */
  predicate GoesOn(b: Byte) { 0x80 <= b < 0xC0 }

  predicate NoNewline(s: seq<Byte>, from: nat, to: nat)
    requires to <= |s|
  {
    forall k :: from <= k < to ==> s[k] != 10
  }

  predicate AllGoOn(s: seq<Byte>, from: nat, to: nat)
    requires to <= |s|
  {
    forall k :: from <= k < to ==> GoesOn(s[k])
  }

  /** A head of n bytes stops at i: at the last line end of its last 199 bytes, else at the last rune start up to n. */
  predicate HeadStops(s: seq<Byte>, n: nat, i: nat)
    requires n < |s|
  {
    if NoNewline(s, if n < 200 then 1 else n - 199, n) then
      i <= n && AllGoOn(s, i + 1, n + 1) && (i == 0 || !GoesOn(s[i]))
    else
      0 < i < n && s[i] == 10 && NoNewline(s, i + 1, n)
  }

  /** A tail of n bytes starts at j: after the first line end of its first 200 bytes, else at its first rune start. */
  predicate TailStarts(s: seq<Byte>, n: nat, j: nat)
    requires n < |s|
  {
    var from := |s| - n;
    if NoNewline(s, from, if n < 200 then |s| else from + 200) then
      from <= j <= |s| && AllGoOn(s, from, j) && (j == |s| || !GoesOn(s[j]))
    else
      from < j <= |s| && s[j - 1] == 10 && NoNewline(s, from, j - 1)
  }

  lemma {:induction false} LastIsLast(s: seq<Byte>, end: nat)
    requires end <= |s|
    ensures NoNewline(s, LastNewline(s, end) + 1, end)
  {
    if end > 0 && s[end - 1] != NEWLINE {
      LastIsLast(s, end - 1);
    }
  }

  lemma {:induction false} FirstIsFirst(s: seq<Byte>, start: nat)
    requires start <= |s|
    ensures NoNewline(s, start, if FirstNewline(s, start) < 0 then |s| else FirstNewline(s, start))
    decreases |s| - start
  {
    if start < |s| && s[start] != NEWLINE {
      FirstIsFirst(s, start + 1);
    }
  }

  lemma {:induction false} BacksOverOneRune(s: seq<Byte>, cut: nat)
    requires cut < |s|
    ensures AllGoOn(s, BackOff(s, cut) + 1, cut + 1)
  {
    if cut > 0 && !RuneStart(s[cut]) {
      BacksOverOneRune(s, cut - 1);
    }
  }

  lemma {:induction false} GoesOverOneRune(s: seq<Byte>, cut: nat)
    requires cut <= |s|
    ensures AllGoOn(s, cut, GoOn(s, cut))
    decreases |s| - cut
  {
    if cut < |s| && !RuneStart(s[cut]) {
      GoesOverOneRune(s, cut + 1);
    }
  }

  lemma CutStops(s: seq<Byte>, n: nat)
    requires n < |s|
    ensures HeadStops(s, n, CutAt(s, n))
  {
    LastIsLast(s, n);
    BacksOverOneRune(s, n);
  }

  lemma TailAtStarts(s: seq<Byte>, n: nat)
    requires n < |s|
    ensures TailStarts(s, n, TailAt(s, n))
  {
    FirstIsFirst(s, |s| - n);
    GoesOverOneRune(s, |s| - n);
  }

  /** One place is right for a head, and one for a tail. */
  lemma StopsOnce(s: seq<Byte>, n: nat, i: nat, i': nat)
    requires n < |s| && HeadStops(s, n, i) && HeadStops(s, n, i')
    ensures i == i'
  {
  }

  lemma StartsOnce(s: seq<Byte>, n: nat, j: nat, j': nat)
    requires n < |s| && TailStarts(s, n, j) && TailStarts(s, n, j')
    ensures j == j'
  {
  }

  lemma {:induction false} RunesAreShort(s: seq<Byte>, k: nat)
    requires ValidUTF8(s) && k < |s|
    ensures exists b: nat, e: nat :: Rune(s, b, e) && b <= k < e
    decreases |s|
  {
    var n := RuneLen(s);
    RuneIsWhole(s, s);
    if k < n {
      assert n < |s| ==> RuneLen(s[n..]) > 0;
      assert Rune(s, 0, n);
    } else {
      RunesAreShort(s[n..], k - n);
      var b: nat, e: nat :| Rune(s[n..], b, e) && b <= k - n < e;
      assert Rune(s, n + b, n + e);
    }
  }

  /** The bytes from b to e are one rune: a first byte and at most three that go on with it. */
  predicate Rune(s: seq<Byte>, b: nat, e: nat) {
    && b < e <= |s|
    && e - b <= 4
    && !GoesOn(s[b])
    && AllGoOn(s, b + 1, e)
    && (e == |s| || !GoesOn(s[e]))
  }

  /** How far a head ends from its budget, and a tail starts from its own. */
  lemma NearItsBudget(s: seq<Byte>, n: nat, i: nat)
    requires ValidUTF8(s) && n < |s| && HeadStops(s, n, i)
    ensures i <= n < i + 200
    ensures NoNewline(s, if n < 200 then 1 else n - 199, n) ==> n <= i + 3
  {
    RunesAreShort(s, n);
    var b: nat, e: nat :| Rune(s, b, e) && b <= n < e;
    assert i < b ==> !GoesOn(s[b]);
  }

  lemma TailNearItsBudget(s: seq<Byte>, n: nat, j: nat)
    requires ValidUTF8(s) && 0 < n < |s| && TailStarts(s, n, j)
    ensures j <= |s| && |s| - n <= j <= |s| - n + 200
    ensures NoNewline(s, |s| - n, if n < 200 then |s| else |s| - n + 200) ==> j <= |s| - n + 3
  {
    RunesAreShort(s, |s| - n);
    var b: nat, e: nat :| Rune(s, b, e) && b <= |s| - n < e;
    assert e < j ==> !GoesOn(s[e]);
  }

  lemma MarkerReads()
    ensures MARKER == [10, 10, 0xE2, 0x80, 0xB9, 0xE2, 0x80, 0xA6, 32,
                       111, 117, 116, 112, 117, 116, 32, 116, 114, 117, 110, 99, 97, 116, 101, 100,
                       32, 0xE2, 0x80, 0xA6, 0xE2, 0x80, 0xBA, 10, 10]
    ensures |MARKER| == 34
  {
  }

  /** Output over the limit is shown as its head, the marker and its tail: two thirds of what the
      marker leaves and the rest of it, each up to a near line end, else to a whole rune. */
  lemma ShowsBothEnds(s: seq<Byte>, max: nat, i: nat, j: nat)
    requires 50 <= max < |s|
    requires HeadStops(s, (max - 34) * 2 / 3, i)
    requires TailStarts(s, max - 34 - (max - 34) * 2 / 3, j)
    ensures i <= |s| && j <= |s| && Truncated(s, max) == (s[..i] + MARKER + s[j..], true)
  {
    MarkerReads();
    CutStops(s, HeadOf(max));
    StopsOnce(s, HeadOf(max), i, CutAt(s, HeadOf(max)));
    TailAtStarts(s, TailOf(max));
    StartsOnce(s, TailOf(max), j, TailAt(s, TailOf(max)));
  }

  /** There are such places. */
  lemma BothEndsExist(s: seq<Byte>, max: nat) returns (i: nat, j: nat)
    requires 50 <= max < |s|
    ensures HeadStops(s, (max - 34) * 2 / 3, i)
    ensures TailStarts(s, max - 34 - (max - 34) * 2 / 3, j)
  {
    i, j := CutAt(s, (max - 34) * 2 / 3), TailAt(s, max - 34 - (max - 34) * 2 / 3);
    CutStops(s, (max - 34) * 2 / 3);
    TailAtStarts(s, max - 34 - (max - 34) * 2 / 3);
  }

  /** A limit with no room for both ends shows a head alone; output within the limit, or without one, is untouched. */
  lemma ShowsAHead(s: seq<Byte>, max: int, i: nat)
    requires max <= 0 || |s| <= max || (max < 50 && HeadStops(s, max, i))
    ensures max <= 0 || |s| <= max ==> Truncated(s, max) == (s, false)
    ensures 0 < max < |s| ==> i <= |s| && Truncated(s, max) == (s[..i], true)
  {
    MarkerReads();
    if 0 < max < |s| {
      CutStops(s, max);
      StopsOnce(s, max, i, CutAt(s, max));
    }
  }

  /** The output of a command over 200 KiB, as it is reported. */
  lemma LongOutputIsReported(output: seq<Byte>, i: nat, j: nat)
    requires |output| > 204800 && HeadStops(output, 136510, i) && TailStarts(output, 68256, j)
    ensures i <= |output| && j <= |output|
    ensures Truncated(output, MAX_OUTPUT_BYTES) == (output[..i] + MARKER + output[j..], true)
  {
    ShowsBothEnds(output, 204800, i, j);
  }
}
