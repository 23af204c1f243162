/** Compaction in the log, which names the replaced range by the indices of the live messages. */
module CompactionLog {
  import opened Prelude
  import opened Conversation
  import opened SessionLog
  import opened LogRebuilds
  import opened Compaction
  import opened Strings

  // ------------------------------------------------- what the log makes of messages

  /** How many messages Resume makes of each: none of a silent one, and one more for each thinking
      block with something after it. */
  function LinesOf(conv: seq<Message>): seq<nat> {
    seq(|conv|, i requires 0 <= i < |conv| => |NormMessage(conv[i])|)
  }

  function Silents(lines: seq<nat>): nat {
    if lines == [] then 0 else Silents(lines[..|lines| - 1]) + if lines[|lines| - 1] == 0 then 1 else 0
  }

  function Extras(lines: seq<nat>): nat {
    if lines == [] then 0
    else Extras(lines[..|lines| - 1]) + if lines[|lines| - 1] == 0 then 0 else lines[|lines| - 1] - 1
  }

  /** No user message is empty: each has some text, or a result. */
  ghost predicate UsersSpeak(conv: seq<Message>) {
    forall i :: 0 <= i < |conv| && conv[i].role == User ==> conv[i].content != []
  }

  lemma SpeaksPrefix(conv: seq<Message>)
    requires UsersSpeak(conv) && conv != []
    ensures UsersSpeak(conv[..|conv| - 1])
  {
  }

  /** How many messages Resume shows: what comes after a silent one joins what is before it. */
  function ShownCount(lines: seq<nat>): nat {
    if lines == [] then 0
    else
      var n := |lines| - 1;
      ShownCount(lines[..n]) + if n > 0 && lines[n - 1] == 0 then 0 else lines[n]
  }

  ghost predicate CountAgrees(conv: seq<Message>) {
    && |Shown(conv)| == ShownCount(LinesOf(conv))
    && (EndsOnUserMsg(Shown(conv)) <==> conv != [] && (EndsOnUser(conv) || LinesOf(conv)[|conv| - 1] == 0))
  }

  lemma LinesSnoc(conv: seq<Message>, m: Message)
    ensures LinesOf(conv + [m]) == LinesOf(conv) + [|NormMessage(m)|]
  {
  }

  lemma CountSnoc(lines: seq<nat>, k: nat)
    ensures ShownCount(lines + [k]) == ShownCount(lines) + if lines != [] && lines[|lines| - 1] == 0 then 0 else k
  {
    assert (lines + [k])[..|lines|] == lines;
  }

  lemma {:induction false} ShownLength(conv: seq<Message>)
    requires Alternates(conv)
    ensures CountAgrees(conv)
  {
    if conv != [] {
      var pre, m := conv[..|conv| - 1], conv[|conv| - 1];
      AlternatesPrefix(conv);
      ShownLength(pre);
      if m.role == User {
        UserGrows(pre, m);
      } else {
        AssistantGrows(pre, m);
      }
    }
  }

  lemma UserGrows(conv: seq<Message>, m: Message)
    requires CountAgrees(conv) && m.role == User && !EndsOnUser(conv)
    ensures CountAgrees(conv + [m])
  {
    LinesSnoc(conv, m);
    CountSnoc(LinesOf(conv), 1);
    ShownUser(conv, m);
    JoinLength(Shown(conv), Message(User, NormBlocks(m.content)));
  }

  lemma JoinLength(conv: seq<Message>, m: Message)
    requires m.role == User
    ensures |Join1(conv, m)| == |conv| + (if EndsOnUserMsg(conv) then 0 else 1) && EndsOnUserMsg(Join1(conv, m))
  {
  }

  lemma AssistantGrows(conv: seq<Message>, m: Message)
    requires CountAgrees(conv) && m.role == Assistant && EndsOnUser(conv)
    ensures CountAgrees(conv + [m])
  {
    var more := NormMessage(m);
    LinesSnoc(conv, m);
    CountSnoc(LinesOf(conv), |more|);
    ShownAssistant(conv, m);
    ThoughtsAreAssistant(m.content);
    EndsAfter(Shown(conv), more);
    assert LinesOf(conv)[|conv| - 1] == 1;
  }

  lemma EndsAfter(a: seq<Message>, b: seq<Message>)
    requires forall m :: m in b ==> m.role == Assistant
    ensures EndsOnUserMsg(a + b) == (b == [] && EndsOnUserMsg(a))
  {
    if b == [] {
      assert a + b == a;
    } else {
      assert b[|b| - 1] in b;
    }
  }

  /** Between user messages of one line each, a silent message costs two: itself, and the user
      message after it. */
  lemma {:induction false} CountIs(lines: seq<nat>)
    requires forall i :: 0 <= i < |lines| && i % 2 == 0 ==> lines[i] == 1
    ensures var joins := if lines == [] then 0 else Silents(lines[..|lines| - 1]);
      ShownCount(lines) == |lines| + Extras(lines) - Silents(lines) - joins
  {
    if lines != [] {
      var n := |lines| - 1;
      CountIs(lines[..n]);
      if n > 0 {
        assert Silents(lines[..n]) == Silents(lines[..n][..n - 1]) + if lines[n - 1] == 0 then 1 else 0;
        assert (n - 1) % 2 == 0 || n % 2 == 0;
      }
    }
  }

  /** Every user message that Resume shows says something. */
  lemma {:induction false} ShownSpeaks(conv: seq<Message>)
    requires UsersSpeak(conv)
    ensures UsersSpeak(Shown(conv))
  {
    if conv != [] {
      var pre, m := conv[..|conv| - 1], conv[|conv| - 1];
      SpeaksPrefix(conv);
      ShownSpeaks(pre);
      assert conv == pre + [m];
      SpeaksOn(pre, m);
    }
  }

  lemma SpeaksOn(conv: seq<Message>, m: Message)
    requires UsersSpeak(Shown(conv)) && (m.role == User ==> m.content != [])
    ensures UsersSpeak(Shown(conv + [m]))
  {
    if m.role == User {
      ShownUser(conv, m);
      NormBlocksLength(m.content);
      SpeaksJoined(Shown(conv), Message(User, NormBlocks(m.content)));
    } else {
      ShownAssistant(conv, m);
      ThoughtsAreAssistant(m.content);
      SpeaksAfter(Shown(conv), NormMessage(m));
    }
  }

  lemma SpeaksJoined(conv: seq<Message>, m: Message)
    requires UsersSpeak(conv) && m.content != []
    ensures UsersSpeak(Join1(conv, m))
  {
  }

  lemma SpeaksAfter(a: seq<Message>, b: seq<Message>)
    requires UsersSpeak(a) && forall m :: m in b ==> m.role == Assistant
    ensures UsersSpeak(a + b)
  {
    forall i | 0 <= i < |a + b| ensures (a + b)[i].role == User ==> (a + b)[i].content != [] {
      if i >= |a| {
        assert b[i - |a|] in b;
      }
    }
  }

  // ------------------------------------------------- staying in step with the log

  /** The range means the same messages in the log.  `upTo` are the live messages up to its end:
      messages 1 and the last one are logged, and the silent ones between, two missing for each, are
      made up for by as many extra ones. */
  predicate RangeKept(upTo: seq<Message>)
    requires |upTo| >= 2
  {
    var lines := LinesOf(upTo);
    lines[1] != 0 && lines[|upTo| - 1] != 0 && Extras(lines) == 2 * Silents(lines)
  }

  lemma SummaryIsNormal(text: string)
    requires text != ""
    ensures NormMessage(Summary(text)) == [Summary(text)]
  {
    var content := [Text(text)];
    assert content[..0] == [] && content[|content| - 1] == Text(text);
    assert JoinedText(content) == JoinedText([]) + text == text;
    assert CallEvents(content) == CallEvents([]) + [] == [] && Thoughts(content) == Thoughts([]) + [] == [];
    assert Spoken(text, []).content == [Text(text)] + CallBlocks([]) == content;
  }

  lemma ShownOfCompacted(u: Message, c: seq<Message>, text: string)
    requires u.role == User && text != ""
    ensures Shown([u, Summary(text)] + c) == NormMessage(u) + [Summary(text)] + Shown(c)
  {
    assert [u, Summary(text)] == [u] + [Summary(text)];
    ShownConcat([u, Summary(text)], c);
    ShownAssistant([u], Summary(text));
    ShownOne(u);
    SummaryIsNormal(text);
  }

  /** Cutting `to + 1` messages off two conversations in a row leaves the second exactly when the
      first has that many and the two do not meet. */
  lemma CompactedMeet(p: seq<Message>, c: seq<Message>, u: Message, to: nat, text: string)
    requires p != [] && c != [] && c[0].role == User && 1 <= to
    requires EndsOnUserMsg(p) ==> p[|p| - 1].content != []
    ensures Compacted(Meet(p, c), 1, to, text) == Some([u] + [Summary(text)] + c)
       <==> |p| == to + 1 && !EndsOnUserMsg(p) && p[0] == u
  {
    var whole := Meet(p, c);
    if to < |whole| {
      var cut := whole[..1] + [Summary(text)] + whole[to + 1..];
      if EndsOnUserMsg(p) {
        if |p| == to + 2 {
          assert cut[2] == whole[to + 1] && cut[2].content == p[|p| - 1].content + c[0].content;
          assert ([u] + [Summary(text)] + c)[2] == c[0];
          assert |cut[2].content| > |c[0].content|;
        } else {
          assert |cut| != |[u] + [Summary(text)] + c|;
        }
      } else if |p| == to + 1 {
        assert whole[to + 1..] == c && whole[..1] == [p[0]];
        assert cut[0] == p[0];
      } else {
        assert |cut| != |[u] + [Summary(text)] + c|;
      }
    }
  }

  /** The first message stays itself unless a silent one joins the next to it. */
  lemma FirstStays(conv: seq<Message>)
    requires Alternates(conv) && UsersSpeak(conv) && |conv| >= 2 && !Silent(conv[|conv| - 1])
    ensures Shown(conv) != []
    ensures [Shown(conv)[0]] == NormMessage(conv[0]) <==> !Silent(conv[1])
  {
    var u, a, rest := conv[0], conv[1], conv[2..];
    assert conv == [u, a] + rest && conv[1].role == Assistant;
    ShownConcat([u, a], rest);
    ShownPair(u, a);
    if Silent(a) {
      assert rest != [] && rest[0] == conv[2] && rest[0].role == User && rest[0].content != [];
      ShownOpens(rest);
      FirstJoins(NormMessage(u)[0], Shown(rest));
    } else {
      FirstIs(NormMessage(u)[0], NormMessage(a), Shown(rest));
    }
  }

  lemma ShownPair(u: Message, a: Message)
    requires u.role == User && a.role == Assistant
    ensures Shown([u, a]) == NormMessage(u) + NormMessage(a)
    ensures NormMessage(a) != [] ==> NormMessage(a)[|NormMessage(a)| - 1].role == Assistant
  {
    assert [u, a] == [u] + [a];
    ShownAssistant([u], a);
    ShownOne(u);
    ThoughtsAreAssistant(a.content);
  }

  lemma FirstJoins(u: Message, rest: seq<Message>)
    requires u.role == User && rest != [] && rest[0].role == User && rest[0].content != []
    ensures Meet([u] + [], rest) != [] && Meet([u] + [], rest)[0] != u
  {
    assert [u] + [] == [u];
    assert |u.content + rest[0].content| > |u.content|;
  }

  lemma FirstIs(u: Message, more: seq<Message>, rest: seq<Message>)
    requires more != [] && more[|more| - 1].role == Assistant
    ensures Meet([u] + more, rest) != [] && Meet([u] + more, rest)[0] == u
  {
  }

  lemma PartsSpeak(pre: seq<Message>, c: seq<Message>)
    requires UsersSpeak(pre) && pre != [] && c != [] && pre[0].role == User && c[0].role == User
    ensures var p, d := Shown(pre), Shown(c);
      p != [] && d != [] && d[0].role == User && (EndsOnUserMsg(p) ==> p[|p| - 1].content != [])
  {
    ShownOpens(pre);
    ShownOpens(c);
    ShownSpeaks(pre);
  }

  lemma UserLines(conv: seq<Message>)
    requires Alternates(conv)
    ensures forall i :: 0 <= i < |conv| && i % 2 == 0 ==> LinesOf(conv)[i] == 1
  {
  }

  lemma CountUpTo(lines: seq<nat>)
    requires forall i :: 0 <= i < |lines| && i % 2 == 0 ==> lines[i] == 1
    requires lines != [] && lines[|lines| - 1] != 0
    ensures ShownCount(lines) == |lines| + Extras(lines) - 2 * Silents(lines)
  {
    CountIs(lines);
  }

  /** How many messages Resume shows of the range and what is before it. */
  lemma UpToLength(upTo: seq<Message>)
    requires Alternates(upTo) && upTo != [] && !EndsOnUser(upTo)
    ensures var lines := LinesOf(upTo);
      && (EndsOnUserMsg(Shown(upTo)) <==> lines[|upTo| - 1] == 0)
      && (lines[|upTo| - 1] != 0 ==> |Shown(upTo)| == |upTo| + Extras(lines) - 2 * Silents(lines))
  {
    ShownLength(upTo);
    UserLines(upTo);
    if LinesOf(upTo)[|upTo| - 1] != 0 {
      CountUpTo(LinesOf(upTo));
    }
  }

  /** What the range is like in the messages that Resume shows. */
  lemma KeptShown(upTo: seq<Message>)
    requires |upTo| >= 2 && Alternates(upTo) && UsersSpeak(upTo) && !EndsOnUser(upTo)
    ensures var p := Shown(upTo);
      && p != []
      && (RangeKept(upTo) <==> |p| == |upTo| && !EndsOnUserMsg(p) && [p[0]] == NormMessage(upTo[0]))
  {
    UpToLength(upTo);
    ShownOpens(upTo);
    if LinesOf(upTo)[|upTo| - 1] != 0 {
      FirstStays(upTo);
    }
  }

  lemma CutMeet(upTo: seq<Message>, c: seq<Message>, text: string)
    requires |upTo| >= 2 && Alternates(upTo) && UsersSpeak(upTo) && !EndsOnUser(upTo)
    requires c != [] && c[0].role == User
    ensures Compacted(Meet(Shown(upTo), Shown(c)), 1, |upTo| - 1, text)
         == Some(NormMessage(upTo[0]) + [Summary(text)] + Shown(c))
       <==> RangeKept(upTo)
  {
    PartsSpeak(upTo, c);
    KeptShown(upTo);
    CompactedMeet(Shown(upTo), Shown(c), NormMessage(upTo[0])[0], |upTo| - 1, text);
  }

  /** Cutting the range out of what Resume has rebuilt. */
  lemma CutShown(upTo: seq<Message>, c: seq<Message>, text: string)
    requires |upTo| >= 2 && Alternates(upTo) && UsersSpeak(upTo) && !EndsOnUser(upTo)
    requires c != [] && c[0].role == User && text != ""
    ensures Compacted(Shown(upTo + c), 1, |upTo| - 1, text) == Some(Shown([upTo[0], Summary(text)] + c))
       <==> RangeKept(upTo)
  {
    ShownConcat(upTo, c);
    ShownOfCompacted(upTo[0], c, text);
    CutMeet(upTo, c, text);
  }

  lemma CompactedIs(conv: seq<Message>, to: nat, text: string, next: seq<Message>)
    requires 1 <= to && to + 1 < |conv| && Compacted(conv, 1, to, text) == Some(next)
    ensures conv == conv[..to + 1] + conv[to + 1..] && next == [conv[0], Summary(text)] + conv[to + 1..]
  {
    assert conv[..1] + [Summary(text)] == [conv[0], Summary(text)];
  }

  lemma UpToEnds(conv: seq<Message>, to: nat)
    requires Alternates(conv) && UsersSpeak(conv) && 1 <= to && to + 1 < |conv| && conv[to + 1].role == User
    ensures Alternates(conv[..to + 1]) && UsersSpeak(conv[..to + 1]) && !EndsOnUser(conv[..to + 1])
  {
  }

  lemma InStepAt(conv: seq<Message>, to: nat, text: string, next: seq<Message>)
    requires Alternates(conv) && UsersSpeak(conv) && 1 <= to && to + 1 < |conv| && conv[to + 1].role == User
    requires Compacted(conv, 1, to, text) == Some(next) && text != ""
    ensures Compacted(Shown(conv), 1, to, text) == Some(Shown(next)) <==> RangeKept(conv[..to + 1])
  {
    CompactedIs(conv, to, text, next);
    UpToEnds(conv, to);
    CutShown(conv[..to + 1], conv[to + 1..], text);
  }

  lemma PlanEnds(conv: seq<Message>, to: nat)
    requires Plan(conv) == Some((1, to))
    ensures 1 <= to && to + 1 < |conv| && conv[to + 1].role == User
  {
    PlanKeepsFourTurns(conv);
  }

  /** The log names the replaced range by live message indices, Resume by those of what it has
      rebuilt.  From there it gets to the compacted conversation exactly when the range is kept. */
  lemma CompactionInStep(conv: seq<Message>, to: nat, text: string, next: seq<Message>)
    requires Alternates(conv) && UsersSpeak(conv) && Plan(conv) == Some((1, to)) && text != ""
    requires Compacted(conv, 1, to, text) == Some(next)
    ensures Compacted(Shown(conv), 1, to, text) == Some(Shown(next)) <==> RangeKept(conv[..to + 1])
  {
    PlanEnds(conv, to);
    InStepAt(conv, to, text, next);
  }

  // ----------------------------------------------- without thinking, or silence

  /** A message that the log keeps as one message. */
  predicate OneLine(m: Message) {
    |NormMessage(m)| == 1
  }

  ghost predicate Unthinking(m: Message) {
    m.role == User || forall b :: b in m.content ==> !b.Reasoning?
  }

  /** Without thinking, a message is kept as one unless it says nothing. */
  lemma OneLineWithoutThinking(m: Message)
    requires Unthinking(m)
    ensures OneLine(m) <==> !Silent(m)
    ensures |NormMessage(m)| <= 1
  {
    if m.role == Assistant {
      NoThoughts(m.content);
    }
  }

  lemma {:induction false} NoThoughts(content: seq<Block>)
    requires forall b :: b in content ==> !b.Reasoning?
    ensures Thoughts(content) == []
  {
    if content != [] {
      NoThoughts(content[..|content| - 1]);
      assert content[|content| - 1] in content;
    }
  }

  lemma {:induction false} NothingExtra(lines: seq<nat>)
    requires forall i :: 0 <= i < |lines| ==> lines[i] <= 1
    ensures Extras(lines) == 0
    ensures Silents(lines) == 0 <==> forall i :: 0 <= i < |lines| ==> lines[i] == 1
  {
    if lines != [] {
      NothingExtra(lines[..|lines| - 1]);
      assert forall i :: 0 <= i < |lines| - 1 ==> lines[..|lines| - 1][i] == lines[i];
    }
  }

  lemma {:induction false} NothingSilent(lines: seq<nat>)
    requires forall i :: 0 <= i < |lines| ==> lines[i] != 0
    ensures Silents(lines) == 0
    ensures Extras(lines) == 0 <==> forall i :: 0 <= i < |lines| ==> lines[i] == 1
  {
    if lines != [] {
      NothingSilent(lines[..|lines| - 1]);
      assert forall i :: 0 <= i < |lines| - 1 ==> lines[..|lines| - 1][i] == lines[i];
    }
  }

  lemma SilentIsNoLine(m: Message)
    ensures Silent(m) <==> |NormMessage(m)| == 0
  {
  }

  /** Without thinking the range is kept exactly when nothing in it is silent. */
  lemma KeptWithoutThinking(upTo: seq<Message>)
    requires |upTo| >= 2 && forall i :: 0 <= i < |upTo| ==> Unthinking(upTo[i])
    ensures RangeKept(upTo) <==> forall i :: 0 <= i < |upTo| ==> !Silent(upTo[i])
  {
    forall i | 0 <= i < |upTo| ensures LinesOf(upTo)[i] <= 1 && (Silent(upTo[i]) <==> LinesOf(upTo)[i] == 0) {
      OneLineWithoutThinking(upTo[i]);
      SilentIsNoLine(upTo[i]);
    }
    NothingExtra(LinesOf(upTo));
  }

  /** Where nothing is silent the range is kept exactly when each message in it is kept as one. */
  lemma KeptWithoutSilence(upTo: seq<Message>)
    requires |upTo| >= 2 && forall i :: 0 <= i < |upTo| ==> !Silent(upTo[i])
    ensures RangeKept(upTo) <==> forall i :: 0 <= i < |upTo| ==> OneLine(upTo[i])
  {
    forall i | 0 <= i < |upTo| ensures LinesOf(upTo)[i] != 0 && (OneLine(upTo[i]) <==> LinesOf(upTo)[i] == 1) {
      SilentIsNoLine(upTo[i]);
    }
    NothingSilent(LinesOf(upTo));
  }

  // ------------------------------------------------ sessions with compactions

  /** What a session does to its conversation: a recorded change, or a compaction. */
  datatype Step = Recorded(record: Record) | Shrunk(summary: string)

  function Live1(conv: seq<Message>, s: Step): seq<Message> {
    match s
    case Recorded(r) => Replay1(conv, r)
    case Shrunk(text) =>
      match Plan(conv)
      case None => conv
      case Some((from, to)) => Compacted(conv, from, to, text).value
  }

  function Said1(said: seq<Message>, s: Step): seq<Message> {
    if s.Recorded? then Replay1(said, s.record) else said
  }

  /** The lines a step adds to the log. */
  function Logged1(conv: seq<Message>, s: Step): Option<seq<Line>> {
    match s
    case Recorded(r) => Encode(r)
    case Shrunk(text) =>
      match Plan(conv)
      case None => Some([])
      case Some((from, to)) => Some([CompactionApplied(from, to, text)])
  }

  /** The live conversation. */
  function Live(steps: seq<Step>): seq<Message> {
    if steps == [] then [] else Live1(Live(steps[..|steps| - 1]), steps[|steps| - 1])
  }

  /** All that was said, compacted away or not. */
  function Said(steps: seq<Step>): seq<Message> {
    if steps == [] then [] else Said1(Said(steps[..|steps| - 1]), steps[|steps| - 1])
  }

  /** The lines in the log. */
  function Logged(steps: seq<Step>): Option<seq<Line>> {
    if steps == [] then Some([])
    else Appended(Logged(steps[..|steps| - 1]), Logged1(Live(steps[..|steps| - 1]), steps[|steps| - 1]))
  }

  function Appended(lines: Option<seq<Line>>, more: Option<seq<Line>>): Option<seq<Line>> {
    if lines.Some? && more.Some? then Some(lines.value + more.value) else None
  }

  ghost predicate MayStep(conv: seq<Message>, s: Step) {
    match s
    case Recorded(r) => MayRecord(conv, r)
    case Shrunk(text) => !Blank(text) && Plan(conv).Some?
  }

  /** A session that turns and compactions can make. */
  ghost predicate Session(steps: seq<Step>) {
    steps == [] || (Session(steps[..|steps| - 1]) && MayStep(Live(steps[..|steps| - 1]), steps[|steps| - 1]))
  }

  predicate KeepsRange(conv: seq<Message>, s: Step) {
    s.Shrunk? && Plan(conv).Some? ==> RangeKept(conv[..Plan(conv).value.1 + 1])
  }

  /** Every compaction of the session found its range kept. */
  predicate AllRangesKept(steps: seq<Step>) {
    steps == []
    || (AllRangesKept(steps[..|steps| - 1]) && KeepsRange(Live(steps[..|steps| - 1]), steps[|steps| - 1]))
  }

  /** Resume gives the live conversation, and in the transcript everything that was said. */
  ghost predicate Shows(live: seq<Message>, said: seq<Message>, lines: Option<seq<Line>>) {
    && lines.Some?
    && var r := Read(NOTHING_READ, lines.value);
       r.Some? && r.value.conv == Shown(live) && r.value.transcript == Shown(said)
  }

  ghost predicate Resumes(steps: seq<Step>) {
    Shows(Live(steps), Said(steps), Logged(steps))
  }

  /** It does so at every point of the session. */
  ghost predicate AlwaysResumes(steps: seq<Step>) {
    Resumes(steps) && (steps == [] || AlwaysResumes(steps[..|steps| - 1]))
  }

  // ------------------------------------------------------- what every step keeps

  ghost predicate Sound(conv: seq<Message>) {
    && Alternates(conv) && UsersSpeak(conv)
    && (!EndsOnUser(conv) ==> DistinctIDs(Asked(conv, |conv|)))
  }

  lemma RecordKeepsSound(conv: seq<Message>, r: Record)
    requires Sound(conv) && MayRecord(conv, r)
    ensures Sound(Replay1(conv, r))
  {
    RecordKeepsAlternation(conv, r);
  }

  lemma ShrinkKeepsSound(conv: seq<Message>, to: nat, text: string, next: seq<Message>)
    requires Sound(conv) && Plan(conv) == Some((1, to)) && Compacted(conv, 1, to, text) == Some(next)
    ensures Sound(next) && EndsOnUser(next) == EndsOnUser(conv) && Asked(next, |next|) == Asked(conv, |conv|)
  {
    PlanEnds(conv, to);
    CompactedIs(conv, to, text, next);
    CompactedAlternates(conv, to, text);
    assert next[|next| - 1] == conv[|conv| - 1];
    forall i | 0 <= i < |next| ensures next[i].role == User ==> next[i].content != [] {
      assert i != 1 ==> next[i] == if i == 0 then conv[0] else conv[i + to - 1];
    }
  }

  lemma StepKeepsSound(conv: seq<Message>, s: Step)
    requires Sound(conv) && MayStep(conv, s)
    ensures Sound(Live1(conv, s))
  {
    match s
    case Recorded(r) => RecordKeepsSound(conv, r);
    case Shrunk(text) =>
      var to := Plan(conv).value.1;
      ShrinkKeepsSound(conv, to, text, Compacted(conv, 1, to, text).value);
  }

  lemma {:induction false} SessionIsSound(steps: seq<Step>)
    requires Session(steps)
    ensures Sound(Live(steps))
  {
    if steps != [] {
      SessionIsSound(steps[..|steps| - 1]);
      StepKeepsSound(Live(steps[..|steps| - 1]), steps[|steps| - 1]);
    }
  }

  /** The live conversation, everything that was said and the lines in the log, together. */
  ghost predicate InStep(live: seq<Message>, said: seq<Message>, lines: Option<seq<Line>>) {
    lines.Some? && Rebuilt(live, said, Read(NOTHING_READ, lines.value))
  }

  lemma ReadCompaction(s: Reading, to: int, text: string, conv: seq<Message>)
    ensures var r := Read1(s, CompactionApplied(1, to, text));
      if Compacted(s.conv, 1, to, text) == Some(conv) then r == Some(s.(conv := conv))
      else r.None? || r.value.conv != conv
  {
  }

  lemma RebuiltMoves(live: seq<Message>, next: seq<Message>, said: seq<Message>, s: Reading, shown: seq<Message>)
    requires Rebuilt(live, said, Some(s)) && shown == Shown(next)
    requires EndsOnUser(next) == EndsOnUser(live) && Asked(next, |next|) == Asked(live, |live|)
    ensures Rebuilt(next, said, Some(s.(conv := shown)))
  {
  }

  lemma ReadShrink(live: seq<Message>, said: seq<Message>, lines: seq<Line>, to: nat, text: string, next: seq<Message>)
    requires InStep(live, said, Some(lines)) && Sound(live) && Plan(live) == Some((1, to)) && text != ""
    requires Compacted(live, 1, to, text) == Some(next)
    ensures var log := Some(lines + [CompactionApplied(1, to, text)]);
      if RangeKept(live[..to + 1]) then InStep(next, said, log) else !Shows(next, said, log)
  {
    var s := Read(NOTHING_READ, lines).value;
    CompactionInStep(live, to, text, next);
    ShrinkKeepsSound(live, to, text, next);
    ReadSnoc(NOTHING_READ, lines, CompactionApplied(1, to, text));
    ReadCompaction(s, to, text, Shown(next));
    RebuiltMoves(live, next, said, s, Shown(next));
  }

  /** A step keeps Resume in step exactly if it keeps its range. */
  ghost predicate StepAgrees(live: seq<Message>, said: seq<Message>, lines: seq<Line>, s: Step) {
    var log := Appended(Some(lines), Logged1(live, s));
    if KeepsRange(live, s) then InStep(Live1(live, s), Said1(said, s), log)
    else !Shows(Live1(live, s), Said1(said, s), log)
  }

  lemma ShrunkIs(live: seq<Message>, text: string, to: nat, next: seq<Message>)
    requires Plan(live) == Some((1, to)) && Compacted(live, 1, to, text) == Some(next)
    ensures Live1(live, Shrunk(text)) == next && Logged1(live, Shrunk(text)) == Some([CompactionApplied(1, to, text)])
    ensures KeepsRange(live, Shrunk(text)) <==> RangeKept(live[..to + 1])
  {
  }

  lemma ShrunkInStep(live: seq<Message>, said: seq<Message>, lines: seq<Line>, text: string)
    requires InStep(live, said, Some(lines)) && Sound(live) && MayStep(live, Shrunk(text))
    ensures StepAgrees(live, said, lines, Shrunk(text))
  {
    var to := Plan(live).value.1;
    var next := Compacted(live, 1, to, text).value;
    ShrunkIs(live, text, to, next);
    ReadShrink(live, said, lines, to, text, next);
  }

  lemma RecordedInStep(live: seq<Message>, said: seq<Message>, lines: seq<Line>, r: Record)
    requires InStep(live, said, Some(lines)) && Sound(live) && MayStep(live, Recorded(r))
    ensures StepAgrees(live, said, lines, Recorded(r))
  {
    ReadMore(live, said, lines, r);
  }

  lemma StepInStep(live: seq<Message>, said: seq<Message>, lines: seq<Line>, s: Step)
    requires InStep(live, said, Some(lines)) && Sound(live) && MayStep(live, s)
    ensures StepAgrees(live, said, lines, s)
  {
    match s
    case Recorded(r) => RecordedInStep(live, said, lines, r);
    case Shrunk(text) => ShrunkInStep(live, said, lines, text);
  }

  lemma LastStep(steps: seq<Step>)
    requires Session(steps) && steps != []
    requires var before := steps[..|steps| - 1];
      InStep(Live(before), Said(before), Logged(before))
    ensures if KeepsRange(Live(steps[..|steps| - 1]), steps[|steps| - 1])
            then InStep(Live(steps), Said(steps), Logged(steps)) else !Resumes(steps)
  {
    var before := steps[..|steps| - 1];
    SessionIsSound(before);
    StepInStep(Live(before), Said(before), Logged(before).value, steps[|steps| - 1]);
  }

  lemma {:induction false} KeptIsInStep(steps: seq<Step>)
    requires Session(steps) && AllRangesKept(steps)
    ensures InStep(Live(steps), Said(steps), Logged(steps))
  {
    if steps != [] {
      KeptIsInStep(steps[..|steps| - 1]);
      LastStep(steps);
    }
  }

  /** At every point of any run of turns and compactions Resume gives the live conversation, and in
      the transcript everything that was said, exactly when every compaction found its range kept. */
  lemma {:induction false} CompactedLogRebuilds(steps: seq<Step>)
    requires Session(steps)
    ensures AlwaysResumes(steps) <==> AllRangesKept(steps)
  {
    if steps != [] {
      var before := steps[..|steps| - 1];
      CompactedLogRebuilds(before);
      if AllRangesKept(before) {
        KeptIsInStep(before);
        LastStep(steps);
      }
    }
  }

  /** It gives it message for message exactly when besides no silent message is inside it. */
  lemma CompactedLogKeepsMessages(steps: seq<Step>)
    requires Session(steps) && AllRangesKept(steps)
    ensures Resumes(steps)
    ensures Read(NOTHING_READ, Logged(steps).value).value.conv == Norm(Live(steps)) <==> !SilentInside(Live(steps))
  {
    KeptIsInStep(steps);
    SessionIsSound(steps);
    ApartIffNoneSilent(Live(steps));
    JoinedShorter(Norm(Live(steps)));
  }
}
