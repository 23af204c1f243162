/** Conversations that compaction breaks, and that Resume compacts differently. */
module CompactionLimits {
  import opened Prelude
  import opened Conversation
  import opened SessionLog
  import opened LogRebuilds
  import opened Compaction
  import opened CompactionLog

  function Says(role: Role, text: string): Message {
    Message(role, [Text(text)])
  }

  /** n rounds of a question and an answer. */
  function Talk(n: nat): seq<Message> {
    if n == 0 then [] else Talk(n - 1) + [Says(User, "q")] + [Says(Assistant, "a")]
  }

  /** A conversation in which it is the user's turn. */
  ghost predicate Ready(conv: seq<Message>) {
    WellFormed(conv) && !EndsOnUser(conv)
  }

  lemma NoCalls(text: string)
    ensures Calls([Text(text)]) == []
  {
    assert [Text(text)][..0] == [];
  }

  lemma AskAndAnswer(conv: seq<Message>, reply: seq<Block>)
    requires Ready(conv) && Asked(conv, |conv|) == [] && (forall b :: b in reply ==> !b.Answer?)
    ensures var next := conv + [Says(User, "q")] + [Message(Assistant, reply)];
      Alternates(next) && Paired(next) && !EndsOnUser(next) && (Calls(reply) == [] ==> Ready(next))
  {
    PairedSnoc(conv, Says(User, "q"));
    PairedSnoc(conv + [Says(User, "q")], Message(Assistant, reply));
  }

  lemma {:induction false} TalkOn(conv: seq<Message>, n: nat)
    requires Ready(conv) && Asked(conv, |conv|) == []
    ensures Ready(conv + Talk(n)) && Asked(conv + Talk(n), |conv + Talk(n)|) == []
  {
    if n == 0 {
      assert conv + Talk(n) == conv;
    } else {
      TalkOn(conv, n - 1);
      NoCalls("a");
      AskAndAnswer(conv + Talk(n - 1), [Text("a")]);
      Assoc(conv, Talk(n - 1) + [Says(User, "q")], [Says(Assistant, "a")]);
      Assoc(conv, Talk(n - 1), [Says(User, "q")]);
    }
  }

  lemma {:induction false} TalkTurns(n: nat)
    ensures |TurnStarts(Talk(n))| == n
  {
    if n > 0 {
      TalkTurns(n - 1);
      assert [Text("q")][0].Text?;
      TurnStartsConcat(Talk(n - 1) + [Says(User, "q")], [Says(Assistant, "a")]);
      TurnStartsConcat(Talk(n - 1), [Says(User, "q")]);
      OneTurn(Says(User, "q"));
      OneTurn(Says(Assistant, "a"));
    }
  }

  lemma OneTurn(m: Message)
    ensures |TurnStarts([m])| == if StartsTurn(m) then 1 else 0
  {
    assert [m][..0] == [];
  }

  lemma TurnsGrow(conv: seq<Message>, i: nat, j: nat)
    requires i < j <= |conv| && StartsTurn(conv[i])
    ensures |TurnStarts(conv[..i])| < |TurnStarts(conv[..j])|
  {
    assert conv[..j] == conv[..i] + [conv[i]] + conv[i + 1..j];
    TurnStartsConcat(conv[..i] + [conv[i]], conv[i + 1..j]);
    TurnStartsConcat(conv[..i], [conv[i]]);
    OneTurn(conv[i]);
  }

  lemma TurnsAround(conv: seq<Message>, i: nat)
    requires i < |conv| && StartsTurn(conv[i])
    ensures |TurnStarts(conv)| == |TurnStarts(conv[..i])| + 1 + |TurnStarts(conv[i + 1..])|
  {
    assert conv == conv[..i] + [conv[i]] + conv[i + 1..];
    TurnStartsConcat(conv[..i] + [conv[i]], conv[i + 1..]);
    TurnStartsConcat(conv[..i], [conv[i]]);
    OneTurn(conv[i]);
  }

  /** The first message kept is the turn start with three of them after it. */
  lemma KeepsFrom(conv: seq<Message>, i: nat)
    requires i < |conv| && StartsTurn(conv[i])
    requires |TurnStarts(conv[..i])| >= 2 && |TurnStarts(conv[i + 1..])| == 3
    ensures Plan(conv) == Some((1, i - 1))
  {
    TurnsAround(conv, i);
    PlanIff(conv);
    TurnStartAt(conv, |TurnStarts(conv[..i])|);
    var s := TurnStarts(conv)[|TurnStarts(conv[..i])|];
    if s < i {
      TurnsGrow(conv, s, i);
    } else if i < s {
      TurnsGrow(conv, i, s);
    }
  }

  const CALL := ToolCall("1", "t", "{}")

  /** The results of a cancelled turn, with the next question in the same message. */
  const LATE := Message(User, [Answer(ResultBlock("1", "cancelled", true, false, "cancelled")), Text("q")])

  /** Some turns, one that was cancelled, and its results opening the next. */
  function Cancelled(before: nat): seq<Message> {
    Talk(before) + [Says(User, "q")] + [Message(Assistant, [Call(CALL)])]
  }

  function BrokenPair(before: nat, after: nat): seq<Message> {
    Cancelled(before) + [LATE] + [Says(Assistant, "a")] + Talk(after)
  }

  lemma CallsOne()
    ensures Calls([Call(CALL)]) == [CALL] && Calls(LATE.content) == []
  {
    assert [Call(CALL)][..0] == [];
    assert LATE.content[..1] == [LATE.content[0]] && [LATE.content[0]][..0] == [];
    assert Calls(LATE.content[..1]) == Calls([]) + [] == [];
    assert Calls(LATE.content) == Calls(LATE.content[..1]) + [] == [];
  }

  lemma CancelledTurns(before: nat)
    ensures |TurnStarts(Cancelled(before))| == before + 1
  {
    var ask, call := Says(User, "q"), Message(Assistant, [Call(CALL)]);
    assert ask.content[0].Text?;
    TalkTurns(before);
    OneTurn(ask);
    OneTurn(call);
    TurnStartsConcat(Talk(before) + [ask], [call]);
    TurnStartsConcat(Talk(before), [ask]);
  }

  lemma BrokenPairTurns(before: nat, after: nat)
    requires before >= 1 && after == 3
    ensures var i := |Cancelled(before)|;
      BrokenPair(before, after)[i] == LATE && Plan(BrokenPair(before, after)) == Some((1, i - 1))
  {
    var conv, i := BrokenPair(before, after), |Cancelled(before)|;
    var reply := [Says(Assistant, "a")];
    assert LATE.content[1].Text?;
    assert conv[..i] == Cancelled(before) && conv[i + 1..] == reply + Talk(after);
    CancelledTurns(before);
    TalkTurns(after);
    OneTurn(Says(Assistant, "a"));
    TurnStartsConcat(reply, Talk(after));
    KeepsFrom(conv, i);
  }

  lemma CancelledIsSound(before: nat)
    ensures var conv := Cancelled(before);
      Alternates(conv) && Paired(conv) && !EndsOnUser(conv) && Asked(conv, |conv|) == [CALL]
  {
    assert [] + Talk(before) == Talk(before);
    TalkOn([], before);
    CallsOne();
    AskAndAnswer(Talk(before), [Call(CALL)]);
  }

  lemma LateIsSound(conv: seq<Message>)
    requires Alternates(conv) && Paired(conv) && conv != [] && !EndsOnUser(conv) && Asked(conv, |conv|) == [CALL]
    ensures var next := conv + [LATE] + [Says(Assistant, "a")];
      Ready(next) && Asked(next, |next|) == []
  {
    CallsOne();
    NoCalls("a");
    PairedSnoc(conv, LATE);
    PairedSnoc(conv + [LATE], Says(Assistant, "a"));
    LateAlternates(conv);
  }

  lemma LateAlternates(conv: seq<Message>)
    requires Alternates(conv) && conv != [] && !EndsOnUser(conv)
    ensures Alternates(conv + [LATE] + [Says(Assistant, "a")])
  {
  }

  /** A well-formed conversation that compaction leaves with results nobody asked for: the first
      message kept opens with the results of a cancelled turn. */
  lemma CompactionBreaksAPair(before: nat, after: nat, text: string)
    requires before >= 1 && after == 3
    ensures var conv := BrokenPair(before, after);
      && WellFormed(conv) && Plan(conv).Some?
      && var to := Plan(conv).value.1;
         Compacted(conv, 1, to, text).Some? && !WellFormed(Compacted(conv, 1, to, text).value)
  {
    CancelledIsSound(before);
    LateIsSound(Cancelled(before));
    TalkOn(Cancelled(before) + [LATE] + [Says(Assistant, "a")], after);
    BrokenPairTurns(before, after);
    CompactionKeepsShape(BrokenPair(before, after), text, []);
    assert LATE.content[0] in LATE.content;
  }

  // ----------------------------------------------- ranges the log does not keep

  /** What an assistant may answer. */
  datatype Reply = Plain | Ponders | Mute

  function Content(r: Reply): seq<Block> {
    match r
    case Plain => [Text("a")]
    case Ponders => [Reasoning(Thinking("hm", "", false, "", true)), Text("a")]
    case Mute => [Text("")]
  }

  /** A question and an answer, for each reply. */
  function Chat(replies: seq<Reply>): seq<Message> {
    if replies == [] then []
    else
      var n := |replies| - 1;
      Chat(replies[..n]) + [Says(User, "q")] + [Message(Assistant, Content(replies[n]))]
  }

  /** The replies before the last four. */
  function Older(replies: seq<Reply>): seq<Reply>
    requires |replies| >= MIN_TURNS
  {
    replies[..|replies| - KEPT_TURNS]
  }

  /** How many lines a reply has in the log. */
  function LinesFor(r: Reply): nat {
    match r
    case Plain => 1
    case Ponders => 2
    case Mute => 0
  }

  lemma TextLines(text: string)
    ensures Calls([Text(text)]) == [] && |NormMessage(Message(Assistant, [Text(text)]))| == if text == "" then 0 else 1
  {
    var content := [Text(text)];
    assert content[..0] == [] && JoinedText(content) == "" + text == text;
    assert Thoughts(content) == Thoughts([]) && CallEvents(content) == CallEvents([]) && Calls(content) == Calls([]);
  }

  lemma PonderLines()
    ensures Calls(Content(Ponders)) == [] && |NormMessage(Message(Assistant, Content(Ponders)))| == 2
  {
    var content := Content(Ponders);
    var first := content[..1];
    assert first == [content[0]] && first[..0] == [];
    assert JoinedText(first) == "" && Calls(first) == [] && CallEvents(first) == [];
    assert Thoughts(first) == [] + [Thought("hm", "")];
    assert JoinedText(content) == "" + "a" == "a";
  }

  lemma ReplyLines(r: Reply)
    ensures Calls(Content(r)) == [] && |NormMessage(Message(Assistant, Content(r)))| == LinesFor(r)
  {
    PonderLines();
    TextLines("a");
    TextLines("");
  }

  lemma {:induction false} ChatIsReady(replies: seq<Reply>)
    ensures Ready(Chat(replies)) && Asked(Chat(replies), |Chat(replies)|) == []
  {
    if replies != [] {
      var n := |replies| - 1;
      ChatIsReady(replies[..n]);
      ReplyLines(replies[n]);
      AskAndAnswer(Chat(replies[..n]), Content(replies[n]));
    }
  }

  lemma {:induction false} ChatTurns(replies: seq<Reply>)
    ensures |Chat(replies)| == 2 * |replies| && |TurnStarts(Chat(replies))| == |replies|
  {
    if replies != [] {
      var n := |replies| - 1;
      var before, ask, answer := Chat(replies[..n]), Says(User, "q"), Message(Assistant, Content(replies[n]));
      ChatTurns(replies[..n]);
      assert ask.content[0].Text?;
      TurnStartsConcat(before + [ask], [answer]);
      TurnStartsConcat(before, [ask]);
      OneTurn(ask);
      OneTurn(answer);
    }
  }

  lemma {:induction false} ChatPrefix(replies: seq<Reply>, k: nat)
    requires k <= |replies|
    ensures |Chat(replies)| == 2 * |replies| && Chat(replies)[..2 * k] == Chat(replies[..k])
    ensures k < |replies| ==> Chat(replies)[2 * k] == Says(User, "q")
  {
    if replies != [] {
      var n := |replies| - 1;
      ChatPrefix(replies[..n], if k <= n then k else n);
      if k <= n {
        assert replies[..n][..k] == replies[..k];
      } else {
        assert replies[..k] == replies;
      }
    }
  }

  /** A conversation of n turns, two messages each, k of them before message 2k. */
  ghost predicate HasTurns(conv: seq<Message>, k: nat, n: nat) {
    && k < n && |conv| == 2 * n && StartsTurn(conv[2 * k])
    && |TurnStarts(conv)| == n && |TurnStarts(conv[..2 * k])| == k
  }

  lemma AsksTurn(m: Message)
    requires m == Says(User, "q")
    ensures StartsTurn(m)
  {
    assert m.content[0].Text?;
  }

  lemma ChatHasTurns(replies: seq<Reply>, k: nat)
    requires k < |replies|
    ensures HasTurns(Chat(replies), k, |replies|)
  {
    ChatPrefix(replies, k);
    ChatTurns(replies);
    ChatTurns(replies[..k]);
    AsksTurn(Chat(replies)[2 * k]);
  }

  lemma PlanOf(conv: seq<Message>, k: nat, n: nat)
    requires HasTurns(conv, k, n) && 2 <= k && n == k + 4
    ensures Plan(conv) == Some((1, 2 * k - 1))
  {
    TurnsAround(conv, 2 * k);
    KeepsFrom(conv, 2 * k);
  }

  lemma ChatPlan(replies: seq<Reply>, k: nat)
    requires 2 <= k && |replies| == k + 4
    ensures Plan(Chat(replies)) == Some((1, 2 * k - 1))
  {
    ChatHasTurns(replies, k);
    PlanOf(Chat(replies), k, |replies|);
  }

  /** Exactly the older turns are replaced, all but the first message. */
  lemma OlderIsReplaced(replies: seq<Reply>)
    requires |replies| >= MIN_TURNS
    ensures var k := |Older(replies)|;
      Plan(Chat(replies)) == Some((1, 2 * k - 1)) && |Chat(replies)| == 2 * |replies|
      && Chat(replies)[..2 * k] == Chat(Older(replies))
  {
    ChatPlan(replies, |replies| - KEPT_TURNS);
    ChatPrefix(replies, |replies| - KEPT_TURNS);
  }

  function ChatCounts(replies: seq<Reply>): seq<nat> {
    if replies == [] then []
    else ChatCounts(replies[..|replies| - 1]) + [1] + [LinesFor(replies[|replies| - 1])]
  }

  lemma {:induction false} ChatLines(replies: seq<Reply>)
    ensures LinesOf(Chat(replies)) == ChatCounts(replies)
  {
    if replies != [] {
      var n := |replies| - 1;
      var before, ask := Chat(replies[..n]), Says(User, "q");
      ChatLines(replies[..n]);
      ReplyLines(replies[n]);
      LinesSnoc(before, ask);
      LinesSnoc(before + [ask], Message(Assistant, Content(replies[n])));
    }
  }

  lemma {:induction false} CountsAre(replies: seq<Reply>)
    ensures var lines := ChatCounts(replies);
      Silents(lines) == multiset(replies)[Mute] && Extras(lines) == multiset(replies)[Ponders]
  {
    if replies != [] {
      var n := |replies| - 1;
      CountsAre(replies[..n]);
      TwoMore(ChatCounts(replies[..n]), LinesFor(replies[n]));
      assert replies == replies[..n] + [replies[n]];
    }
  }

  lemma {:induction false} CountsAt(replies: seq<Reply>, i: nat)
    requires i < |replies|
    ensures |ChatCounts(replies)| == 2 * |replies| && ChatCounts(replies)[2 * i + 1] == LinesFor(replies[i])
  {
    var n := |replies| - 1;
    if n > 0 {
      CountsAt(replies[..n], if i < n then i else 0);
    }
  }

  lemma TwoMore(lines: seq<nat>, k: nat)
    ensures var more := lines + [1] + [k];
      && Silents(more) == Silents(lines) + (if k == 0 then 1 else 0)
      && Extras(more) == Extras(lines) + (if k == 0 then 0 else k - 1)
  {
    assert (lines + [1])[..|lines|] == lines && (lines + [1] + [k])[..|lines| + 1] == lines + [1];
  }

  /** Resume gets from what it has rebuilt to the compacted conversation. */
  ghost predicate InStepAfter(conv: seq<Message>, text: string)
    requires Plan(conv).Some?
  {
    var to := Plan(conv).value.1;
    Compacted(Shown(conv), 1, to, text) == Some(Shown(Compacted(conv, 1, to, text).value))
  }

  lemma {:induction false} ChatSpeaks(replies: seq<Reply>)
    ensures UsersSpeak(Chat(replies))
  {
    if replies != [] {
      ChatSpeaks(replies[..|replies| - 1]);
    }
  }

  /** The first and the last reply are logged, and two ponder for each that is mute. */
  predicate Balanced(replies: seq<Reply>)
    requires replies != []
  {
    && replies[0] != Mute && replies[|replies| - 1] != Mute
    && multiset(replies)[Ponders] == 2 * multiset(replies)[Mute]
  }

  lemma BalancedCounts(replies: seq<Reply>)
    requires |replies| >= 2
    ensures var lines := ChatCounts(replies);
      && |lines| == 2 * |replies|
      && (lines[1] != 0 && lines[|lines| - 1] != 0 && Extras(lines) == 2 * Silents(lines) <==> Balanced(replies))
  {
    CountsAre(replies);
    CountsAt(replies, 0);
    CountsAt(replies, |replies| - 1);
  }

  /** Which chats the log keeps. */
  lemma ChatKept(replies: seq<Reply>)
    requires |replies| >= 2
    ensures |Chat(replies)| >= 2 && (RangeKept(Chat(replies)) <==> Balanced(replies))
  {
    ChatLines(replies);
    BalancedCounts(replies);
    assert |LinesOf(Chat(replies))| == |Chat(replies)|;
  }

  /** A compaction of a chat is in step exactly when the older replies are balanced. */
  lemma ChatInStep(replies: seq<Reply>, text: string)
    requires |replies| >= MIN_TURNS && text != ""
    ensures WellFormed(Chat(replies)) && Plan(Chat(replies)).Some?
    ensures InStepAfter(Chat(replies), text) <==> Balanced(Older(replies))
  {
    var conv, to := Chat(replies), 2 * |Older(replies)| - 1;
    OlderIsReplaced(replies);
    ChatIsReady(replies);
    ChatSpeaks(replies);
    ChatKept(Older(replies));
    CompactionInStep(conv, to, text, Compacted(conv, 1, to, text).value);
  }

  /** Thinking alone upsets the range. */
  lemma ThinkingUpsetsTheRange(replies: seq<Reply>, text: string)
    requires |replies| >= MIN_TURNS && text != "" && Mute !in Older(replies) && Ponders in Older(replies)
    ensures WellFormed(Chat(replies)) && Plan(Chat(replies)).Some? && !InStepAfter(Chat(replies), text)
  {
    ChatInStep(replies, text);
    assert Ponders in multiset(Older(replies)) && Mute !in multiset(Older(replies));
  }

  /** So does a silent message, without any thinking. */
  lemma SilenceUpsetsTheRange(replies: seq<Reply>, text: string)
    requires |replies| >= MIN_TURNS && text != "" && Mute in Older(replies) && Ponders !in Older(replies)
    ensures WellFormed(Chat(replies)) && Plan(Chat(replies)).Some? && !InStepAfter(Chat(replies), text)
  {
    ChatInStep(replies, text);
    assert Mute in multiset(Older(replies)) && Ponders !in multiset(Older(replies));
  }

  /** As many log lines as live messages are no help: Resume joins the first message kept to one that
      is gone. */
  lemma EvenCountsUpsetTheRange(replies: seq<Reply>, text: string)
    requires |replies| >= MIN_TURNS && Older(replies) == [Ponders, Mute] && text != ""
    ensures var conv := Chat(replies);
      && WellFormed(conv) && Plan(conv) == Some((1, 3)) && |Norm(conv[..4])| == 4
      && !InStepAfter(conv, text)
  {
    OlderIsReplaced(replies);
    ChatInStep(replies, text);
    EvenCounts();
  }

  lemma EvenCounts()
    ensures |Norm(Chat([Ponders, Mute]))| == 4
  {
    var first, ask := Chat([Ponders]), Says(User, "q");
    assert [Ponders, Mute][..1] == [Ponders] && [Ponders][..0] == [] && Chat([]) == [];
    assert first == [] + [ask] + [Message(Assistant, Content(Ponders))];
    ReplyLines(Ponders);
    ReplyLines(Mute);
    NormSnoc([], ask);
    NormSnoc([] + [ask], Message(Assistant, Content(Ponders)));
    NormSnoc(first, ask);
    NormSnoc(first + [ask], Message(Assistant, Content(Mute)));
  }

  /** Two that ponder make up for a mute one between them. */
  lemma ThinkingMakesUpForSilence(replies: seq<Reply>, text: string)
    requires |replies| >= MIN_TURNS && Older(replies) == [Ponders, Mute, Ponders] && text != ""
    ensures WellFormed(Chat(replies)) && Plan(Chat(replies)).Some? && InStepAfter(Chat(replies), text)
  {
    ChatInStep(replies, text);
    assert multiset(Older(replies)) == multiset{Ponders, Mute, Ponders};
  }
}
