/** What Resume gives back of a conversation, said of the conversation itself. */
module LogExact {
  import opened Prelude
  import opened Conversation
  import opened SessionLog
  import opened LogRebuilds

  // -------------------------------------------------- what was said, by whom

  /** What blocks say: their text put together, their calls, the text and signature of each thinking
      block, and of each result the call it answers, its content and its flags, all in order. */
  datatype Said = Said(
    text: string, calls: seq<ToolCall>, thoughts: seq<(string, string)>, results: seq<(string, string, bool, bool)>)
  {
    function And(b: Block): Said {
      match b
      case Text(t) => this.(text := text + t)
      case Call(call) => this.(calls := calls + [call])
      case Reasoning(t) => this.(thoughts := thoughts + [(t.text, t.signature)])
      case Answer(r) => this.(results := results + [(r.callID, r.content, r.isError, r.truncated)])
    }

    function Then(more: Said): Said {
      Said(text + more.text, calls + more.calls, thoughts + more.thoughts, results + more.results)
    }
  }

  const NOTHING := Said("", [], [], [])

  function SaidIn(content: seq<Block>): Said {
    if content == [] then NOTHING else SaidIn(content[..|content| - 1]).And(content[|content| - 1])
  }

  lemma SaidInSnoc(content: seq<Block>, b: Block)
    ensures SaidIn(content + [b]) == SaidIn(content).And(b)
  {
    assert (content + [b])[..|content|] == content;
  }

  /** What one side says in a conversation. */
  function SaidBy(role: Role, conv: seq<Message>): Said {
    if conv == [] then NOTHING
    else
      var before, m := SaidBy(role, conv[..|conv| - 1]), conv[|conv| - 1];
      if m.role == role then before.Then(SaidIn(m.content)) else before
  }

  lemma ThenNothing(a: Said)
    ensures a.Then(NOTHING) == a && NOTHING.Then(a) == a
  {
  }

  lemma ThenThen(a: Said, b: Said, c: Said)
    ensures a.Then(b).Then(c) == a.Then(b.Then(c))
  {
    Assoc(a.text, b.text, c.text);
    Assoc(a.calls, b.calls, c.calls);
    Assoc(a.thoughts, b.thoughts, c.thoughts);
    Assoc(a.results, b.results, c.results);
  }

  lemma AndThen(a: Said, c: Said, b: Block)
    ensures a.Then(c).And(b) == a.Then(c.And(b))
  {
    match b
    case Text(t) => Assoc(a.text, c.text, t);
    case Call(call) => Assoc(a.calls, c.calls, [call]);
    case Reasoning(t) => Assoc(a.thoughts, c.thoughts, [(t.text, t.signature)]);
    case Answer(r) => Assoc(a.results, c.results, [(r.callID, r.content, r.isError, r.truncated)]);
  }

  lemma {:induction false} SaidInConcat(a: seq<Block>, b: seq<Block>)
    ensures SaidIn(a + b) == SaidIn(a).Then(SaidIn(b))
  {
    if b == [] {
      assert a + b == a;
      ThenNothing(SaidIn(a));
    } else {
      var n := |b| - 1;
      assert (a + b)[..|a| + n] == a + b[..n];
      SaidInConcat(a, b[..n]);
      AndThen(SaidIn(a), SaidIn(b[..n]), b[n]);
    }
  }

  lemma SaidByOne(role: Role, m: Message)
    ensures SaidBy(role, [m]) == if m.role == role then SaidIn(m.content) else NOTHING
  {
    assert [m][..0] == [];
    ThenNothing(SaidIn(m.content));
  }

  lemma SaidBySnoc(role: Role, conv: seq<Message>, m: Message)
    ensures SaidBy(role, conv + [m])
         == if m.role == role then SaidBy(role, conv).Then(SaidIn(m.content)) else SaidBy(role, conv)
  {
    assert (conv + [m])[..|conv|] == conv;
  }

  lemma {:induction false} SaidByConcat(role: Role, a: seq<Message>, b: seq<Message>)
    ensures SaidBy(role, a + b) == SaidBy(role, a).Then(SaidBy(role, b))
  {
    if b == [] {
      assert a + b == a;
      ThenNothing(SaidBy(role, a));
    } else {
      var n := |b| - 1;
      assert a + b == (a + b[..n]) + [b[n]];
      SaidByConcat(role, a, b[..n]);
      SaidBySnoc(role, a + b[..n], b[n]);
      ThenThen(SaidBy(role, a), SaidBy(role, b[..n]), SaidIn(b[n].content));
    }
  }

  // ------------------------------------------------- one message in the log

  lemma CallBlocksSnoc(before: seq<CallEvent>, event: CallEvent, c: ToolCall)
    requires event == CallEvent(c.id, c.name, c.input)
    ensures CallBlocks(before + [event]) == CallBlocks(before) + [Call(c)]
  {
    assert (before + [event])[..|before|] == before;
  }

  lemma {:induction false} CallsComeBack(content: seq<Block>)
    requires NoAnswers(content)
    ensures SaidIn(CallBlocks(CallEvents(content))) == NOTHING.(calls := SaidIn(content).calls)
    ensures JoinedText(content) == SaidIn(content).text && SaidIn(content).results == []
  {
    if content != [] {
      var n := |content| - 1;
      assert content[n] in content;
      CallsComeBack(content[..n]);
      if content[n].Call? {
        var c := content[n].call;
        var before, event := CallEvents(content[..n]), CallEvent(c.id, c.name, c.input);
        CallBlocksSnoc(before, event, c);
        SaidInSnoc(CallBlocks(before), Call(c));
      }
    }
  }

  lemma {:induction false} ThoughtsComeBack(content: seq<Block>)
    ensures SaidBy(Assistant, Thoughts(content)) == NOTHING.(thoughts := SaidIn(content).thoughts)
  {
    if content != [] {
      var n := |content| - 1;
      ThoughtsComeBack(content[..n]);
      if content[n].Reasoning? {
        var t := Thought(content[n].thinking.text, content[n].thinking.signature);
        SaidBySnoc(Assistant, Thoughts(content[..n]), t);
        SaidInOne(t.content[0]);
      }
    }
  }

  lemma SaidInOne(b: Block)
    ensures SaidIn([b]) == NOTHING.And(b)
  {
    assert [b][..0] == [];
  }

  lemma {:induction false} TextFirst(text: string, content: seq<Block>)
    ensures SaidIn([Text(text)] + content) == SaidIn(content).(text := text + SaidIn(content).text)
  {
    if content == [] {
      SaidInOne(Text(text));
      assert [Text(text)] + content == [Text(text)] && "" + text == text && text + "" == text;
    } else {
      var n := |content| - 1;
      TextFirst(text, content[..n]);
      SaidInSnoc([Text(text)] + content[..n], content[n]);
      assert [Text(text)] + content == [Text(text)] + content[..n] + [content[n]];
      if content[n].Text? {
        Assoc(text, SaidIn(content[..n]).text, content[n].text);
      }
    }
  }

  lemma SpokenSays(text: string, calls: seq<CallEvent>, said: seq<ToolCall>)
    requires SaidIn(CallBlocks(calls)) == NOTHING.(calls := said)
    ensures SaidIn(Spoken(text, calls).content) == Said(text, said, [], [])
  {
    if text != "" {
      TextFirst(text, CallBlocks(calls));
      assert text + "" == text;
    }
  }

  /** An assistant message comes back with all its text, calls and thinking. */
  lemma AssistantComesBack(m: Message)
    requires m.role == Assistant && NoAnswers(m.content)
    ensures SaidBy(Assistant, NormMessage(m)) == SaidIn(m.content) && SaidBy(User, NormMessage(m)) == NOTHING
  {
    var content := m.content;
    var thoughts, spoken := Thoughts(content), Spoken(JoinedText(content), CallEvents(content));
    CallsComeBack(content);
    ThoughtsComeBack(content);
    ThoughtsAreAssistant(content);
    OthersSayNothing(NormMessage(m));
    SpokenSays(JoinedText(content), CallEvents(content), SaidIn(content).calls);
    SaidBySnoc(Assistant, thoughts, spoken);
  }

  lemma {:induction false} OthersSayNothing(conv: seq<Message>)
    requires forall m :: m in conv ==> m.role == Assistant
    ensures SaidBy(User, conv) == NOTHING
  {
    if conv != [] {
      OthersSayNothing(conv[..|conv| - 1]);
      assert conv[|conv| - 1] in conv;
    }
  }

  /** A user message comes back with its text and results, but for their error kinds. */
  lemma {:induction false} UserComesBack(content: seq<Block>)
    ensures SaidIn(NormBlocks(content)) == SaidIn(content)
  {
    if content != [] {
      var n := |content| - 1;
      UserComesBack(content[..n]);
      SaidInSnoc(NormBlocks(content[..n]), NormBlock(content[n]));
    }
  }

  // -------------------------------------------------- the whole conversation

  lemma JoinSays(role: Role, conv: seq<Message>, m: Message)
    ensures SaidBy(role, Join1(conv, m)) == SaidBy(role, conv).Then(SaidBy(role, [m]))
  {
    SaidByOne(role, m);
    ThenNothing(SaidBy(role, conv));
    if m.role == User && EndsOnUserMsg(conv) {
      var base, last := conv[..|conv| - 1], conv[|conv| - 1];
      SaidBySnoc(role, base, Message(User, last.content + m.content));
      SaidBySnoc(role, base, last);
      assert conv == base + [last];
      SaidInConcat(last.content, m.content);
      ThenThen(SaidBy(role, base), SaidIn(last.content), SaidIn(m.content));
    } else {
      SaidBySnoc(role, conv, m);
    }
  }

  lemma {:induction false} JoinedSays(role: Role, conv: seq<Message>)
    ensures SaidBy(role, Joined(conv)) == SaidBy(role, conv)
  {
    if conv != [] {
      var before, m := conv[..|conv| - 1], conv[|conv| - 1];
      JoinedSays(role, before);
      JoinSays(role, Joined(before), m);
      SaidByOne(role, m);
      ThenNothing(SaidBy(role, before));
    }
  }

  ghost predicate NoResultsFromAssistant(conv: seq<Message>) {
    forall i :: 0 <= i < |conv| && conv[i].role == Assistant ==> NoAnswers(conv[i].content)
  }

  lemma {:induction false} NormSays(role: Role, conv: seq<Message>)
    requires NoResultsFromAssistant(conv)
    ensures SaidBy(role, Norm(conv)) == SaidBy(role, conv)
  {
    if conv != [] {
      var before, m := conv[..|conv| - 1], conv[|conv| - 1];
      NormSays(role, before);
      SaidByConcat(role, Norm(before), NormMessage(m));
      ThenNothing(SaidBy(role, before));
      if m.role == User {
        UserComesBack(m.content);
        SaidByOne(role, Message(User, NormBlocks(m.content)));
      } else {
        AssistantComesBack(m);
      }
    }
  }

  lemma {:induction false} HistoryHasNoResults(records: seq<Record>)
    requires History([], records)
    ensures NoResultsFromAssistant(Replay([], records))
  {
    if records != [] {
      HistoryPrefix([], records);
      HistoryHasNoResults(records[..|records| - 1]);
    }
  }

  /** Whatever was recorded, Resume gives back all that each side said, in order: the text, the
      calls, the thinking and the results. */
  lemma NothingSaidIsLost(records: seq<Record>, role: Role)
    requires History([], records)
    ensures EncodeAll(records).Some? && Read(NOTHING_READ, EncodeAll(records).value).Some?
    ensures SaidBy(role, Read(NOTHING_READ, EncodeAll(records).value).value.conv) == SaidBy(role, Replay([], records))
  {
    LogRebuilds.LogRebuilds(records);
    HistoryHasNoResults(records);
    NormSays(role, Replay([], records));
    JoinedSays(role, Norm(Replay([], records)));
  }

  // --------------------------------------------- conversations kept as they are

  /** Text, calls, or text and then calls; results of no particular error kind. */
  ghost predicate AsLogged(m: Message) {
    if m.role == User then
      forall i :: 0 <= i < |m.content| && m.content[i].Answer? ==> m.content[i].result.errorKind == ""
    else
      && m.content != [] && (m.content[0].Text? ==> m.content[0].text != "")
      && (forall i :: 0 < i < |m.content| ==> m.content[i].Call?) && (m.content[0].Text? || m.content[0].Call?)
  }

  ghost predicate AllAsLogged(conv: seq<Message>) {
    conv == [] || (AllAsLogged(conv[..|conv| - 1]) && AsLogged(conv[|conv| - 1]))
  }

  lemma {:induction false} ResultsAreNormal(content: seq<Block>)
    requires forall i :: 0 <= i < |content| && content[i].Answer? ==> content[i].result.errorKind == ""
    ensures NormBlocks(content) == content
  {
    if content != [] {
      ResultsAreNormal(content[..|content| - 1]);
      assert NormBlock(content[|content| - 1]) == content[|content| - 1];
    }
  }

  /** What is logged of a text and calls: the calls, after the text. */
  lemma {:induction false} CallsAreNormal(head: seq<Block>, calls: seq<Block>)
    requires |head| <= 1 && (forall i :: 0 <= i < |head| ==> head[i].Text?)
    requires forall i :: 0 <= i < |calls| ==> calls[i].Call?
    ensures var content := head + calls;
      && CallBlocks(CallEvents(content)) == calls && Thoughts(content) == [] && |CallEvents(content)| == |calls|
      && JoinedText(content) == if head == [] then "" else head[0].text
  {
    var content := head + calls;
    if calls == [] {
      assert content == head && (head != [] ==> head[..0] == []);
    } else {
      var n := |calls| - 1;
      CallsAreNormal(head, calls[..n]);
      assert content[..|content| - 1] == head + calls[..n] && content[|content| - 1] == calls[n];
      var c := calls[n].call;
      CallBlocksSnoc(CallEvents(head + calls[..n]), CallEvent(c.id, c.name, c.input), c);
      assert calls == calls[..n] + [Call(c)];
    }
  }

  lemma LoggedIsNormal(m: Message)
    requires AsLogged(m)
    ensures NormMessage(m) == [m]
  {
    var content := m.content;
    if m.role == User {
      ResultsAreNormal(content);
    } else {
      var head := if content[0].Text? then content[..1] else [];
      var calls := if content[0].Text? then content[1..] else content;
      assert content == head + calls;
      CallsAreNormal(head, calls);
      assert head != [] ==> head == [Text(content[0].text)];
    }
  }

  lemma NormOneMore(conv: seq<Message>, m: Message)
    requires Norm(conv) == conv && NormMessage(m) == [m]
    ensures Norm(conv + [m]) == conv + [m]
  {
    NormSnoc(conv, m);
  }

  lemma {:induction false} LastIsNormal(conv: seq<Message>)
    requires conv != [] && AllAsLogged(conv)
    ensures var n := |conv| - 1;
      AllAsLogged(conv[..n]) && NormMessage(conv[n]) == [conv[n]] && conv == conv[..n] + [conv[n]]
  {
    LoggedIsNormal(conv[|conv| - 1]);
  }

  lemma {:induction false} NormIsSame(conv: seq<Message>)
    requires AllAsLogged(conv)
    ensures Norm(conv) == conv
  {
    if conv != [] {
      var n := |conv| - 1;
      LastIsNormal(conv);
      NormIsSame(conv[..n]);
      NormOneMore(conv[..n], conv[n]);
    }
  }

  lemma {:induction false} NoneIsSilent(conv: seq<Message>)
    requires AllAsLogged(conv)
    ensures !SilentInside(conv)
  {
    if conv != [] {
      LastIsNormal(conv);
      NoneIsSilent(conv[..|conv| - 1]);
      SilentStep(conv);
      if |conv| > 1 {
        LastIsNormal(conv[..|conv| - 1]);
      }
    }
  }

  /** A conversation of text and calls comes back exactly as it was. */
  lemma ComesBackAsItWas(records: seq<Record>)
    requires History([], records) && AllAsLogged(Replay([], records))
    ensures EncodeAll(records).Some? && Read(NOTHING_READ, EncodeAll(records).value).Some?
    ensures Read(NOTHING_READ, EncodeAll(records).value).value.conv == Replay([], records)
    ensures Read(NOTHING_READ, EncodeAll(records).value).value.transcript == Replay([], records)
  {
    LogRebuilds.LogRebuilds(records);
    RebuildsExactlyWhenNoneSilent(records);
    NormIsSame(Replay([], records));
    NoneIsSilent(Replay([], records));
  }
}
