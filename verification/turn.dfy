/** The turn machine: model rounds, tool calls, cancellation, and the Recorder contract. */
module Turn {
  import opened Prelude
  import opened Conversation
  import opened Assembly

  const MAX_TOOL_ROUNDS := 25
  const MAX_HALLUCINATION_RETRIES := 2

  datatype ContextError = Canceled | DeadlineExceeded

  datatype TurnError =
    | MaxTurnsExceeded
    | ToolNameHallucination
    | StreamProtocol(why: StreamError)
    | ModelReturned(err: string)
    | EmptyCallID
    | DuplicateCallID
    | ToolsStopped(context: ContextError)

  /** What a tool returned. */
  datatype ToolResult = ToolResult(ok: bool, content: string, truncated: bool, errorKind: string)

  const POLICY_DENIED := "policy_denied"
  const CANCELLED := "cancelled"
  const INPUT_INVALID := "tool_input_invalid"

  function CancelledResult(id: string): ResultBlock {
    ResultBlock(id, "cancelled", true, false, CANCELLED)
  }

  /** The result of a call skipped after a sibling failed with `kind`. */
  function ShortCircuitResult(id: string, kind: string): ResultBlock {
    if kind == POLICY_DENIED then ResultBlock(id, "policy_denied", true, false, POLICY_DENIED)
    else CancelledResult(id)
  }

  /** `k` calls succeeded; the next one, if any, failed, and all after it were skipped. */
  ghost predicate ResultsStopAt(calls: seq<ToolCall>, results: seq<ResultBlock>, k: nat) {
    && k <= |calls| == |results|
    && (forall j :: 0 <= j < |calls| ==> results[j].callID == calls[j].id)
    && (forall j :: 0 <= j < k ==> !results[j].isError)
    && (k < |calls| ==> results[k].isError)
    && (forall j :: k < j < |calls| ==> results[j] == ShortCircuitResult(calls[j].id, results[k].errorKind))
  }

  method SkipRest(calls: seq<ToolCall>, results: seq<ResultBlock>, kind: string) returns (all: seq<ResultBlock>)
    requires |results| <= |calls|
    ensures |all| == |calls| && all[..|results|] == results
    ensures forall j :: |results| <= j < |calls| ==> all[j] == ShortCircuitResult(calls[j].id, kind)
  {
    all := results;
    for j := |results| to |calls|
      invariant |all| == j && all[..|results|] == results
      invariant forall i :: |results| <= i < j ==> all[i] == ShortCircuitResult(calls[i].id, kind)
    {
      all := all + [ShortCircuitResult(calls[j].id, kind)];
    }
  }

  /** What happens around the agent in one round: what the model streams and returns, what each
      tool gives back, what an unknown tool is told, and when the context ends.  It is looked at
      before each call and while the call runs; `doneAt` is the look, if any, at which it is done. */
  datatype Play = Play(
    events: seq<Event>, returned: Option<string>,
    tools: ToolCall -> ToolResult, unknown: ToolCall -> string, doneAt: Option<nat>)

  /** `b` is what tool result `t` becomes. */
  ghost predicate Returned(b: ResultBlock, t: ToolResult) {
    b.content == t.content && b.isError == !t.ok && b.truncated == t.truncated && b.errorKind == t.errorKind
  }

  /** The context is found done at call k, before it or while it runs. */
  ghost predicate DoneAtCall(play: Play, call: ToolCall, known: set<string>, k: nat) {
    play.doneAt == Some(2 * k) || (play.doneAt == Some(2 * k + 1) && call.name in known)
  }

  /** `b` ends the calls at call k: the context was done, or the tool is unknown, or it failed. */
  ghost predicate EndsCalls(b: ResultBlock, play: Play, call: ToolCall, known: set<string>, k: nat) {
    if DoneAtCall(play, call, known, k) then b == ResultBlock(call.id, "cancelled", true, false, "cancelled")
    else if call.name !in known then b == ResultBlock(call.id, play.unknown(call), true, false, "tool_input_invalid")
    else Returned(b, play.tools(call)) && b.isError
  }

  /** A call that was skipped is denied if the one that ended them was, else cancelled. */
  ghost predicate Skipped(b: ResultBlock, call: ToolCall, last: ResultBlock) {
    if last.errorKind == "policy_denied" then b == ResultBlock(call.id, "policy_denied", true, false, "policy_denied")
    else b == ResultBlock(call.id, "cancelled", true, false, "cancelled")
  }

  /** The results are what the first k tools returned, then what ended the calls, then skips. */
  ghost predicate AnsweredBy(results: seq<ResultBlock>, calls: seq<ToolCall>, known: set<string>, play: Play, k: nat) {
    && k <= |calls| == |results|
    && (forall j :: 0 <= j < |calls| ==> results[j].callID == calls[j].id)
    && (forall j :: 0 <= j < k ==>
          calls[j].name in known && Returned(results[j], play.tools(calls[j])) && !results[j].isError)
    && (k < |calls| ==> EndsCalls(results[k], play, calls[k], known, k))
    && (forall j :: k < j < |calls| ==> Skipped(results[j], calls[j], results[k]))
    && (play.doneAt.Some? ==> 2 * k <= play.doneAt.value)
  }

  /** The first calls, all known, with what their tools returned, none having failed. */
  ghost predicate AllFine(results: seq<ResultBlock>, calls: seq<ToolCall>, known: set<string>, play: Play) {
    && |results| <= |calls|
    && (forall j :: 0 <= j < |results| ==>
          && results[j].callID == calls[j].id && !results[j].isError
          && calls[j].name in known && Returned(results[j], play.tools(calls[j])))
    && (play.doneAt.Some? ==> 2 * |results| <= play.doneAt.value)
  }

  /** The calls end with `last`, and the rest is skipped. */
  method EndCalls(calls: seq<ToolCall>, before: seq<ResultBlock>, last: ResultBlock,
                  ghost known: set<string>, ghost play: Play)
    returns (results: seq<ResultBlock>)
    requires AllFine(before, calls, known, play) && |before| < |calls|
    requires EndsCalls(last, play, calls[|before|], known, |before|) && last.callID == calls[|before|].id
    ensures ResultsStopAt(calls, results, |before|) && AnsweredBy(results, calls, known, play, |before|)
    ensures results[|before|] == last
  {
    results := SkipRest(calls, before + [last], last.errorKind);
    assert forall j :: 0 <= j < |before| ==> results[..|before| + 1][j] == before[j];
    assert results[..|before| + 1][|before|] == last;
  }

  /** invokeTools. `invoked` counts the tools that were started, and `ends` is how the context ends
      if it does. */
  method InvokeTools(calls: seq<ToolCall>, known: set<string>, ends: ContextError, play: Play)
    returns (results: seq<ResultBlock>, hallucinated: bool, err: Option<ContextError>, k: nat, invoked: nat)
    ensures ResultsStopAt(calls, results, k) && AnsweredBy(results, calls, known, play, k)
    ensures k <= invoked <= k + 1 && invoked <= |calls|
    ensures forall j :: 0 <= j < invoked ==> calls[j].name in known
    ensures hallucinated <==> k < |calls| && calls[k].name !in known && play.doneAt != Some(2 * k)
    ensures err == if k < |calls| && DoneAtCall(play, calls[k], known, k) then Some(ends) else None
    ensures k == |calls| ==> err.None? && !hallucinated
  {
    results, hallucinated, err, invoked := [], false, None, 0;
    for i := 0 to |calls|
      invariant |results| == i == invoked && !hallucinated && err.None?
      invariant AllFine(results, calls, known, play)
    {
      if play.doneAt == Some(2 * i) {
        results := EndCalls(calls, results, CancelledResult(calls[i].id), known, play);
        return results, false, Some(ends), i, i;
      }
      if calls[i].name !in known {
        var unknown := ResultBlock(calls[i].id, play.unknown(calls[i]), true, false, INPUT_INVALID);
        results := EndCalls(calls, results, unknown, known, play);
        return results, true, None, i, i;
      }
      invoked := invoked + 1;
      if play.doneAt == Some(2 * i + 1) {
        results := EndCalls(calls, results, CancelledResult(calls[i].id), known, play);
        return results, false, Some(ends), i, invoked;
      }
      var res := play.tools(calls[i]);
      var result := ResultBlock(calls[i].id, res.content, !res.ok, res.truncated, res.errorKind);
      if !res.ok {
        results := EndCalls(calls, results, result, known, play);
        return results, false, None, i, invoked;
      }
      results := results + [result];
    }
    k := |calls|;
  }

  /** The calls up to i can be told apart, and call i has no id, or that of one of them. */
  ghost predicate BadIDAt(calls: seq<ToolCall>, i: nat, err: TurnError)
    requires i < |calls|
  {
    && DistinctIDs(calls[..i])
    && if calls[i].id == "" then err == EmptyCallID
       else err == DuplicateCallID && exists j :: 0 <= j < i && calls[j].id == calls[i].id
  }

  ghost predicate BadID(calls: seq<ToolCall>, err: TurnError) {
    exists i :: 0 <= i < |calls| && BadIDAt(calls, i, err)
  }

  /** validateCallIDs */
  method ValidateCallIDs(calls: seq<ToolCall>) returns (err: Option<TurnError>)
    ensures err.None? <==> DistinctIDs(calls)
    ensures err.Some? ==> (err.value.EmptyCallID? || err.value.DuplicateCallID?) && BadID(calls, err.value)
  {
    var seen: set<string> := {};
    for i := 0 to |calls|
      invariant forall id :: id in seen <==> exists j :: 0 <= j < i && calls[j].id == id
      invariant DistinctIDs(calls[..i])
    {
      if calls[i].id == "" {
        assert BadIDAt(calls, i, EmptyCallID);
        return Some(EmptyCallID);
      }
      if calls[i].id in seen {
        assert BadIDAt(calls, i, DuplicateCallID);
        return Some(DuplicateCallID);
      }
      seen := seen + {calls[i].id};
    }
    assert calls[..|calls|] == calls;
    err := None;
  }

  /** streamAssistant, for the events the model sends and the error it returns: the first error
      of the events wins over the one returned. */
  method StreamAssistant(events: seq<Event>, returned: Option<string>)
    returns (r: Result<seq<Block>, TurnError>, emitted: seq<Event>)
    ensures r.Ok? <==> InProtocol(events) && returned.None?
    ensures r.Ok? ==> Outcome(Run(events)) == Ok(r.value)
    ensures r.Err? ==> r.error.StreamProtocol? || r.error.ModelReturned?
    ensures Run(events).err.Some? ==> r == Err(StreamProtocol(Run(events).err.value))
    ensures Run(events).err.None? && returned.Some? ==> r == Err(ModelReturned(returned.value))
    ensures Run(events).err.None? && returned.None? && r.Err? ==>
              r == Err(StreamProtocol(if Run(events).done then NoContent else NoMessageDone))
    ensures emitted == Forwarded(events)
  {
    var asm := new Assembler();
    emitted := [];
    for i := 0 to |events|
      invariant asm.Valid() && asm.Value() == Run(events[..i])
      invariant emitted == Forwarded(events[..i])
    {
      assert events[..i + 1][..i] == events[..i];
      var ok := asm.Accept(events[i]);
      if ok {
        emitted := emitted + [events[i]];
      }
    }
    assert events[..|events|] == events;
    AcceptsExactlyTheProtocol(events);
    if asm.err.Some? {
      r := Err(StreamProtocol(asm.err.value));
    } else if returned.Some? {
      r := Err(ModelReturned(returned.value));
    } else if !asm.done {
      r := Err(StreamProtocol(NoMessageDone));
    } else if asm.content == [] {
      r := Err(StreamProtocol(NoContent));
    } else {
      r := Ok(asm.content);
    }
  }

  lemma {:induction false} AssembledHasNoResults(evs: seq<Event>)
    ensures forall b :: b in Run(evs).content ==> !b.Answer?
  {
    if evs != [] {
      AssembledHasNoResults(evs[..|evs| - 1]);
    }
  }

  /** toolCalls */
  method ToolCalls(content: seq<Block>) returns (calls: seq<ToolCall>)
    ensures calls == Calls(content)
  {
    calls := [];
    for i := 0 to |content|
      invariant calls == Calls(content[..i])
    {
      assert content[..i + 1][..i] == content[..i];
      if content[i].Call? {
        calls := calls + [content[i].call];
      }
    }
    assert content[..|content|] == content;
  }

  /** The message a model call gives, if its calls can be told apart. */
  ghost function Answered(events: seq<Event>, returned: Option<string>): Option<seq<Block>> {
    match Outcome(Run(events))
    case Ok(content) => if returned.None? && DistinctIDs(Calls(content)) then Some(content) else None
    case Err(_) => None
  }

  predicate FromModel(err: TurnError) {
    err.StreamProtocol? || err.ModelReturned? || err.EmptyCallID? || err.DuplicateCallID?
  }

  /** Why a model call gives no message: the stream's own error comes first, then the one the model
      returned, then what the stream lacks, then the ids of its calls. */
  ghost predicate Fault(events: seq<Event>, returned: Option<string>, err: TurnError) {
    var s := Run(events);
    && FromModel(err)
    && if s.err.Some? then err == StreamProtocol(s.err.value)
       else if returned.Some? then err == ModelReturned(returned.value)
       else if !s.done then err == StreamProtocol(NoMessageDone)
       else if s.content == [] then err == StreamProtocol(NoContent)
       else BadID(Calls(s.content), err)
  }

  /** One model call: a message whose calls can be told apart, or the error that ends the turn. */
  method AskModel(events: seq<Event>, returned: Option<string>)
    returns (r: Result<seq<Block>, TurnError>, calls: seq<ToolCall>)
    ensures r.Ok? <==> Answered(events, returned).Some?
    ensures r.Ok? ==> r.value == Answered(events, returned).value && AssistantContent(r.value)
    ensures r.Ok? ==> calls == Calls(r.value)
    ensures r.Err? ==> Fault(events, returned, r.error)
  {
    AcceptsExactlyTheProtocol(events);
    var assistant, _ := StreamAssistant(events, returned);
    if assistant.Err? {
      return assistant, [];
    }
    AssembledHasNoResults(events);
    calls := ToolCalls(assistant.value);
    var bad := ValidateCallIDs(calls);
    r := if bad.Some? then Err(bad.value) else assistant;
  }

  /** resultMessage */
  function ResultMessage(results: seq<ResultBlock>): Message {
    Message(User, seq(|results|, i requires 0 <= i < |results| => Answer(results[i])))
  }

  class Conv {
    var messages: seq<Message>
  }

  /** Everything a turn has done so far, as the Recorder heard it. */
  ghost predicate Faithful(start: seq<Message>, heard: seq<Record>, now: seq<Message>) {
    && Alternates(start) && Alternates(now)
    && History(start, heard) && Replay(start, heard) == now
  }

  lemma FaithfulSnoc(start: seq<Message>, heard: seq<Record>, now: seq<Message>, r: Record)
    requires Faithful(start, heard, now) && MayRecord(now, r)
    ensures Faithful(start, heard + [r], Replay1(now, r))
  {
    HistorySnoc(start, heard, r);
    RecordKeepsAlternation(now, r);
  }

  /** The calls are still waiting for results: user text added now would orphan them. */
  ghost predicate Dangling(conv: seq<Message>) {
    conv != [] && !EndsOnUser(conv) && Asked(conv, |conv|) != []
  }

  /** Changes that leave no call unanswered keep results and calls together. */
  lemma PairingStep(conv: seq<Message>, r: Record)
    requires Alternates(conv) && Paired(conv) && MayRecord(conv, r)
    requires r.kind == Append && r.message.role == User && r.message.content[0].Text? ==> !Dangling(conv)
    ensures Paired(Replay1(conv, r))
  {
    RecordKeepsPairing(conv, r);
  }

  /** How a round of a turn ends. */
  datatype RoundEnd = Again(hallucinated: bool) | Final | Failed(err: TurnError)

  /** What the tools of a round answered, and at which call they stopped. */
  datatype Answers = Answers(results: seq<ResultBlock>, k: nat)

  /** `after` is `before` with a user message that carries the results, a block for each, in order. */
  ghost predicate Told(before: seq<Message>, results: seq<ResultBlock>, after: seq<Message>) {
    && |after| == |before| + 1 && before <= after
    && after[|before|].role == User && |after[|before|].content| == |results|
    && forall i :: 0 <= i < |results| ==> after[|before|].content[i] == Answer(results[i])
  }

  ghost predicate Unknown(calls: seq<ToolCall>, known: set<string>, play: Play, k: nat) {
    k < |calls| && calls[k].name !in known && play.doneAt != Some(2 * k)
  }

  /** One round takes the conversation from `before` to `after`: the message of its model call, if
      there is one, and the results of its calls, if it has any and no deadline came between. */
  ghost predicate Played(before: seq<Message>, after: seq<Message>, known: set<string>, ends: ContextError,
                         play: Play, end: RoundEnd, answers: Answers) {
    match Answered(play.events, play.returned)
    case None => end.Failed? && Fault(play.events, play.returned, end.err) && after == before
    case Some(content) =>
      var spoken, calls := before + [Message(Assistant, content)], Calls(content);
      if calls == [] then end.Final? && after == spoken
      else
        && AnsweredBy(answers.results, calls, known, play, answers.k)
        && var done := answers.k < |calls| && DoneAtCall(play, calls[answers.k], known, answers.k);
           && end == (if done then Failed(ToolsStopped(ends)) else Again(Unknown(calls, known, play, answers.k)))
           && if done && ends != Canceled then after == spoken else Told(spoken, answers.results, after)
  }

  /** The conversation with the user's text: joined to a last user message, or a new one. */
  ghost predicate Asks(before: seq<Message>, text: string, after: seq<Message>) {
    if EndsOnUser(before) then
      after == before[..|before| - 1] + [Message(User, before[|before| - 1].content + [Text(text)])]
    else after == before + [Message(User, [Text(text)])]
  }

  /** A round as it went: the conversation the model was asked with, how it ended, and what the
      tools answered. */
  datatype Exchange = Exchange(request: seq<Message>, end: RoundEnd, answers: Answers)

  /** The rounds lead from the user's text to the conversation `now`, each asked with what the one
      before it left. */
  ghost predicate Story(start: seq<Message>, text: string, known: set<string>, ends: ContextError,
                        plays: nat -> Play, rounds: seq<Exchange>, now: seq<Message>) {
    if rounds == [] then Asks(start, text, now)
    else
      var n := |rounds| - 1;
      && Story(start, text, known, ends, plays, rounds[..n], rounds[n].request)
      && Played(rounds[n].request, now, known, ends, plays(n), rounds[n].end, rounds[n].answers)
  }

  lemma StoryGrows(start: seq<Message>, text: string, known: set<string>, ends: ContextError,
                   plays: nat -> Play, rounds: seq<Exchange>, now: seq<Message>, round: Exchange, next: seq<Message>)
    requires Story(start, text, known, ends, plays, rounds, now) && round.request == now
    requires Played(now, next, known, ends, plays(|rounds|), round.end, round.answers)
    ensures Story(start, text, known, ends, plays, rounds + [round], next)
  {
    assert (rounds + [round])[..|rounds|] == rounds;
  }

  /** The model is first asked with the user's text. */
  lemma {:induction false} StoryBegins(start: seq<Message>, text: string, known: set<string>, ends: ContextError,
                                       plays: nat -> Play, rounds: seq<Exchange>, now: seq<Message>)
    requires Story(start, text, known, ends, plays, rounds, now) && rounds != []
    ensures Asks(start, text, rounds[0].request)
  {
    var n := |rounds| - 1;
    if n > 0 {
      StoryBegins(start, text, known, ends, plays, rounds[..n], rounds[n].request);
    }
  }

  /** Only the last round, if any, is not followed by another. */
  ghost predicate AllButLastAgain(rounds: seq<Exchange>) {
    forall i :: 0 <= i < |rounds| - 1 ==> rounds[i].end.Again?
  }

  ghost predicate AllAgain(rounds: seq<Exchange>) {
    forall i :: 0 <= i < |rounds| ==> rounds[i].end.Again?
  }

  /** What the model is asked with alternates and ends on the user; in a sound conversation every
      call in it has its result. */
  ghost predicate GoodRequests(rounds: seq<Exchange>, sound: bool) {
    forall i :: 0 <= i < |rounds| ==>
      Alternates(rounds[i].request) && EndsOnUser(rounds[i].request) && (sound ==> WellFormed(rounds[i].request))
  }

  function Ends(rounds: seq<Exchange>): seq<RoundEnd> {
    seq(|rounds|, i requires 0 <= i < |rounds| => rounds[i].end)
  }

  /** How the conversation is left: calls without results exactly when a deadline stopped the tools,
      the assistant's word last when there is no error. */
  ghost predicate LeftAt(conv: seq<Message>, err: Option<TurnError>, ends: ContextError) {
    && (Dangling(conv) <==> err == Some(ToolsStopped(DeadlineExceeded)))
    && (err.None? ==> !EndsOnUser(conv))
    && (err.Some? && err.value.ToolsStopped? ==> err.value.context == ends)
  }

  /** How many rounds asked for an unknown tool. */
  function Hallucinated(ends: seq<RoundEnd>): nat {
    if ends == [] then 0 else Hallucinated(ends[..|ends| - 1]) + if ends[|ends| - 1] == Again(true) then 1 else 0
  }

  lemma EndsSnoc(rounds: seq<Exchange>, round: Exchange)
    ensures Ends(rounds + [round]) == Ends(rounds) + [round.end]
    ensures Hallucinated(Ends(rounds + [round]))
         == Hallucinated(Ends(rounds)) + if round.end == Again(true) then 1 else 0
  {
    assert Ends(rounds + [round]) == Ends(rounds) + [round.end];
    assert (Ends(rounds) + [round.end])[..|Ends(rounds)|] == Ends(rounds);
  }

  /** How a turn of such rounds ends: as its last one does, or after the third unknown tool, or
      after its last round of tools. */
  function TurnEnds(ends: seq<RoundEnd>): Option<TurnError>
    requires ends != []
  {
    match ends[|ends| - 1]
    case Failed(err) => Some(err)
    case Final => None
    case Again(hallucinated) =>
      if hallucinated && Hallucinated(ends) == 3 then Some(ToolNameHallucination) else Some(MaxTurnsExceeded)
  }

  /** In the middle of a turn: after `toolRounds` rounds with tools, `retries` of them for unknown
      ones, each followed by another. */
  ghost predicate Underway(rounds: seq<Exchange>, toolRounds: nat, retries: nat, sound: bool) {
    && |rounds| == toolRounds <= 25 && Hallucinated(Ends(rounds)) == retries <= 2
    && AllAgain(rounds) && GoodRequests(rounds, sound)
  }

  /** The turn is over, as its rounds say. */
  ghost predicate Over(rounds: seq<Exchange>, err: Option<TurnError>, sound: bool) {
    && 0 < |rounds| <= 25 && err == TurnEnds(Ends(rounds)) && (err == Some(MaxTurnsExceeded) ==> |rounds| == 25)
    && AllButLastAgain(rounds) && GoodRequests(rounds, sound)
  }

  lemma OneMore(rounds: seq<Exchange>, toolRounds: nat, retries: nat, round: Exchange, sound: bool)
    requires Underway(rounds, toolRounds, retries, sound) && toolRounds < 25
    requires Alternates(round.request) && EndsOnUser(round.request) && (sound ==> WellFormed(round.request))
    requires round.end.Failed? ==> round.end.err != MaxTurnsExceeded
    ensures var more, unknown := rounds + [round], retries + if round.end == Again(true) then 1 else 0;
      match round.end
      case Failed(e) => Over(more, Some(e), sound)
      case Final => Over(more, None, sound)
      case Again(_) =>
        if unknown > 2 then Over(more, Some(ToolNameHallucination), sound)
        else Underway(more, toolRounds + 1, unknown, sound)
  {
    EndsSnoc(rounds, round);
  }

  lemma OutOfRounds(rounds: seq<Exchange>, retries: nat, sound: bool)
    requires Underway(rounds, 25, retries, sound)
    ensures Over(rounds, Some(MaxTurnsExceeded), sound)
  {
    assert Ends(rounds)[24].Again?;
  }

  class Agent {
    /** What the Recorder has heard. */
    var records: seq<Record>

    constructor ()
      ensures records == []
    {
      records := [];
    }

    /** Since `mark`, the Recorder has heard exactly how `start` became the conversation. */
    ghost predicate OnTrack(conv: Conv, start: seq<Message>, mark: nat, sound: bool)
      reads this, conv
    {
      && mark <= |records|
      && Faithful(start, records[mark..], conv.messages)
      && (sound ==> Paired(conv.messages))
    }

    /** appendMessage, with the record it makes. */
    method AppendMessage(conv: Conv, m: Message, ghost start: seq<Message>, ghost mark: nat, ghost sound: bool)
      requires OnTrack(conv, start, mark, sound) && MayRecord(conv.messages, Record(Append, m))
      requires sound && m.role == User && m.content[0].Text? ==> !Dangling(conv.messages)
      modifies this`records, conv`messages
      ensures OnTrack(conv, start, mark, sound)
      ensures conv.messages == old(conv.messages) + [m]
      ensures records == old(records) + [Record(Append, m)]
    {
      FaithfulSnoc(start, records[mark..], conv.messages, Record(Append, m));
      if sound {
        PairingStep(conv.messages, Record(Append, m));
      }
      conv.messages := conv.messages + [m];
      records := records + [Record(Append, m)];
      assert records[mark..] == old(records[mark..]) + [Record(Append, m)];
    }

    /** User text joins a last user message, or becomes a new one. */
    method AddUserText(conv: Conv, userText: string)
      requires Alternates(conv.messages)
      modifies this`records, conv`messages
      ensures OnTrack(conv, old(conv.messages), |old(records)|, WellFormed(old(conv.messages)))
      ensures EndsOnUser(conv.messages) && Asks(old(conv.messages), userText, conv.messages)
      ensures var kind := if EndsOnUser(old(conv.messages)) then Merge else Append;
        records == old(records) + [Record(kind, Message(User, [Text(userText)]))]
    {
      ghost var start, sound := conv.messages, WellFormed(conv.messages);
      var block := Text(userText);
      var n := |conv.messages|;
      assert records[|records|..] == [];
      assert History(start, []) && Replay(start, []) == start;
      if n > 0 && conv.messages[n - 1].role == User {
        var r := Record(Merge, Message(User, [block]));
        FaithfulSnoc(start, [], start, r);
        if sound {
          PairingStep(start, r);
        }
        var last := conv.messages[n - 1];
        conv.messages := conv.messages[n - 1 := last.(content := last.content + [block])];
        records := records + [r];
        assert records[|old(records)|..] == [] + [r];
        assert conv.messages == Replay1(start, r);
      } else {
        AppendMessage(conv, Message(User, [block]), start, |records|, sound);
      }
    }

    /** The tools of a round, and the message of their results. */
    method AnswerCalls(conv: Conv, calls: seq<ToolCall>, known: set<string>, ends: ContextError, play: Play,
                       ghost start: seq<Message>, ghost mark: nat, ghost sound: bool)
      returns (end: RoundEnd, ghost answers: Answers)
      requires OnTrack(conv, start, mark, sound) && conv.messages != [] && !EndsOnUser(conv.messages)
      requires calls != [] && calls == Asked(conv.messages, |conv.messages|)
      modifies this`records, conv`messages
      ensures OnTrack(conv, start, mark, sound) && old(records) <= records
      ensures AnsweredBy(answers.results, calls, known, play, answers.k)
      ensures var done := answers.k < |calls| && DoneAtCall(play, calls[answers.k], known, answers.k);
        && end == (if done then Failed(ToolsStopped(ends)) else Again(Unknown(calls, known, play, answers.k)))
        && if done && ends != Canceled then conv.messages == old(conv.messages)
           else Told(old(conv.messages), answers.results, conv.messages)
      ensures end.Again? ==> EndsOnUser(conv.messages)
      ensures end != Failed(ToolsStopped(DeadlineExceeded)) ==> !Dangling(conv.messages)
    {
      var results, hallucinated, stopped, k, _ := InvokeTools(calls, known, ends, play);
      answers := Answers(results, k);
      if stopped.Some? && stopped.value != Canceled {
        return Failed(ToolsStopped(stopped.value)), answers;
      }
      AppendMessage(conv, ResultMessage(results), start, mark, sound);
      end := if stopped.Some? then Failed(ToolsStopped(Canceled)) else Again(hallucinated);
    }

    /** One round: a model call, and the tools it asks for. */
    method Round(conv: Conv, known: set<string>, ends: ContextError, play: Play,
                    ghost start: seq<Message>, ghost mark: nat, ghost sound: bool)
      returns (end: RoundEnd, ghost answers: Answers)
      requires OnTrack(conv, start, mark, sound) && EndsOnUser(conv.messages)
      modifies this`records, conv`messages
      ensures OnTrack(conv, start, mark, sound) && old(records) <= records
      ensures Played(old(conv.messages), conv.messages, known, ends, play, end, answers)
      ensures end.Again? ==> EndsOnUser(conv.messages)
      ensures end.Final? ==> !EndsOnUser(conv.messages) && !Dangling(conv.messages)
      ensures end.Failed? ==> (Dangling(conv.messages) <==> end.err == ToolsStopped(DeadlineExceeded))
    {
      var assistant, calls := AskModel(play.events, play.returned);
      answers := Answers([], 0);
      if assistant.Err? {
        return Failed(assistant.error), answers;
      }
      AppendMessage(conv, Message(Assistant, assistant.value), start, mark, sound);
      if |calls| == 0 {
        return Final, answers;
      }
      end, answers := AnswerCalls(conv, calls, known, ends, play, start, mark, sound);
    }

    /** The loop of Turn, from the user's text on; `start` is the conversation before it. */
    method Rounds(conv: Conv, known: set<string>, ends: ContextError, plays: nat -> Play,
                  ghost start: seq<Message>, ghost mark: nat, ghost sound: bool, ghost text: string)
      returns (err: Option<TurnError>, ghost rounds: seq<Exchange>)
      requires OnTrack(conv, start, mark, sound) && EndsOnUser(conv.messages)
      requires Story(start, text, known, ends, plays, [], conv.messages)
      modifies this`records, conv`messages
      ensures OnTrack(conv, start, mark, sound) && old(records) <= records
      ensures Story(start, text, known, ends, plays, rounds, conv.messages)
      ensures Over(rounds, err, sound) && LeftAt(conv.messages, err, ends)
    {
      var toolRounds, hallucinationRetries := 0, 0;
      rounds := [];
      while toolRounds < MAX_TOOL_ROUNDS
        invariant OnTrack(conv, start, mark, sound) && EndsOnUser(conv.messages) && old(records) <= records
        invariant Story(start, text, known, ends, plays, rounds, conv.messages)
        invariant Underway(rounds, toolRounds, hallucinationRetries, sound)
      {
        var stop;
        stop, err, hallucinationRetries, rounds :=
          NextRound(conv, known, ends, plays, toolRounds, hallucinationRetries, start, mark, sound, text, rounds);
        if stop {
          return;
        }
        toolRounds := toolRounds + 1;
      }
      OutOfRounds(rounds, hallucinationRetries, sound);
      err := Some(MaxTurnsExceeded);
    }

    /** One turn of that loop, and whether the turn ends with it. */
    method NextRound(conv: Conv, known: set<string>, ends: ContextError, plays: nat -> Play,
                     toolRounds: nat, retries: nat,
                     ghost start: seq<Message>, ghost mark: nat, ghost sound: bool, ghost text: string,
                     ghost rounds: seq<Exchange>)
      returns (stop: bool, err: Option<TurnError>, retries': nat, ghost more: seq<Exchange>)
      requires OnTrack(conv, start, mark, sound) && EndsOnUser(conv.messages)
      requires Story(start, text, known, ends, plays, rounds, conv.messages)
      requires Underway(rounds, toolRounds, retries, sound) && toolRounds < MAX_TOOL_ROUNDS
      modifies this`records, conv`messages
      ensures OnTrack(conv, start, mark, sound) && old(records) <= records
      ensures Story(start, text, known, ends, plays, more, conv.messages)
      ensures stop ==> Over(more, err, sound) && LeftAt(conv.messages, err, ends)
      ensures !stop ==> Underway(more, toolRounds + 1, retries', sound) && EndsOnUser(conv.messages)
    {
      ghost var now := conv.messages;
      var end; ghost var answers;
      end, answers := Round(conv, known, ends, plays(toolRounds), start, mark, sound);
      ghost var round := Exchange(now, end, answers);
      StoryGrows(start, text, known, ends, plays, rounds, now, round, conv.messages);
      OneMore(rounds, toolRounds, retries, round, sound);
      more := rounds + [round];
      retries' := retries;
      match end {
        case Failed(e) =>
          stop, err := true, Some(e);
        case Final =>
          stop, err := true, None;
        case Again(hallucinated) =>
          if hallucinated {
            retries' := retries + 1;
          }
          stop := retries' > MAX_HALLUCINATION_RETRIES;
          err := Some(ToolNameHallucination);
      }
    }

    /** Turn: for any model, any tools and any moment at which the context ends.  `plays` is what
        happens around each round, `known` are the tool names of the registry, `ends` is how the
        context ends if it does, and `rounds` are the conversations sent to the model, how each
        round ended and what its tools answered.  A context that can only be cancelled leaves
        calls with their results; under a deadline exactly the turns that it stopped between call
        and result do not. */
    method Turn(conv: Conv, userText: string, known: set<string>, ends: ContextError, plays: nat -> Play)
      returns (err: Option<TurnError>, ghost rounds: seq<Exchange>)
      requires Alternates(conv.messages)
      modifies this`records, conv`messages
      ensures old(records) < records && records[|old(records)|].message == Message(User, [Text(userText)])
      ensures Faithful(old(conv.messages), records[|old(records)|..], conv.messages)
      ensures Over(rounds, err, WellFormed(old(conv.messages)))
      ensures Story(old(conv.messages), userText, known, ends, plays, rounds, conv.messages)
      ensures Asks(old(conv.messages), userText, rounds[0].request)
      ensures WellFormed(old(conv.messages)) && ends.Canceled? ==> WellFormed(conv.messages)
      ensures WellFormed(old(conv.messages)) && ends.DeadlineExceeded? ==>
                (WellFormed(conv.messages) <==> err != Some(ToolsStopped(DeadlineExceeded)))
      ensures err.Some? && err.value.ToolsStopped? ==> err.value.context == ends
      ensures err.None? ==> !EndsOnUser(conv.messages) && !Dangling(conv.messages)
    {
      ghost var start, mark, sound := conv.messages, |records|, WellFormed(conv.messages);
      AddUserText(conv, userText);
      err, rounds := Rounds(conv, known, ends, plays, start, mark, sound, userText);
      StoryBegins(start, userText, known, ends, plays, rounds, conv.messages);
    }
  }

  // ----------------------------------------------- a turn stopped by its deadline

  const CALL := ToolCall("1", "t", "{}")

  /** A model that asks for one tool. */
  const ONE_CALL := [ToolCallEnd(Some(CALL)), MessageDone(None)]

  lemma OneCallIsAnswered()
    ensures Answered(ONE_CALL, None) == Some([Call(CALL)]) && Calls([Call(CALL)]) == [CALL]
  {
    var first := ONE_CALL[..1];
    assert first == [ToolCallEnd(Some(CALL))] && first[..0] == [] && Run([]) == FRESH;
    assert Run(first) == FRESH.(content := [] + [Call(CALL)]);
    assert Run(ONE_CALL) == Next(Run(first), MessageDone(None));
    assert [Call(CALL)][..0] == [] && Calls([Call(CALL)]) == [] + [CALL];
  }

  /** A round whose deadline passes before its only tool is started: the call keeps no result, and
      the conversation is not well formed. */
  method DeadlineLeavesACall(agent: Agent, conv: Conv) returns (end: RoundEnd)
    requires conv.messages == []
    modifies agent, conv
    ensures end == Failed(ToolsStopped(DeadlineExceeded))
    ensures conv.messages == [Message(User, [Text("q")]), Message(Assistant, [Call(CALL)])]
    ensures Dangling(conv.messages) && !WellFormed(conv.messages)
  {
    ghost var mark := |agent.records|;
    agent.AddUserText(conv, "q");
    ghost var asked := Record(Append, Message(User, [Text("q")]));
    assert agent.records[mark..] == [asked] && [asked][..0] == [];
    assert conv.messages == Replay1(Replay([], []), asked) == [asked.message];
    OneCallIsAnswered();
    var play := Play(ONE_CALL, None, call => ToolResult(true, "", false, ""), call => "", Some(0));
    ghost var answers;
    end, answers := agent.Round(conv, {"t"}, DeadlineExceeded, play, [], mark, true);
  }
}
