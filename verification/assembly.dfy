/** The stream assembler: which event sequences it accepts, and what it builds. */
module Assembly {
  import opened Prelude
  import opened Conversation

  datatype Usage = Usage(input: nat, output: nat, cacheRead: nat, cacheWrite: nat)

  datatype Event =
    | TextDelta(text: string)
    | ThinkingDelta(text: string)
    | ThinkingDone(thinking: Option<Thinking>)
    | ToolCallStart(id: string, name: string)
    | ToolCallDelta(text: string)
    | ToolCallEnd(call: Option<ToolCall>)
    | MessageDone(usage: Option<Usage>)
    | UsageReport
    | Failure(err: Option<string>)

  datatype StreamError =
    | AfterMessageDone | TextWhileThinking | NilThinking | CallWhileThinking | NilCall | ThinkingNotClosed
    | NoMessageDone | NoContent
    | ModelError(err: string)
    | StreamFailed

  /** An assembly's fields.  `open` says that the last block is a thinking block still
      waiting for its ThinkingDone. */
  datatype State = State(content: seq<Block>, open: bool, done: bool, usage: Option<Usage>, err: Option<StreamError>)

  const FRESH := State([], false, false, None, None)

  function AddText(content: seq<Block>, text: string): seq<Block> {
    var n := |content|;
    if n > 0 && content[n - 1].Text? then content[..n - 1] + [Text(content[n - 1].text + text)]
    else content + [Text(text)]
  }

  /** The blocks with the open thinking block replaced, or a new one added. */
  function SetThinking(s: State, t: Thinking): seq<Block> {
    if s.open && s.content != [] then s.content[..|s.content| - 1] + [Reasoning(t)] else s.content + [Reasoning(t)]
  }

  function OpenText(s: State): string {
    if s.open && s.content != [] && s.content[|s.content| - 1].Reasoning?
    then s.content[|s.content| - 1].thinking.text else ""
  }

  function Refusal(s: State, ev: Event): Option<StreamError> {
    if s.done then Some(AfterMessageDone)
    else if ev.TextDelta? && s.open then Some(TextWhileThinking)
    else if ev.ThinkingDone? && ev.thinking.None? then Some(NilThinking)
    else if ev.ToolCallEnd? && s.open then Some(CallWhileThinking)
    else if ev.ToolCallEnd? && ev.call.None? then Some(NilCall)
    else if ev.MessageDone? && s.open then Some(ThinkingNotClosed)
    else None
  }

  function Next(s: State, ev: Event): State {
    if s.err.Some? then s
    else if Refusal(s, ev).Some? then s.(err := Refusal(s, ev))
    else
      match ev
      case TextDelta(text) => s.(content := AddText(s.content, text))
      case ThinkingDelta(text) =>
        s.(content := SetThinking(s, Thinking(OpenText(s) + text, "", false, "", false)), open := true)
      case ThinkingDone(t) =>
        s.(content := SetThinking(s, t.value.(dropOnSummary := true)), open := false)
      case ToolCallEnd(call) => s.(content := s.content + [Call(call.value)])
      case MessageDone(usage) => s.(done := true, usage := usage)
      case Failure(err) => s.(err := Some(if err.Some? then ModelError(err.value) else StreamFailed))
      case _ => s
  }

  function Forwards(s: State, ev: Event): bool {
    s.err.None? && Refusal(s, ev).None?
  }

  function Run(evs: seq<Event>): State {
    if evs == [] then FRESH else Next(Run(evs[..|evs| - 1]), evs[|evs| - 1])
  }

  /** finish, after a stream whose own error is nil. */
  function Outcome(s: State): Result<seq<Block>, StreamError> {
    if s.err.Some? then Err(s.err.value)
    else if !s.done then Err(NoMessageDone)
    else if s.content == [] then Err(NoContent)
    else Ok(s.content)
  }

  class Assembler {
    var content: seq<Block>
    var open: bool
    var done: bool
    var usage: Option<Usage>
    var err: Option<StreamError>

    constructor ()
      ensures Value() == FRESH
    {
      content, open, done, usage, err := [], false, false, None, None;
    }

    function Value(): State
      reads this
    {
      State(content, open, done, usage, err)
    }

    /** An open block is the last one, with nothing but its text filled in. */
    ghost predicate Valid()
      reads this
    {
      open ==> content != [] && content[|content| - 1].Reasoning?
               && content[|content| - 1].thinking.signature == "" == content[|content| - 1].thinking.data
               && !content[|content| - 1].thinking.redacted && !content[|content| - 1].thinking.dropOnSummary
    }

    /** accept */
    method Accept(ev: Event) returns (ok: bool)
      requires Valid()
      modifies this
      ensures Valid()
      ensures Value() == Next(old(Value()), ev)
      ensures ok == Forwards(old(Value()), ev)
    {
      if err.Some? {
        return false;
      }
      if done {
        err := Some(AfterMessageDone);
        return false;
      }
      var n := |content|;
      match ev {
        case TextDelta(text) =>
          if open {
            err := Some(TextWhileThinking);
            return false;
          }
          if n > 0 && content[n - 1].Text? {
            content := content[n - 1 := Text(content[n - 1].text + text)];
          } else {
            content := content + [Text(text)];
          }
        case ThinkingDelta(text) =>
          if !open {
            content := content + [Reasoning(Thinking("", "", false, "", false))];
            open := true;
          }
          var last := content[|content| - 1].thinking;
          content := content[|content| - 1 := Reasoning(last.(text := last.text + text))];
        case ThinkingDone(thinking) =>
          if thinking.None? {
            err := Some(NilThinking);
            return false;
          }
          if !open {
            content := content + [Reasoning(Thinking("", "", false, "", false))];
          }
          content := content[|content| - 1 := Reasoning(thinking.value.(dropOnSummary := true))];
          open := false;
        case ToolCallEnd(call) =>
          if open {
            err := Some(CallWhileThinking);
            return false;
          }
          if call.None? {
            err := Some(NilCall);
            return false;
          }
          content := content + [Call(call.value)];
        case ToolCallStart(_, _) =>
        case ToolCallDelta(_) =>
        case MessageDone(u) =>
          if open {
            err := Some(ThinkingNotClosed);
            return false;
          }
          done := true;
          usage := u;
        case UsageReport =>
        case Failure(e) =>
          err := Some(if e.Some? then ModelError(e.value) else StreamFailed);
      }
      return true;
    }
  }

  // ------------------------------------------------ the protocol, declared

  /** Before event i a thinking block is waiting for its ThinkingDone. */
  ghost predicate OpenAt(evs: seq<Event>, i: nat)
    requires i <= |evs|
  {
    exists j :: 0 <= j < i && evs[j].ThinkingDelta? && forall k :: j < k < i ==> !evs[k].ThinkingDone?
  }

  /** Event i may follow the events before it. */
  ghost predicate Allowed(evs: seq<Event>, i: nat)
    requires i < |evs|
  {
    && (forall j :: 0 <= j < i ==> !evs[j].MessageDone? && !evs[j].Failure?)
    && match evs[i]
       case TextDelta(_) => !OpenAt(evs, i)
       case ThinkingDone(t) => t.Some?
       case ToolCallEnd(call) => !OpenAt(evs, i) && call.Some?
       case MessageDone(_) => !OpenAt(evs, i)
       case _ => true
  }

  ghost predicate MakesBlock(ev: Event) {
    ev.TextDelta? || ev.ThinkingDone? || ev.ToolCallEnd?
  }

  ghost predicate Fine(evs: seq<Event>, i: nat)
    requires i < |evs|
  {
    Allowed(evs, i) && !evs[i].Failure?
  }

  ghost predicate Clean(evs: seq<Event>) {
    forall i :: 0 <= i < |evs| ==> Fine(evs, i)
  }

  ghost predicate Ended(evs: seq<Event>) {
    exists i :: 0 <= i < |evs| && evs[i].MessageDone?
  }

  /** The streams that carry an assistant message. */
  ghost predicate InProtocol(evs: seq<Event>) {
    && Clean(evs)
    && evs != [] && evs[|evs| - 1].MessageDone?
    && exists i :: 0 <= i < |evs| && MakesBlock(evs[i])
  }

  lemma PrefixAllowed(evs: seq<Event>, n: nat, i: nat)
    requires i < n <= |evs|
    ensures OpenAt(evs[..n], i) == OpenAt(evs, i)
    ensures Allowed(evs[..n], i) == Allowed(evs, i)
    ensures Fine(evs[..n], i) == Fine(evs, i)
  {
    var pre := evs[..n];
    assert forall k :: 0 <= k < n ==> pre[k] == evs[k];
    if OpenAt(evs, i) {
      var j :| 0 <= j < i && evs[j].ThinkingDelta? && forall k :: j < k < i ==> !evs[k].ThinkingDone?;
      assert pre[j].ThinkingDelta?;
    }
  }

  lemma OpenStep(evs: seq<Event>)
    requires evs != []
    ensures var n := |evs| - 1;
      OpenAt(evs, |evs|) == (evs[n].ThinkingDelta? || (!evs[n].ThinkingDone? && OpenAt(evs[..n], n)))
  {
    var n := |evs| - 1;
    var pre := evs[..n];
    assert forall k :: 0 <= k < n ==> pre[k] == evs[k];
    if evs[n].ThinkingDelta? {
      assert OpenAt(evs, |evs|);
    } else if OpenAt(pre, n) && !evs[n].ThinkingDone? {
      var j :| 0 <= j < n && pre[j].ThinkingDelta? && forall k :: j < k < n ==> !pre[k].ThinkingDone?;
      assert evs[j].ThinkingDelta? && forall k :: j < k < n ==> pre[k] == evs[k];
    }
  }

  ghost predicate HasBlock(evs: seq<Event>) {
    exists i :: 0 <= i < |evs| && (MakesBlock(evs[i]) || evs[i].ThinkingDelta?)
  }

  lemma CleanStep(evs: seq<Event>)
    requires evs != []
    ensures var n := |evs| - 1; Clean(evs) <==> Clean(evs[..n]) && Fine(evs, n)
  {
    var n := |evs| - 1;
    forall i | 0 <= i < n ensures Fine(evs[..n], i) == Fine(evs, i) {
      PrefixAllowed(evs, n, i);
    }
  }

  lemma EndedStep(evs: seq<Event>)
    requires evs != []
    ensures var n := |evs| - 1;
      && (Ended(evs) <==> Ended(evs[..n]) || evs[n].MessageDone?)
      && (HasBlock(evs) <==> HasBlock(evs[..n]) || MakesBlock(evs[n]) || evs[n].ThinkingDelta?)
  {
    var n := |evs| - 1;
    if i :| 0 <= i < n && evs[..n][i].MessageDone? {
      assert evs[i].MessageDone?;
    }
    if i :| 0 <= i < n && (MakesBlock(evs[..n][i]) || evs[..n][i].ThinkingDelta?) {
      assert MakesBlock(evs[i]) || evs[i].ThinkingDelta?;
    }
  }

  /** After clean events, the next one is allowed exactly when the state does not refuse it. */
  lemma AllowedMeans(evs: seq<Event>, s: State)
    requires evs != [] && Clean(evs[..|evs| - 1])
    requires s.open == OpenAt(evs[..|evs| - 1], |evs| - 1) && s.done == Ended(evs[..|evs| - 1])
    ensures Allowed(evs, |evs| - 1) <==> Refusal(s, evs[|evs| - 1]).None?
  {
    var n := |evs| - 1;
    var pre := evs[..n];
    assert forall k :: 0 <= k < n ==> pre[k] == evs[k];
    assert OpenAt(pre, n) == OpenAt(evs, n);
    assert forall j :: 0 <= j < n ==> Fine(pre, j) && !evs[j].Failure?;
    assert Ended(pre) <==> exists j :: 0 <= j < n && evs[j].MessageDone?;
  }

  /** What the running state says about the events so far. */
  lemma {:induction false} RunMeans(evs: seq<Event>)
    ensures var s := Run(evs);
      && (s.err.None? <==> Clean(evs))
      && (Clean(evs) ==> s.open == OpenAt(evs, |evs|) && s.done == Ended(evs) && (s.content != []) == HasBlock(evs))
  {
    if evs != [] {
      var n := |evs| - 1;
      RunMeans(evs[..n]);
      CleanStep(evs);
      EndedStep(evs);
      OpenStep(evs);
      if Clean(evs[..n]) {
        AllowedMeans(evs, Run(evs[..n]));
      }
    }
  }

  /** The assembler delivers a message exactly on the streams of the protocol. */
  lemma AcceptsExactlyTheProtocol(evs: seq<Event>)
    ensures Outcome(Run(evs)).Ok? <==> InProtocol(evs)
  {
    RunMeans(evs);
    var n := |evs|;
    if Outcome(Run(evs)).Ok? {
      assert Ended(evs) && HasBlock(evs);
      var i :| 0 <= i < n && evs[i].MessageDone?;
      assert Fine(evs, n - 1);
      assert i == n - 1;
      var b :| 0 <= b < n && (MakesBlock(evs[b]) || evs[b].ThinkingDelta?);
      if evs[b].ThinkingDelta? {
        assert !OpenAt(evs, n - 1);
        assert exists k :: b < k < n - 1 && evs[k].ThinkingDone?;
      }
    }
  }

  ghost function Forwarded(evs: seq<Event>): seq<Event> {
    if evs == [] then []
    else
      var n := |evs| - 1;
      Forwarded(evs[..n]) + if Forwards(Run(evs[..n]), evs[n]) then [evs[n]] else []
  }

  /** `evs[..n]` is the longest prefix of allowed events, an error event being the last
      allowed one. */
  ghost predicate MaximalPrefix(evs: seq<Event>, n: nat) {
    n <= |evs| && (forall i :: 0 <= i < n ==> Allowed(evs, i)) && (n < |evs| ==> !Allowed(evs, n))
  }

  lemma PrefixGrows(evs: seq<Event>, k: nat) returns (n: nat)
    requires evs != [] && MaximalPrefix(evs[..|evs| - 1], k)
    ensures MaximalPrefix(evs, n)
    ensures n == if k == |evs| - 1 && Allowed(evs, k) then k + 1 else k
  {
    var m := |evs| - 1;
    forall i | 0 <= i < m ensures Allowed(evs[..m], i) == Allowed(evs, i) {
      PrefixAllowed(evs, m, i);
    }
    n := if k == m && Allowed(evs, k) then k + 1 else k;
  }

  /** What reaches emit is the maximal accepted prefix. */
  lemma {:induction false} ForwardsTheMaximalPrefix(evs: seq<Event>) returns (n: nat)
    ensures MaximalPrefix(evs, n) && Forwarded(evs) == evs[..n]
  {
    n := 0;
    if evs != [] {
      var m := |evs| - 1;
      var k := ForwardsTheMaximalPrefix(evs[..m]);
      n := PrefixGrows(evs, k);
      ForwardsWhenAllowed(evs);
      if k < m {
        assert !Fine(evs[..m], k);
      } else if !Clean(evs[..m]) {
        var j :| 0 <= j < m && !Fine(evs[..m], j);
        assert evs[..m][j] == evs[j] && evs[j].Failure?;
      }
      assert evs[..m + 1] == evs[..m] + [evs[m]];
    }
  }

  lemma ForwardsWhenAllowed(evs: seq<Event>)
    requires evs != []
    ensures var m := |evs| - 1;
      Forwards(Run(evs[..m]), evs[m]) <==> Clean(evs[..m]) && Allowed(evs, m)
  {
    var m := |evs| - 1;
    RunMeans(evs[..m]);
    if Clean(evs[..m]) {
      AllowedMeans(evs, Run(evs[..m]));
    }
  }
}
