/** Which logs Resume refuses, and which changes are not logged. */
module LogRefusals {
  import opened Prelude
  import opened Conversation
  import opened SessionLog

  /** Line j says that the model called `id`. */
  ghost predicate CallsAt(lines: seq<Line>, j: nat, id: string)
    requires j < |lines|
  {
    lines[j].AssistantMessage? && exists k :: 0 <= k < |lines[j].calls| && lines[j].calls[k].id == id
  }

  /** After line j the model did not speak again before line i, and `id` was not answered. */
  ghost predicate StillOpen(lines: seq<Line>, j: nat, i: nat, id: string)
    requires i <= |lines|
  {
    forall k :: j < k < i ==> !lines[k].AssistantMessage? && !(lines[k].ToolCompleted? && lines[k].id == id)
  }

  /** At line i a result for `id` is due: the last message of the model called it, and it was not answered since. */
  ghost predicate Due(lines: seq<Line>, i: nat, id: string)
    requires i <= |lines|
  {
    exists j :: 0 <= j < i && CallsAt(lines, j, id) && StillOpen(lines, j, i, id)
  }

  /** Line i cannot follow the lines before it, of which Resume made `conv`. */
  ghost predicate Malformed(lines: seq<Line>, i: nat, conv: seq<Message>)
    requires i < |lines|
  {
    match lines[i]
    case AssistantMessage(text, calls) => text == "" && calls == []
    case ToolCompleted(id, _, _, _) => id == "" || !Due(lines, i, id)
    case CompactionApplied(from, to, _) => from < 0 || to < from || to >= |conv|
    case _ => false
  }

  /** The first line that Resume stops at. */
  ghost predicate Breaks(lines: seq<Line>, i: nat)
    requires i < |lines|
  {
    Read(NOTHING_READ, lines[..i]).Some? && Malformed(lines, i, Read(NOTHING_READ, lines[..i]).value.conv)
  }

  /** One line more. */
  lemma DueNext(lines: seq<Line>, i: nat, id: string)
    requires i < |lines|
    ensures Due(lines, i + 1, id) <==>
      CallsAt(lines, i, id)
      || (Due(lines, i, id) && !lines[i].AssistantMessage? && !(lines[i].ToolCompleted? && lines[i].id == id))
  {
    if CallsAt(lines, i, id) {
      assert StillOpen(lines, i, i + 1, id);
    }
    if Due(lines, i, id) && !lines[i].AssistantMessage? && !(lines[i].ToolCompleted? && lines[i].id == id) {
      var j :| 0 <= j < i && CallsAt(lines, j, id) && StillOpen(lines, j, i, id);
      assert StillOpen(lines, j, i + 1, id);
    }
    if Due(lines, i + 1, id) && !CallsAt(lines, i, id) {
      var j :| 0 <= j < i + 1 && CallsAt(lines, j, id) && StillOpen(lines, j, i + 1, id);
      assert j < i && StillOpen(lines, j, i, id);
    }
  }

  lemma IDsAreCalls(lines: seq<Line>, i: nat, id: string)
    requires i < |lines| && lines[i].AssistantMessage?
    ensures id in IDs(lines[i].calls) <==> CallsAt(lines, i, id)
  {
    if c :| c in lines[i].calls && c.id == id {
      assert exists k :: 0 <= k < |lines[i].calls| && lines[i].calls[k] == c;
    }
  }

  /** What Resume waits for is what is due. */
  lemma {:induction false} PendingIsDue(lines: seq<Line>, n: nat, id: string)
    requires n <= |lines| && Read(NOTHING_READ, lines[..n]).Some?
    ensures id in Read(NOTHING_READ, lines[..n]).value.pending <==> Due(lines, n, id)
  {
    if n > 0 {
      assert lines[..n][..n - 1] == lines[..n - 1];
      PendingIsDue(lines, n - 1, id);
      DueNext(lines, n - 1, id);
      PendingStep(Read(NOTHING_READ, lines[..n - 1]).value, lines, n - 1, id);
    }
  }

  lemma PendingStep(s: Reading, lines: seq<Line>, i: nat, id: string)
    requires i < |lines| && Read1(s, lines[i]).Some?
    ensures id in Read1(s, lines[i]).value.pending <==>
      CallsAt(lines, i, id)
      || (id in s.pending && !lines[i].AssistantMessage? && !(lines[i].ToolCompleted? && lines[i].id == id))
  {
    if lines[i].AssistantMessage? {
      IDsAreCalls(lines, i, id);
    }
  }

  /** A log is refused at a line exactly when the line is malformed. */
  lemma RefusedAtLine(lines: seq<Line>, i: nat)
    requires i < |lines| && Read(NOTHING_READ, lines[..i]).Some?
    ensures Read(NOTHING_READ, lines[..i + 1]).None? <==>
      Malformed(lines, i, Read(NOTHING_READ, lines[..i]).value.conv)
  {
    assert lines[..i + 1][..i] == lines[..i];
    if lines[i].ToolCompleted? {
      PendingIsDue(lines, i, lines[i].id);
    }
  }

  /** Resume refuses a log exactly when some line of it cannot follow those before it: an empty message of
      the model, a result nobody is waiting for, or a compaction of messages that are not there. */
  lemma {:induction false} RefusedExactly(lines: seq<Line>)
    ensures Read(NOTHING_READ, lines).None? <==>
      exists i :: 0 <= i < |lines| && Breaks(lines, i)
  {
    if i :| 0 <= i < |lines| && Breaks(lines, i) {
      RefusedAtLine(lines, i);
      ReadStopsAtError(NOTHING_READ, lines, i + 1);
    }
    if Read(NOTHING_READ, lines).None? {
      var i := FirstRefused(lines);
      RefusedAtLine(lines, i);
      assert Breaks(lines, i);
    }
  }

  lemma {:induction false} FirstRefused(lines: seq<Line>) returns (i: nat)
    requires Read(NOTHING_READ, lines).None?
    ensures i < |lines| && Read(NOTHING_READ, lines[..i]).Some? && Read(NOTHING_READ, lines[..i + 1]).None?
  {
    var n := |lines| - 1;
    if Read(NOTHING_READ, lines[..n]).Some? {
      i := n;
      assert lines[..n + 1] == lines;
    } else {
      i := FirstRefused(lines[..n]);
      assert lines[..n][..i] == lines[..i] && lines[..n][..i + 1] == lines[..i + 1];
    }
  }

  // ---------------------------------------------------------- what is logged

  /** A change is not logged exactly when it is neither a text joining a user message, nor a user message
      of texts alone or of results alone, nor a message of the model without results. */
  lemma UnloggedExactly(r: Record)
    ensures var content := r.message.content;
      Encode(r).None? <==>
        if r.kind == Merge then !(r.message.role == User && exists text :: content == [Text(text)])
        else if r.message.role == Assistant then exists i :: 0 <= i < |content| && content[i].Answer?
        else
          && (exists i :: 0 <= i < |content| && !content[i].Text?)
          && (exists i :: 0 <= i < |content| && !content[i].Answer?)
  {
    var content := r.message.content;
    assert |content| == 1 && content[0].Text? ==> content == [Text(content[0].text)];
    assert forall i :: 0 <= i < |content| ==> content[i] in content;
  }
}
