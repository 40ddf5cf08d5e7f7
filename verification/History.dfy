/** The Q&A history an agent keeps between turns (internal/agent/history.go). */
module History {
  import opened Wrappers
  import opened Schema
  import opened Sequences

  const UNANSWERED_PREFIX := "Earlier question, which ended without an answer: "

  /** One user question and the assistant's answer to it, as the history records them. */
  datatype Recorded =
    | Greeting(instruction: string, answer: string, reasoning: Option<Reasoning>)
      /** tasks are the questions folded into one: the earlier unanswered ones, then the answered one. */
    | Answer(tasks: seq<string>, answer: string, reasoning: Option<Reasoning>)

  /** The user message the tasks are folded into. */
  function Question(tasks: seq<string>): string
    requires tasks != []
  {
    Fold(UNANSWERED_PREFIX, tasks)
  }

  function Fold(prefix: string, tasks: seq<string>): string
    requires tasks != []
  {
    if |tasks| == 1 then tasks[0] else prefix + tasks[0] + "\n\n" + Fold(prefix, tasks[1..])
  }

  /** withUnanswered */
  method WithUnanswered(unanswered: seq<string>, task: string) returns (question: string)
    ensures question == Question(unanswered + [task])
  {
    if |unanswered| == 0 {
      assert unanswered + [task] == [task];
      return task;
    }
    question := "";
    assert unanswered[0..] == unanswered;
    for i := 0 to |unanswered|
      invariant question + Question(unanswered[i..] + [task]) == Question(unanswered + [task])
    {
      var rest := unanswered[i..] + [task];
      assert rest[1..] == unanswered[i + 1..] + [task];
      assert question + (UNANSWERED_PREFIX + rest[0] + "\n\n" + Question(rest[1..])) ==
             question + (UNANSWERED_PREFIX + rest[0] + "\n\n") + Question(rest[1..]);
      question := question + (UNANSWERED_PREFIX + unanswered[i] + "\n\n");
    }
    assert unanswered[|unanswered|..] + [task] == [task];
    question := question + task;
  }

  /** historyAnswer: the text, and the aggregate reasoning text without its details. */
  function HistoryAnswer(answer: string, reasoning: Option<Reasoning>): Message {
    var m := AssistantText(answer);
    if reasoning.Some? && reasoning.value.text.Some? then
      m.(content := [ReasoningBlock(Reasoning(reasoning.value.text, ""))] + m.content)
    else m
  }

  function Render(r: Recorded): seq<Message>
    requires r.Answer? ==> r.tasks != []
  {
    [UserMessage(if r.Greeting? then r.instruction else Question(r.tasks)), HistoryAnswer(r.answer, r.reasoning)]
  }

  predicate Complete(rs: seq<Recorded>) { forall r <- rs :: r.Answer? ==> r.tasks != [] }

  function RenderAll(rs: seq<Recorded>): seq<Message>
    requires Complete(rs)
  {
    if rs == [] then [] else RenderAll(rs[..|rs| - 1]) + Render(rs[|rs| - 1])
  }

  function TasksOf(rs: seq<Recorded>): seq<string> {
    if rs == [] then []
    else TasksOf(rs[..|rs| - 1]) + (if rs[|rs| - 1].Answer? then rs[|rs| - 1].tasks else [])
  }

  /** The record that answered task k. */
  function RecordOf(rs: seq<Recorded>, k: nat): (j: nat)
    requires k < |TasksOf(rs)|
    ensures j < |rs| && rs[j].Answer? && TasksOf(rs)[k] in rs[j].tasks
  {
    var n := |rs| - 1;
    if k < |TasksOf(rs[..n])| then RecordOf(rs[..n], k) else n
  }

  lemma {:induction false} RenderedLength(rs: seq<Recorded>)
    requires Complete(rs)
    ensures |RenderAll(rs)| == 2 * |rs|
  {
    if rs != [] {
      RenderedLength(rs[..|rs| - 1]);
    }
  }

  lemma {:induction false} RenderedAt(rs: seq<Recorded>, j: nat)
    requires Complete(rs) && j < |rs|
    ensures |RenderAll(rs)| == 2 * |rs| && RenderAll(rs)[2 * j] == Render(rs[j])[0]
  {
    hide Question;
    var n := |rs| - 1;
    var front := rs[..n];
    RenderedLength(rs);
    RenderedLength(front);
    assert RenderAll(rs) == RenderAll(front) + Render(rs[n]);
    hide RenderAll, Render;
    if j < n {
      RenderedAt(front, j);
      assert front[j] == rs[j];
    }
  }

  /** Every task a record answered is in the history, word for word, in the user message of its record. */
  lemma TaskInHistory(rs: seq<Recorded>, k: nat) returns (before: string, after: string)
    requires Complete(rs) && k < |TasksOf(rs)|
    ensures var j := RecordOf(rs, k);
            2 * j < |RenderAll(rs)| && RenderAll(rs)[2 * j] == UserMessage(before + TasksOf(rs)[k] + after)
  {
    var j := RecordOf(rs, k);
    var i :| 0 <= i < |rs[j].tasks| && rs[j].tasks[i] == TasksOf(rs)[k];
    before, after := QuestionHolds(UNANSWERED_PREFIX, rs[j].tasks, i);
    RenderedAt(rs, j);
    hide RenderAll, TasksOf, Fold;
  }

  /** The tasks are in the history in the order they were asked. */
  lemma {:induction false} TasksInOrder(rs: seq<Recorded>, k: nat, l: nat)
    requires k <= l < |TasksOf(rs)|
    ensures RecordOf(rs, k) <= RecordOf(rs, l)
  {
    var n := |rs| - 1;
    if l < |TasksOf(rs[..n])| {
      TasksInOrder(rs[..n], k, l);
    }
  }

  lemma RecordedSnoc(rs: seq<Recorded>, r: Recorded)
    requires Complete(rs) && (r.Answer? ==> r.tasks != [])
    ensures Complete(rs + [r])
    ensures RenderAll(rs + [r]) == RenderAll(rs) + Render(r)
    ensures TasksOf(rs + [r]) == TasksOf(rs) + (if r.Answer? then r.tasks else [])
  {
    assert (rs + [r])[..|rs|] == rs;
  }

  /** A user message and an assistant message by turns, and none of them calls a tool. */
  predicate Alternating(h: seq<Message>) {
    h == [] ||
    (|h| >= 2 && PlainPair(h[|h| - 2], h[|h| - 1]) && Alternating(h[..|h| - 2]))
  }

  predicate PlainPair(question: Message, answer: Message) {
    question.role == User && answer.role == Assistant && question.ToolCalls() == [] && answer.ToolCalls() == []
  }

  lemma RenderAlternates(r: Recorded)
    requires r.Answer? ==> r.tasks != []
    ensures |Render(r)| == 2 && PlainPair(Render(r)[0], Render(r)[1])
  {
    PlainCalls(Render(r)[0].content);
    PlainCalls(Render(r)[1].content);
  }

  /** The history strictly alternates, whatever was recorded. */
  lemma {:induction false} HistoryAlternates(rs: seq<Recorded>)
    requires Complete(rs)
    ensures Alternating(RenderAll(rs))
  {
    hide Render, PlainPair;
    if rs != [] {
      var front, r := RenderAll(rs[..|rs| - 1]), rs[|rs| - 1];
      HistoryAlternates(rs[..|rs| - 1]);
      RenderAlternates(r);
      assert (front + Render(r))[..|front|] == front;
    }
  }

  lemma {:induction false} AlternatingPlain(h: seq<Message>)
    requires Alternating(h)
    ensures forall m <- h :: m.ToolCalls() == []
  {
    hide CallsOf;
    if h != [] {
      var n := |h| - 2;
      AlternatingPlain(h[..n]);
      forall m <- h
        ensures m.ToolCalls() == []
      {
        var k :| 0 <= k < |h| && h[k] == m;
        assert k < n ==> h[..n][k] == m;
      }
    }
  }

  lemma {:induction false} PlainCalls(bs: seq<Block>)
    requires forall b <- bs :: !b.CallBlock?
    ensures CallsOf(bs) == []
  {
    if bs != [] {
      PlainCalls(bs[1..]);
    }
  }

  /** Every question folded into a message is in it word for word. */
  lemma {:induction false} QuestionHolds(prefix: string, tasks: seq<string>, i: nat)
    returns (before: string, after: string)
    requires i < |tasks|
    ensures Fold(prefix, tasks) == before + tasks[i] + after
  {
    if |tasks| == 1 {
      before, after := "", "";
      assert "" + tasks[0] + "" == tasks[0];
    } else if i == 0 {
      before, after := prefix, "\n\n" + Fold(prefix, tasks[1..]);
      Regroup(prefix + tasks[0], "\n\n", Fold(prefix, tasks[1..]));
    } else {
      var head := prefix + tasks[0] + "\n\n";
      before, after := QuestionHolds(prefix, tasks[1..], i - 1);
      Regroup(head, before + tasks[i], after);
      Regroup(head, before, tasks[i]);
      before := head + before;
    }
  }
}
