/**
  The agent (internal/agent/loop.go, failure_summary.go, task.go, agent.go). Model replies,
  tool outcomes, audit writes and the moments the halt flags rise are arbitrary: each is an
  assignment of any value at all, so what is proved holds for all of them.
 */
module AgentLoop {
  import opened Wrappers
  import opened Schema
  import opened LoopSpec
  import opened AuditTrace
  import opened HaltSources
  import opened History
  import opened Sequences

  /** What dispatch needs to know of a registered tool. */
  datatype ToolKind = IOTool | TodosTool | TaskTool | VerifyTool

  function HaltStop(h: Halt): Stop
    requires h != NoHalt
  {
    if h == HaltInterrupt then Interrupted else BudgetSpent
  }

  const NO_NESTED_PANEL := "Sub-agents cannot verify findings."
  const PANEL_INTERRUPTED := "Verification interrupted."
  const NO_NESTED_TASK := "Sub-agents cannot themselves delegate with task."
  const BAD_TASK := "Provide a non-empty 'description' for the sub-agent task."
  const TRUNCATED_MARKER := "\n\n[truncated]"

  /** How Run reports a run's stop: recovered with a notice, or passed on. */
  datatype RunError = ErrInterrupted | ErrNoAnswer(cause: Stop) | Propagated(cause: Stop)

  function Classified(s: Stop): RunError {
    if s.Interrupted? then ErrInterrupted
    else if s.BudgetSpent? || SubagentStop(s) then ErrNoAnswer(s)
    else Propagated(s)
  }

  /** The calls of a round that were answered, as others see them. */
  function Made(calls: seq<ToolCall>, done: seq<Dispatched>): seq<Act> {
    if done == [] then []
    else
      var n := |done| - 1;
      Made(calls, done[..n]) +
      [Called(if n < |calls| then calls[n].name else "", done[n].result, done[n].outcome)]
  }

  lemma MadeJoin(before: seq<Act>, calls: seq<ToolCall>, done: seq<Dispatched>, d: Dispatched)
    requires |done| < |calls|
    ensures before + Made(calls, done) + [Called(calls[|done|].name, d.result, d.outcome)] ==
            before + Made(calls, done + [d])
  {
    assert (done + [d])[..|done|] == done;
    Regroup(before, Made(calls, done), [Called(calls[|done|].name, d.result, d.outcome)]);
  }

  lemma MadeNone(before: seq<Act>, calls: seq<ToolCall>)
    ensures before + Made(calls, []) == before
  {
  }

  /** One request and the calls made from its reply. */
  function RoundActs(r: Round): seq<Act> {
    [Asked(Exchange(r.sent, r.reply))] + Made(r.Calls(), r.done)
  }

  function LogActs(log: Log): seq<Act> {
    if log.Empty? then [] else LogActs(log.front) + RoundActs(log.last)
  }

  /** All a run asks and calls, the summary's request last. */
  function RunActs(passed: Log, last: Option<Round>, summary: Option<Exchange>): seq<Act> {
    LogActs(passed) + ((if last.Some? then RoundActs(last.value) else []) +
                       (if summary.Some? then [Asked(summary.value)] else []))
  }

  lemma ActsJoin(before: seq<Act>, passed: Log, last: Option<Round>, summary: Option<Exchange>)
    ensures before + LogActs(passed) + RunActs(Empty, last, summary) == before + RunActs(passed, last, summary)
  {
    var tail := (if last.Some? then RoundActs(last.value) else []) +
                (if summary.Some? then [Asked(summary.value)] else []);
    hide RoundActs;
    assert RunActs(Empty, last, summary) == tail;
    Regroup(before, LogActs(passed), tail);
  }

  lemma NoActs(before: seq<Act>)
    ensures before + RunActs(Empty, None, None) == before
  {
  }

  lemma RoundJoin(before: seq<Act>, r: Round, summary: Option<Exchange>)
    ensures before + [Asked(Exchange(r.sent, r.reply))] + Made(r.Calls(), r.done) +
            (if summary.Some? then [Asked(summary.value)] else []) == before + RunActs(Empty, Some(r), summary)
  {
    var asked, made := [Asked(Exchange(r.sent, r.reply))], Made(r.Calls(), r.done);
    var tail := if summary.Some? then [Asked(summary.value)] else [];
    assert RunActs(Empty, Some(r), summary) == (asked + made) + tail;
    Regroup(before, asked, made);
    Regroup(before, asked + made, tail);
  }

  lemma LogJoin(before: seq<Act>, passed: Log, r: Round)
    ensures before + LogActs(passed) + RunActs(Empty, Some(r), None) == before + LogActs(Snoc(passed, r))
  {
    assert LogActs(Snoc(passed, r)) == LogActs(passed) + RoundActs(r);
    assert RunActs(Empty, Some(r), None) == RoundActs(r);
    hide LogActs, RoundActs, RunActs;
    Regroup(before, LogActs(passed), RoundActs(r));
  }

  lemma NothingLogged(before: seq<Act>)
    ensures before + LogActs(Empty) == before
  {
  }

  lemma NothingMade(r: Round)
    requires r.done == []
    ensures Made(r.Calls(), r.done) == []
  {
  }

  /** The model response a run's answer was taken from. */
  function AnswerSource(last: Round, summary: Option<Exchange>): Generation
    requires if summary.Some? then summary.value.reply.Got? else last.reply.Got?
  {
    if summary.Some? then summary.value.reply.gen else last.reply.gen
  }

  class RunState {
    const depth: nat
    var consecutiveFailures: nat
    var consecutiveEmpty: nat
    var consecutiveTruncated: nat
    var answerTruncated: bool
    var answerReasoning: Option<Reasoning>
    var hostAnswer: bool

    constructor (depth: nat)
      ensures this.depth == depth && Fresh()
    {
      this.depth := depth;
      consecutiveFailures, consecutiveEmpty, consecutiveTruncated := 0, 0, 0;
      answerTruncated, answerReasoning, hostAnswer := false, None, false;
    }

    ghost predicate Fresh()
      reads this
    {
      Count() == Counters(0, 0) && consecutiveFailures == 0 && Unanswered()
    }

    ghost predicate Unanswered()
      reads this
    {
      !answerTruncated && answerReasoning == None && !hostAnswer
    }

    ghost function Count(): Counters
      reads this
    {
      Counters(consecutiveEmpty, consecutiveTruncated)
    }
  }

  class Agent {
    const systemPrompt: string
    const maxIter: nat
    const maxSubagentIter: nat
    /** 0 disables the failure halt. */
    const maxConsecutiveFailures: nat
    const tools: map<string, ToolKind>
    /** The sub-agent task a task call's arguments hold, and whether a verify call's hold findings to verify. */
    const parseTask: string -> Option<string>
    const wantsPanel: string -> bool
    /** Without a sink an audit call never fails. */
    const auditing: bool
    const halts: State
    const meter: Accumulator
    /** The Q&A history: user questions and final answers. */
    var history: seq<Message>
    /** The tasks the host had to answer itself; the next question takes them along. */
    var unanswered: seq<string>
    ghost var trace: seq<Event>
    /** What the history records, and every task whose Run returned without an error, in order. */
    ghost var records: seq<Recorded>
    ghost var asked: seq<string>

    constructor (systemPrompt: string, maxIter: nat, maxSubagentIter: nat, maxConsecutiveFailures: nat,
                 tools: map<string, ToolKind>, parseTask: string -> Option<string>, wantsPanel: string -> bool,
                 auditing: bool, halts: State, meter: Accumulator)
      ensures Idle() && HistoryValid() && asked == []
      ensures this.halts == halts && this.meter == meter
    {
      this.systemPrompt, this.maxIter, this.maxSubagentIter := systemPrompt, maxIter, maxSubagentIter;
      this.maxConsecutiveFailures, this.tools, this.auditing := maxConsecutiveFailures, tools, auditing;
      this.parseTask, this.wantsPanel := parseTask, wantsPanel;
      this.halts, this.meter := halts, meter;
      history, unanswered := [], [];
      trace, records, asked := [], [], [];
    }

    // ---- The event trace ----------------------------------------------------

    ghost function Mon(): Monitor
      reads this`trace
    {
      Scan(trace)
    }

    /** No interrupt and no spent budget. */
    ghost predicate Clear()
      reads halts, meter
    {
      !halts.tripped && !meter.Spent()
    }

    /** The trace is accepted so far, with a check before all work, and a halt some check saw is still raised. */
    ghost predicate Sound()
      reads this`trace, halts, meter
    {
      Mon().Running? && Attentive(trace) && (Mon().mode.Halted? ==> !Clear())
    }

    /** Between two turns: no call is open, unless an audit write failed. */
    ghost predicate Idle()
      reads this`trace
    {
      Mon().Running? && Attentive(trace) && (Mon().mode.Dead? || Mon().open == [])
    }

    /** A run at depth may do its next step. */
    ghost predicate Ready(depth: nat)
      reads this`trace, halts, meter
    {
      Sound() && Mon().mode.Live? && |Mon().open| == depth <= MAX_TASK_DEPTH && Inside(Mon().open)
    }

    /** The flags are sticky and the trace only grows. */
    twostate predicate Onward()
      reads this`trace, halts, meter
    {
      && (old(halts.tripped) ==> halts.tripped)
      && (old(meter.Spent()) ==> meter.Spent())
      && old(trace) <= trace && Turns(trace) == old(Turns(trace))
    }

    /** No run at depth, and none of its parents, asked the model or answered a call. */
    twostate predicate Quiet(depth: nat)
      reads this`trace
    {
      forall k: nat :: k <= depth ==> Acts(trace, k) == old(Acts(trace, k))
    }

    ghost method Emit(e: Event)
      requires Attentive(trace) && (Begins(e) ==> JustChecked(trace))
      modifies this`trace
      ensures Attentive(trace)
      ensures trace == old(trace) + [e]
      ensures Mon() == Step(old(Mon()), e)
      ensures Turns(trace) == old(Turns(trace)) + if e.TurnBegan? then 1 else 0
      ensures forall k: nat :: Acts(trace, k) ==
                               (if IsAct(e, k) then old(Acts(trace, k)) + [ActOf(e)] else old(Acts(trace, k)))
    {
      ScanSnoc(trace, e);
      AttentiveSnoc(trace, e);
      TurnsSnoc(trace, e);
      forall k: nat {
        ActsSnoc(trace, e, k);
      }
      trace := trace + [e];
    }

    /**
      The stop a run tells, with the flags as they then are: the interrupt outranks everything but an
      audit failure, a done context outranks the budget, and the budget outranks the rest.
     */
    ghost predicate Told(s: Stop)
      reads halts, meter
    {
      s.AuditFailed? ||
      ((s.Interrupted? <==> halts.tripped) &&
       (s.BudgetSpent? ==> meter.Spent()) &&
       (meter.Spent() ==> IsHalt(s) || s.ContextDone?))
    }

    // ---- The environment ----------------------------------------------------

    /** Time passes: the operator may interrupt, another model call may be billed. */
    method Elapse()
      modifies halts, meter
      ensures old(halts.tripped) ==> halts.tripped
      ensures old(meter.Spent()) ==> meter.Spent()
    {
      if * {
        var _ := halts.Trip();
      }
      if * {
        var u: Usage := *;
        meter.AddUsage(u);
      }
    }

    /** One model call. Its usage is billed before it returns. */
    method Generate(depth: nat, verifying: bool, sent: seq<Message>) returns (reply: Reply)
      requires Sound() && Mon().mode.Live? && Inside(Mon().open) && depth <= MAX_TASK_DEPTH && JustChecked(trace)
      requires |Mon().open| == if verifying then depth + 1 else depth
      modifies this`trace, halts, meter
      ensures Sound() && Onward() && Mon() == old(Mon())
      ensures trace == old(trace) + [Generated(depth, verifying, Exchange(sent, reply))]
      ensures forall k: nat :: Acts(trace, k) ==
                               (if !verifying && depth == k then old(Acts(trace, k)) + [Asked(Exchange(sent, reply))]
                                else old(Acts(trace, k)))
    {
      hide Attentive, Scan, Turns, Acts;
      reply := *;
      var u: Usage := *;
      meter.AddUsage(u);
      Elapse();
      Emit(Generated(depth, verifying, Exchange(sent, reply)));
    }

    /** One audit record; without a sink it always succeeds. */
    method Audited() returns (logged: bool)
      ensures !auditing ==> logged
    {
      logged := true;
      if auditing {
        logged := *;
      }
    }

    // ---- Halt checks --------------------------------------------------------

    /** haltErr: the interrupt first, then the budget. */
    method HaltErr() returns (h: Halt)
      requires Sound() && !Mon().mode.Dead?
      modifies this`trace, halts, meter
      ensures Sound() && Onward()
      ensures Mon() == Running(old(Mon().open), if h == NoHalt then Live else Halted)
      ensures old(Mon().mode.Halted?) ==> h != NoHalt
      ensures forall k: nat :: Acts(trace, k) == old(Acts(trace, k))
      ensures h == if halts.tripped then HaltInterrupt else if meter.Spent() then HaltBudget else NoHalt
      ensures trace == old(trace) + [Checked(h)]
    {
      hide Attentive, Scan, Turns, Acts;
      Elapse();
      var spent := meter.BudgetExceeded();
      h := NoHalt;
      if halts.tripped {
        h := HaltInterrupt;
      } else if spent {
        h := HaltBudget;
      }
      Emit(Checked(h));
    }

    /** A look at the interrupt alone. */
    method CheckInterrupt() returns (stopped: bool)
      requires Sound() && !Mon().mode.Dead?
      modifies this`trace, halts, meter
      ensures Sound() && Onward()
      ensures Mon() == if stopped then Running(old(Mon().open), Halted) else old(Mon())
      ensures forall k: nat :: Acts(trace, k) == old(Acts(trace, k))
      ensures stopped == halts.tripped
      ensures trace == old(trace) + if stopped then [Checked(HaltInterrupt)] else []
      ensures !stopped ==> trace == old(trace)
    {
      hide Attentive, Scan, Turns, Acts;
      Elapse();
      stopped := halts.tripped;
      if stopped {
        Emit(Checked(HaltInterrupt));
      }
    }

    /** haltOr: a pending halt in preference to the fallback. */
    method HaltOr(fallback: Stop) returns (s: Stop)
      requires Sound() && Mon().mode.Live?
      requires !IsHalt(fallback)
      modifies this`trace, halts, meter
      ensures Sound() && Onward()
      ensures forall k: nat :: Acts(trace, k) == old(Acts(trace, k))
      ensures Mon() == Running(old(Mon().open), if IsHalt(s) then Halted else Live)
      ensures s == if halts.tripped then Interrupted else if meter.Spent() then BudgetSpent else fallback
    {
      hide Attentive, Scan, Turns, Acts;
      var h := HaltErr();
      s := if h == NoHalt then fallback else HaltStop(h);
    }

    // ---- One assistant turn -------------------------------------------------

    /** refuseTruncatedCalls: none of the calls run; the prose stays, without them. */
    method RefuseTruncatedCalls(turn: seq<Message>, msg: Message, rs: RunState)
      returns (next: seq<Message>, err: Option<Stop>)
      requires Sound() && Mon().mode.Live?
      modifies this`trace, halts, meter, rs
      ensures Sound() && Onward() && Quiet(rs.depth)
      ensures Mon() == Running(old(Mon().open), if err.Some? && IsHalt(err.value) then Halted else Live)
      ensures rs.Count() == Counters(old(rs.consecutiveEmpty), old(rs.consecutiveTruncated) + 1)
      ensures rs.consecutiveFailures == old(rs.consecutiveFailures)
      ensures old(rs.Unanswered()) ==> rs.Unanswered()
      ensures err.None? <==> rs.consecutiveTruncated < MAX_CONSECUTIVE_TRUNCATED
      ensures err.None? ==> next == turn + Projection(msg) + [UserMessage(TRUNCATED_CALLS_DIRECTIVE)]
      ensures err.Some? ==> Told(err.value) && (IsHalt(err.value) || err.value == OutputLimit)
    {
      hide Attentive, Scan, Turns, Acts;
      rs.consecutiveTruncated := rs.consecutiveTruncated + 1;
      next := turn;
      var text := msg.Text();
      if !Blank(text) {
        var projected := AssistantText(text);
        var r := msg.Thinking();
        if r.Some? {
          projected := projected.(content := [ReasoningBlock(r.value)] + projected.content);
        }
        next := next + [projected];
      }
      assert [] + AssistantText(text).content == AssistantText(text).content;
      assert next == turn + Projection(msg);
      if rs.consecutiveTruncated >= MAX_CONSECUTIVE_TRUNCATED {
        var s := HaltOr(OutputLimit);
        return next, Some(s);
      }
      return next + [UserMessage(TRUNCATED_CALLS_DIRECTIVE)], None;
    }

    /** handleBlankTurn: a futile stop ends the run; any other blank turn is retried, within bounds. */
    method HandleBlankTurn(turn: seq<Message>, gen: Generation, rs: RunState)
      returns (next: seq<Message>, err: Option<Stop>)
      requires Sound() && Mon().mode.Live?
      requires BlankTurn(gen.message)
      modifies this`trace, halts, meter, rs
      ensures Sound() && Onward() && Quiet(rs.depth)
      ensures Mon() == Running(old(Mon().open), if err.Some? && IsHalt(err.value) then Halted else Live)
      ensures rs.Count() == LoopSpec.Count(old(rs.Count()), Classify(gen))
      ensures rs.consecutiveFailures == old(rs.consecutiveFailures)
      ensures old(rs.Unanswered()) ==> rs.Unanswered()
      ensures err.None? <==> Classify(gen).RetryBlank? && rs.consecutiveEmpty < MAX_CONSECUTIVE_EMPTY
      ensures err.None? ==> next == turn + [UserMessage(EMPTY_TURN_DIRECTIVE)]
      ensures err.Some? ==> Told(err.value) &&
                            (IsHalt(err.value) ||
                             err.value == if Classify(gen).Futile? then Classify(gen).why else EmptyResponses)
    {
      hide Attentive, Scan, Turns, Acts;
      next := turn;
      var s: Stop;
      match gen.stop {
        case StopLength =>
          s := HaltOr(OutputLimit);
          return turn, Some(s);
        case StopContentFilter =>
          s := HaltOr(ContentFiltered);
          return turn, Some(s);
        case StopOther =>
          s := HaltOr(StoppedEarly(gen.raw));
          return turn, Some(s);
        case _ =>
      }
      rs.consecutiveEmpty := rs.consecutiveEmpty + 1;
      if rs.consecutiveEmpty >= MAX_CONSECUTIVE_EMPTY {
        s := HaltOr(EmptyResponses);
        return turn, Some(s);
      }
      return turn + [UserMessage(EMPTY_TURN_DIRECTIVE)], None;
    }

    /** acceptTurn: what kind of turn this is settles which calls it has, what is appended and what is counted. */
    method AcceptTurn(turn: seq<Message>, gen: Generation, rs: RunState)
      returns (next: seq<Message>, calls: seq<ToolCall>, answer: string, done: bool, err: Option<Stop>)
      requires Sound() && Mon().mode.Live?
      requires rs.Unanswered()
      modifies this`trace, halts, meter, rs
      ensures Sound() && Onward() && Quiet(rs.depth)
      ensures Mon() == Running(old(Mon().open), if err.Some? && IsHalt(err.value) then Halted else Live)
      ensures rs.Count() == LoopSpec.Count(old(rs.Count()), Classify(gen))
      ensures rs.consecutiveFailures == old(rs.consecutiveFailures) && !rs.hostAnswer
      ensures !done ==> rs.Unanswered()
      ensures calls == Round([], Got(gen), []).Calls()
      ensures calls != [] ==> trace == old(trace)
      ensures done ==> Clear()
      ensures err.None? ==> next == turn + Delta(Round(turn, Got(gen), []))
      ensures done ==> && err.None? && gen.message.Some? && answer == gen.message.value.Text()
                       && rs.answerTruncated == (gen.stop == StopLength)
                       && rs.answerReasoning == gen.message.value.Thinking()
      ensures TurnVerdict(Classify(gen), rs.Count(), done, err)
      ensures err.Some? ==> Told(err.value)
    {
      hide Attentive, Scan, Turns, Acts;
      next, calls, answer, done, err := turn, [], "", false, None;
      if BlankTurn(gen.message) {
        next, err := HandleBlankTurn(turn, gen, rs);
        return;
      }
      var msg := gen.message.value;
      rs.consecutiveEmpty := 0;
      calls := msg.ToolCalls();
      if |calls| > 0 && gen.stop == StopLength {
        calls := [];
        next, err := RefuseTruncatedCalls(turn, msg, rs);
        return;
      }
      rs.consecutiveTruncated := 0;
      next := turn + [msg];
      if |calls| > 0 {
        return;
      }
      var h := HaltErr();
      if h != NoHalt {
        err := Some(HaltStop(h));
        return;
      }
      if gen.stop == StopLength {
        rs.answerTruncated := true;
      }
      rs.answerReasoning := msg.Thinking();
      answer, done := msg.Text(), true;
    }

    // ---- The failure summary ------------------------------------------------

    /** completePendingToolResults */
    method CompletePendingToolResults(turn: seq<Message>) returns (full: seq<Message>)
      ensures full == CompletePending(turn)
    {
      hide CallsOf;
      var answered: set<string> := {};
      for i := 0 to |turn|
        invariant answered == AllResultIds(turn[..i])
      {
        answered := answered + turn[i].ResultIds();
        assert turn[..i + 1] == turn[..i] + [turn[i]];
      }
      assert turn[..|turn|] == turn;
      full := turn;
      assert turn[0..] == turn;
      for i := 0 to |turn|
        invariant full + Synthetic(AllCalls(turn[i..]), answered) == CompletePending(turn)
      {
        var calls := turn[i].ToolCalls();
        assert turn[i..][1..] == turn[i + 1..];
        ghost var rest := AllCalls(turn[i + 1..]);
        assert calls[0..] == calls;
        for j := 0 to |calls|
          invariant full + Synthetic(calls[j..] + rest, answered) == CompletePending(turn)
        {
          assert (calls[j..] + rest)[0] == calls[j] && (calls[j..] + rest)[1..] == calls[j + 1..] + rest;
          if calls[j].id in answered {
            continue;
          }
          full := full + [ToolMessage(SYNTHETIC_HALT_RESULT, calls[j].id)];
          answered := answered + {calls[j].id};
        }
        assert calls[|calls|..] + rest == rest;
      }
    }

    /** An answer the summary turn gave: the model's text, or the host's notice when there is none. */
    static ghost predicate SummaryAnswer(rs: RunState, answer: string, reply: Reply)
      reads rs
    {
      && SummaryText(answer, rs.hostAnswer, reply)
      && (!rs.hostAnswer ==>
            && rs.answerTruncated == (reply.gen.stop == StopLength)
            && rs.answerReasoning == reply.gen.message.value.Thinking())
    }

    /** failureSummary, after its Generate: the interrupt, then the context, then the budget, then the answer. */
    method JudgeSummary(rs: RunState, reply: Reply, cancelled: bool) returns (answer: string, err: Option<Stop>)
      requires Ready(rs.depth) && rs.Unanswered()
      modifies this`trace, halts, meter, rs
      ensures Sound() && Onward()
      ensures Mon() == Running(old(Mon().open), if err.Some? && IsHalt(err.value) then Halted else Live)
      ensures forall k: nat :: Acts(trace, k) == old(Acts(trace, k))
      ensures rs.Count() == old(rs.Count()) && rs.consecutiveFailures == old(rs.consecutiveFailures)
      ensures err.None? ==> SummaryAnswer(rs, answer, reply)
      ensures err.Some? ==> !rs.hostAnswer && (IsHalt(err.value) || err.value == ContextDone)
      ensures err == Some(Interrupted) <==> halts.tripped
      ensures err == Some(ContextDone) <==> !halts.tripped && cancelled
      ensures err == Some(BudgetSpent) <==> !halts.tripped && !cancelled && meter.Spent()
    {
      hide Attentive, Scan, Turns, Acts;
      answer, err := "", None;
      var stopped := CheckInterrupt();
      if stopped {
        err := Some(Interrupted);
        return;
      }
      if cancelled {
        err := Some(ContextDone);
        return;
      }
      var spent := meter.BudgetExceeded();
      if spent {
        Emit(Checked(HaltBudget));
        err := Some(BudgetSpent);
        return;
      }
      if reply.Failed? {
        rs.hostAnswer := true;
        answer := DETERMINISTIC_FAILURE_NOTICE;
        return;
      }
      var msg := reply.gen.message;
      if msg.None? || Blank(msg.value.Text()) {
        rs.hostAnswer := true;
        answer := DETERMINISTIC_FAILURE_NOTICE;
        return;
      }
      var h := HaltErr();
      if h != NoHalt {
        err := Some(HaltStop(h));
        return;
      }
      if reply.gen.stop == StopLength {
        rs.answerTruncated := true;
      }
      rs.answerReasoning := msg.value.Thinking();
      answer := msg.value.Text();
    }

    method FailureSummary(rs: RunState, turn: seq<Message>)
      returns (answer: string, err: Option<Stop>, ghost summary: Option<Exchange>)
      requires Ready(rs.depth) && rs.Unanswered() && JustChecked(trace)
      modifies this`trace, halts, meter, rs
      ensures Sound() && Onward()
      ensures Mon() == Running(old(Mon().open), if err.Some? && IsHalt(err.value) then Halted else Live)
      ensures forall k: nat :: Acts(trace, k) ==
                               (if k == rs.depth && summary.Some? then old(Acts(trace, k)) + [Asked(summary.value)]
                                else old(Acts(trace, k)))
      ensures rs.Count() == old(rs.Count()) && rs.consecutiveFailures == old(rs.consecutiveFailures)
      ensures summary.Some? ==> summary.value.sent == Summary(turn)
      ensures err.None? ==> summary.Some? && SummaryAnswer(rs, answer, summary.value.reply)
      ensures err.Some? ==> !rs.hostAnswer && (IsHalt(err.value) || (err.value == ContextDone && summary.Some?))
      ensures err == Some(Interrupted) <==> halts.tripped
      ensures err == Some(BudgetSpent) ==> meter.Spent() && summary.Some?
      ensures err.None? ==> Clear()
      ensures summary.None? ==> err == Some(Interrupted)
    {
      hide Attentive, Scan, Turns, Acts;
      answer, err, summary := "", None, None;
      var stopped := CheckInterrupt();
      if stopped {
        err := Some(Interrupted);
        return;
      }
      var full := CompletePendingToolResults(turn);
      full := full + [UserMessage(STOP_SUMMARY_DIRECTIVE)];
      var reply := Generate(rs.depth, false, full);
      summary := Some(Exchange(full, reply));
      var cancelled: bool := *;
      answer, err := JudgeSummary(rs, reply, cancelled);
    }

    // ---- One tool call ------------------------------------------------------

    /** The innermost call of the run at depth is open; waiting says its tool has not run yet. */
    ghost predicate Calling(depth: nat, tool: string, waiting: bool)
      reads this`trace, halts, meter
    {
      && Sound() && depth <= MAX_TASK_DEPTH && |Mon().open| == depth + 1 && Mon().mode.Live?
      && var c := Mon().open[depth];
         c.tool == tool && c.known == (tool in tools) && c.started == !waiting && c.reply.None? && c.sub.None?
    }

    /** What a tool's run leaves of the open calls: all of them, unless an audit write failed. */
    twostate predicate CallsKept(depth: nat)
      requires old(Mon().Running?) && |old(Mon().open)| == depth + 1
      reads this`trace
    {
      && Mon().Running?
      && (!Mon().mode.Dead? ==>
            && |Mon().open| == depth + 1
            && Mon().open[..depth] == old(Mon().open)[..depth]
            && Mon().open[depth].callId == old(Mon().open)[depth].callId
            && Mon().open[depth].tool == old(Mon().open)[depth].tool)
    }

    /**
      invokeIO: no run once an interrupt is seen. A call that made progress credits no failure; another one
      credits all its failures, and at least one for a denial or an error.
     */
    method InvokeIO(depth: nat, tc: ToolCall)
      returns (ret: string, oc: CallOutcome, fatal: bool, ghost ran: Option<ToolReply>)
      requires Calling(depth, tc.name, true) && tc.name in tools
      modifies this`trace, halts, meter
      ensures Sound() && Onward() && Quiet(depth) && CallsKept(depth)
      ensures fatal <==> Mon().mode.Dead?
      ensures trace == old(trace) + if ran.None? then [Checked(HaltInterrupt)] else [Ran(tc.name, ran)]
      ensures fatal <==> ran == Some(AuditFatal)
      ensures !fatal ==> Reports(Mon().open[depth], Mon().mode, ret, oc)
      ensures old(halts.tripped) ==> ran.None?
      ensures ran.None? ==> ret == DENIED_INTERRUPT_RESULT
      ensures ran.None? || ran.value.GoError? ==> Credit(oc) == 1
      ensures ran.Some? && ran.value.Output? ==>
                && (Credit(oc) == 0 <==> ran.value.progress > 0 || (ran.value.failures == 0 && !ran.value.denied))
                && (Credit(oc) > 0 ==> Credit(oc) == if ran.value.failures > 0 then ran.value.failures else 1)
    {
      hide Attentive, Scan, Turns, Acts;
      ret, oc, fatal, ran := DENIED_INTERRUPT_RESULT, CALL_FAILED, false, None;
      var stopped := CheckInterrupt();
      if stopped {
        return;
      }
      assert trace == old(trace) + [] == old(trace);
      var reply: ToolReply := *;
      Elapse();
      ran := Some(reply);
      Emit(Ran(tc.name, Some(reply)));
      match reply {
        case AuditFatal =>
          fatal := true;
        case GoError(text) =>
          ret := text;
        case Output(text, denied, failures, progress) =>
          ret := text;
          oc := CallOutcome(!denied && failures == 0, failures, progress);
      }
    }

    /** The events of one verification pass: a check, and a model call unless it saw a halt. */
    static ghost predicate IsPass(depth: nat, es: seq<Event>) {
      && es != [] && es[0].Checked?
      && if es[0].halt == NoHalt then |es| == 2 && es[1].Generated? && es[1].verifying && es[1].depth == depth
         else |es| == 1
    }

    /** One batched verification pass: skipped once a halt is seen, one tool-less model call otherwise. */
    method VerificationPass(depth: nat, tool: string) returns (ghost es: seq<Event>)
      requires Sound() && !Mon().mode.Dead? && depth <= MAX_TASK_DEPTH && |Mon().open| == depth + 1
      requires Mon().open[depth].tool == tool && Mon().open[depth].started
      modifies this`trace, halts, meter
      ensures Sound() && Onward() && Quiet(depth)
      ensures !Mon().mode.Dead? && Mon().open == old(Mon().open)
      ensures trace == old(trace) + es && IsPass(depth, es)
    {
      hide Attentive, Scan, Turns, Acts;
      var h := HaltErr();
      es := [Checked(h)];
      if h == NoHalt {
        var sent: seq<Message> := *;
        var reply := Generate(depth, true, sent);
        ghost var asked := Generated(depth, true, Exchange(sent, reply));
        Regroup(old(trace), es, [asked]);
        es := es + [asked];
      }
    }

    /** verifyFindingsTool.runScoped: two passes, in the top-level run only. */
    method RunVerify(depth: nat, tc: ToolCall)
      returns (text: string, ghost first: seq<Event>, ghost second: seq<Event>)
      requires Calling(depth, tc.name, false)
      modifies this`trace, halts, meter
      ensures Sound() && Onward() && Quiet(depth)
      ensures !Mon().mode.Dead? && Mon().open == old(Mon().open)
      ensures depth > 0 ==> text == NO_NESTED_PANEL
      ensures depth > 0 || !wantsPanel(tc.arguments) ==> trace == old(trace)
      ensures depth == 0 && wantsPanel(tc.arguments) ==>
                && IsPass(depth, first) && IsPass(depth, second)
                && trace == old(trace) + first + second + (if halts.tripped then [Checked(HaltInterrupt)] else [])
                && (halts.tripped ==> text == PANEL_INTERRUPTED)
    {
      hide Attentive, Scan, Turns, Acts, IsPass;
      text, first, second := NO_NESTED_PANEL, [], [];
      if depth > 0 {
        return;
      }
      text := *;
      if !wantsPanel(tc.arguments) {
        return;
      }
      first := VerificationPass(depth, tc.name);
      second := VerificationPass(depth, tc.name);
      var stopped := CheckInterrupt();
      if stopped {
        text := PANEL_INTERRUPTED;
      }
    }

    /** A task call of a run at depth starts a sub-run. */
    predicate Delegates(depth: nat, arguments: string) {
      depth < MAX_TASK_DEPTH && parseTask(arguments).Some? && parseTask(arguments).value != ""
    }

    /** The transcript a sub-agent starts from. */
    ghost function SubSeed(description: string): seq<Message> {
      [SystemMessage(systemPrompt), UserMessage(description)]
    }

    /** taskTool.runScoped: the nested run, one level deep at most, on a transcript of its own. */
    method RunTask(rs: RunState, tc: ToolCall)
      returns (text: string, err: Option<Stop>, ghost sub: Option<RunEnd>, ghost passed: Log, ghost last: Option<Round>,
               ghost summary: Option<Exchange>, ghost host: bool)
      requires Calling(rs.depth, tc.name, false)
      modifies this`trace, halts, meter
      ensures Sound() && Onward() && Quiet(rs.depth)
      ensures sub.Some? <==> Delegates(rs.depth, tc.arguments)
      ensures sub.None? ==> err.None? && trace == old(trace)
      ensures sub.None? ==> text == if rs.depth >= MAX_TASK_DEPTH then NO_NESTED_TASK else BAD_TASK
      ensures sub.Some? ==>
                && Concludes(maxConsecutiveFailures, maxSubagentIter, SubSeed(parseTask(tc.arguments).value),
                             passed, last, summary, sub.value, host)
                && Acts(trace, rs.depth + 1) == old(Acts(trace, rs.depth + 1)) + RunActs(passed, last, summary)
                && (sub.value.Answered? ==> text == sub.value.text || text == sub.value.text + TRUNCATED_MARKER)
      ensures err == if SubFailed(sub) then Some(sub.value.stop) else None
      ensures err == Some(AuditFailed) <==> Mon().mode.Dead?
      ensures !Mon().mode.Dead? ==>
                Mon().open == old(Mon().open)[rs.depth := old(Mon().open)[rs.depth].(sub := sub)]
      ensures Mon().mode.Halted? <==> err.Some? && IsHalt(err.value)
      decreases MAX_TASK_DEPTH + 1 - rs.depth, 0
    {
      hide Attentive, Scan, Turns, Acts, Concludes, RunActs, FromModel, Told;
      text, err, sub, passed, last, summary, host := NO_NESTED_TASK, None, None, Empty, None, None, false;
      if rs.depth >= MAX_TASK_DEPTH {
        return;
      }
      text := BAD_TASK;
      var description := parseTask(tc.arguments);
      if description.None? || description.value == "" {
        return;
      }
      var seed := [SystemMessage(systemPrompt), UserMessage(description.value)];
      var state := new RunState(rs.depth + 1);
      var end;
      end, passed, last, summary := RunLoop(state, seed, maxSubagentIter);
      sub, host := Some(end), state.hostAnswer;
      if end != Ended(AuditFailed) {
        Emit(Returned(rs.depth + 1, end));
      }
      match end {
        case Answered(answer) =>
          text := if state.answerTruncated then answer + TRUNCATED_MARKER else answer;
        case Ended(s) =>
          if SubagentStop(s) {
            text := *;
          } else {
            err := Some(s);
          }
      }
    }

    /** invokeScoped: a Go error becomes a result that credits one failure, unless it is an audit failure. */
    method InvokeScoped(rs: RunState, kind: ToolKind, tc: ToolCall)
      returns (ret: string, oc: CallOutcome, fatal: bool, ghost sub: Option<RunEnd>)
      requires Calling(rs.depth, tc.name, true) && tc.name in tools
      modifies this`trace, halts, meter
      ensures Sound() && Onward() && Quiet(rs.depth) && CallsKept(rs.depth)
      ensures fatal <==> Mon().mode.Dead?
      ensures !fatal ==> Mon().open[rs.depth].started && Reports(Mon().open[rs.depth], Mon().mode, ret, oc)
      ensures !fatal ==> Mon().open[rs.depth].sub == sub && Credit(oc) == if SubFailed(sub) then 1 else 0
      ensures !kind.TaskTool? ==> !fatal && sub.None?
      ensures kind.TaskTool? ==> (sub.Some? <==> Delegates(rs.depth, tc.arguments))
      ensures |trace| > |old(trace)| && trace[|old(trace)|] == Ran(tc.name, None)
      decreases MAX_TASK_DEPTH + 1 - rs.depth, 1
    {
      hide Attentive, Scan, Turns, Acts, Concludes;
      ret, oc, fatal, sub := "", CALL_OK, false, None;
      Emit(Ran(tc.name, None));
      match kind {
        case TaskTool =>
          var text, err;
          ghost var passed, last, summary, host;
          text, err, sub, passed, last, summary, host := RunTask(rs, tc);
          ret := text;
          if err.Some? {
            fatal := err.value.AuditFailed?;
            ret := *;
            oc := CALL_FAILED;
          }
        case VerifyTool =>
          ghost var first, second;
          ret, first, second := RunVerify(rs.depth, tc);
        case _ =>
          ret := *;
          Elapse();
      }
    }

    /** invoke: an unknown tool runs nothing and fails; a registered one runs unless a halt is seen first. */
    method Invoke(rs: RunState, tc: ToolCall) returns (ret: string, oc: CallOutcome, fatal: bool)
      requires Calling(rs.depth, tc.name, true)
      modifies this`trace, halts, meter
      ensures Sound() && Onward() && Quiet(rs.depth) && CallsKept(rs.depth)
      ensures fatal <==> Mon().mode.Dead?
      ensures tc.name !in tools ==> !fatal && trace == old(trace) && Credit(oc) == 1
      ensures old(halts.tripped) && tc.name in tools && tools[tc.name].IOTool? ==>
                && !fatal && trace == old(trace) + [Checked(HaltInterrupt)]
                && ret == DENIED_INTERRUPT_RESULT && Credit(oc) == 1
      ensures !fatal ==> Reports(Mon().open[rs.depth], Mon().mode, ret, oc)
      decreases MAX_TASK_DEPTH + 1 - rs.depth, 2
    {
      hide Attentive, Scan, Turns, Acts;
      if tc.name !in tools {
        return UNKNOWN_TOOL_RESULT, CALL_FAILED, false;
      }
      var kind := tools[tc.name];
      if kind.IOTool? {
        ghost var ran;
        ret, oc, fatal, ran := InvokeIO(rs.depth, tc);
      } else {
        ghost var sub;
        ret, oc, fatal, sub := InvokeScoped(rs, kind, tc);
      }
    }

    /**
      dispatch: the attempt record, the tool, the result record; an audit failure anywhere is fatal. The
      trace is accepted, so the tool of a registered call ran once between the two, or a halt was seen.
     */
    method Dispatch(rs: RunState, tc: ToolCall)
      returns (ret: string, failures: nat, fatal: bool, ghost outcome: CallOutcome)
      requires Ready(rs.depth) && JustChecked(trace)
      modifies this`trace, halts, meter
      ensures Sound() && Onward()
      ensures rs.depth > 0 ==> Quiet(rs.depth - 1)
      ensures Acts(trace, rs.depth) ==
              old(Acts(trace, rs.depth)) + if fatal then [] else [Called(tc.name, ret, outcome)]
      ensures fatal <==> Mon().mode.Dead?
      ensures !fatal ==> Mon().open == old(Mon().open) && failures == Credit(outcome)
      ensures tc.name !in tools && !fatal ==> failures == 1
      ensures old(halts.tripped) && tc.name in tools && tools[tc.name].IOTool? && !fatal ==>
                ret == DENIED_INTERRUPT_RESULT && failures == 1
      ensures |trace| > |old(trace)| && trace[|old(trace)|].Attempted?
      ensures var a := trace[|old(trace)|]; a.depth == rs.depth && a.tool == tc.name && a.known == (tc.name in tools)
      ensures !fatal ==>
                trace[|trace| - 1] ==
                Recorded(rs.depth, trace[|old(trace)|].callId, tc.name, ret, outcome, true)
      decreases MAX_TASK_DEPTH + 1 - rs.depth, 3
    {
      hide Attentive, Scan, Turns, Acts, Reports;
      ret, failures, fatal, outcome := "", 0, true, CALL_OK;
      var callId: string := *;
      var logged := Audited();
      Emit(Attempted(rs.depth, callId, tc.name, tc.name in tools, logged));
      if !logged {
        return;
      }
      var text, oc, broke := Invoke(rs, tc);
      if broke {
        return;
      }
      logged := Audited();
      Emit(Recorded(rs.depth, callId, tc.name, text, oc, logged));
      if !logged {
        return;
      }
      ret, failures, fatal, outcome := text, Credit(oc), false, oc;
    }

    /** dispatchAndTrack: a non-empty halt answer ends the run. */
    method DispatchAndTrack(rs: RunState, tc: ToolCall, turn: seq<Message>)
      returns (next: seq<Message>, halt: string, err: Option<Stop>,
               ghost d: Dispatched, ghost summary: Option<Exchange>)
      requires Ready(rs.depth) && rs.Unanswered() && JustChecked(trace)
      modifies this`trace, halts, meter, rs
      ensures Sound() && Onward()
      ensures rs.depth > 0 ==> Quiet(rs.depth - 1)
      ensures Acts(trace, rs.depth) ==
              old(Acts(trace, rs.depth)) +
              (if Mon().mode.Dead? then [] else [Called(tc.name, d.result, d.outcome)]) +
              (if summary.Some? then [Asked(summary.value)] else [])
      ensures rs.Count() == old(rs.Count())
      ensures err == Some(AuditFailed) <==> Mon().mode.Dead?
      ensures Mon().mode.Halted? <==> err.Some? && IsHalt(err.value)
      ensures err.Some? ==> Told(err.value)
      ensures Mon().mode.Dead? ==> summary.None?
      ensures !Mon().mode.Dead? ==>
                && Mon().open == old(Mon().open)
                && next == turn + [ToolMessage(d.result, tc.id)] && d.id == tc.id
                && rs.consecutiveFailures ==
                   (if Credit(d.outcome) > 0 then old(rs.consecutiveFailures) + Credit(d.outcome) else 0)
      ensures summary.Some? ==> Exhausted(maxConsecutiveFailures, rs.consecutiveFailures)
                                && summary.value.sent == Summary(next)
      ensures err.None? ==> (halt != "" <==> Exhausted(maxConsecutiveFailures, rs.consecutiveFailures))
      ensures err.None? && halt != "" ==> summary.Some? && SummaryAnswer(rs, halt, summary.value.reply)
      ensures err.None? && halt == "" ==> rs.Unanswered() && summary.None? && JustChecked(trace)
      ensures err.None? ==> Clear() && old(Clear())
      ensures err.Some? ==> halt == "" && !rs.hostAnswer &&
                            (IsHalt(err.value) || err.value.AuditFailed? || (err.value.ContextDone? && summary.Some?))
      decreases MAX_TASK_DEPTH + 1 - rs.depth, 4
    {
      hide Attentive, Scan, Turns, Step, Acts, Credit, Summary;
      next, halt, err, d, summary := turn, "", None, Dispatched(tc.id, "", CallOutcome(true, 0, 0)), None;
      var ret, failures, fatal;
      ghost var outcome;
      ret, failures, fatal, outcome := Dispatch(rs, tc);
      if fatal {
        err := Some(AuditFailed);
        return;
      }
      d := Dispatched(tc.id, ret, outcome);
      next := turn + [ToolMessage(ret, tc.id)];
      if failures > 0 {
        rs.consecutiveFailures := rs.consecutiveFailures + failures;
      } else {
        rs.consecutiveFailures := 0;
      }
      var h := HaltErr();
      if h != NoHalt {
        err := Some(HaltStop(h));
        return;
      }
      if Exhausted(maxConsecutiveFailures, rs.consecutiveFailures) {
        halt, err, summary := FailureSummary(rs, next);
        if err.Some? {
          halt := "";
        }
      }
    }

    /** The dispatch loop of one turn; before is the credit of the run's earlier dispatches. */
    method DispatchCalls(rs: RunState, calls: seq<ToolCall>, turn: seq<Message>, ghost before: seq<nat>)
      returns (next: seq<Message>, halt: string, err: Option<Stop>,
               ghost done: seq<Dispatched>, ghost summary: Option<Exchange>)
      requires Ready(rs.depth) && rs.Unanswered() && (calls != [] ==> JustChecked(trace))
      requires rs.consecutiveFailures == Streak(before)
      modifies this`trace, halts, meter, rs
      ensures Sound() && Onward()
      ensures rs.depth > 0 ==> Quiet(rs.depth - 1)
      ensures Acts(trace, rs.depth) ==
              old(Acts(trace, rs.depth)) + Made(calls, done) + (if summary.Some? then [Asked(summary.value)] else [])
      ensures err.Some? ==> Told(err.value)
      ensures !old(Clear()) && calls != [] ==> err.Some? && |done| <= 1
      ensures rs.Count() == old(rs.Count())
      ensures err == Some(AuditFailed) <==> Mon().mode.Dead?
      ensures Mon().mode.Halted? <==> err.Some? && IsHalt(err.value)
      ensures !Mon().mode.Dead? ==> Mon().open == old(Mon().open)
      ensures DispatchVerdict(maxConsecutiveFailures, before, calls, turn, next, rs.consecutiveFailures, done,
                              halt, err, summary)
      ensures halt == "" ==> !rs.hostAnswer && (err.None? ==> rs.Unanswered() && summary.None?)
      ensures halt != "" ==> err.None? && summary.Some? && SummaryAnswer(rs, halt, summary.value.reply) && Clear()
      decreases MAX_TASK_DEPTH + 1 - rs.depth, 5
    {
      hide Attentive, Scan, Turns, Step, Acts, Summary, Made, Told, SummaryAnswer, Clear, JustChecked, Streak,
           Dispatching, DispatchVerdict, Credit, Exhausted;
      MadeNone(old(Acts(trace, rs.depth)), calls);
      next, halt, err, done, summary := turn, "", None, [], None;
      DispatchStart(maxConsecutiveFailures, before, calls, turn);
      for i := 0 to |calls|
        invariant i == |done|
        invariant Dispatching(maxConsecutiveFailures, before, calls, turn, next, rs.consecutiveFailures, done)
        invariant Ready(rs.depth) && Onward() && Mon() == old(Mon())
        invariant i < |calls| ==> JustChecked(trace)
        invariant (Clear() ==> old(Clear())) && (i > 0 ==> Clear())
        invariant rs.depth > 0 ==> Quiet(rs.depth - 1)
        invariant Acts(trace, rs.depth) == old(Acts(trace, rs.depth)) + Made(calls, done)
        invariant rs.Count() == old(rs.Count()) && rs.Unanswered()
        invariant err.None? && halt == "" && summary.None?
      {
        ghost var sent, failures := next, rs.consecutiveFailures;
        DispatchFails(maxConsecutiveFailures, before, calls, turn, next, failures, done);
        ghost var d;
        next, halt, err, d, summary := DispatchAndTrack(rs, calls[i], next);
        if err == Some(AuditFailed) {
          return;
        }
        DispatchStep(maxConsecutiveFailures, before, calls, turn, sent, failures, done, d, next, rs.consecutiveFailures,
                     halt, err, summary);
        MadeJoin(old(Acts(trace, rs.depth)), calls, done, d);
        done := done + [d];
        if err.Some? || halt != "" {
          return;
        }
      }
      DispatchEnds(maxConsecutiveFailures, before, calls, turn, next, rs.consecutiveFailures, done);
    }

    /** What a run may rely on between two rounds. */
    ghost predicate Between(rs: RunState, seed: seq<Message>, passed: Log, turn: seq<Message>)
      reads this`trace, halts, meter, rs
    {
      && Ready(rs.depth) && rs.Unanswered()
      && Progress(maxConsecutiveFailures, seed, passed, turn, rs.Count(), rs.consecutiveFailures)
    }

    /** The answer is the text of the model response it was taken from, as the run state says. */
    static ghost predicate FromModel(rs: RunState, text: string, last: Option<Round>, summary: Option<Exchange>)
      reads rs
    {
      && last.Some? && last.value.reply.Got? && (summary.Some? ==> summary.value.reply.Got?)
      && var gen := AnswerSource(last.value, summary);
         gen.message.Some? && text == gen.message.value.Text() && !Blank(text) &&
         rs.answerTruncated == (gen.stop == StopLength) && rs.answerReasoning == gen.message.value.Thinking()
    }

    /** The rest of an iteration once the reply is in: accept the turn and dispatch its calls. */
    method TakeTurn(rs: RunState, turn: seq<Message>, gen: Generation, maxIter: nat,
                    ghost seed: seq<Message>, ghost passed: Log)
      returns (next: seq<Message>, end: Option<RunEnd>, ghost done: seq<Dispatched>, ghost summary: Option<Exchange>)
      requires Between(rs, seed, passed, turn) && passed.Length() < maxIter && JustChecked(trace)
      modifies this`trace, halts, meter, rs
      ensures Sound() && Onward()
      ensures rs.depth > 0 ==> Quiet(rs.depth - 1)
      ensures end == Some(Ended(AuditFailed)) <==> Mon().mode.Dead?
      ensures Mon().mode.Halted? <==> end.Some? && end.value.Ended? && IsHalt(end.value.stop)
      ensures end.Some? && end.value.Answered? ==> Clear()
      ensures !Mon().mode.Dead? ==> Mon().open == old(Mon().open)
      ensures Acts(trace, rs.depth) ==
              old(Acts(trace, rs.depth)) + Made(Round(turn, Got(gen), done).Calls(), done) +
              (if summary.Some? then [Asked(summary.value)] else [])
      ensures end.Some? && end.value.Ended? ==> Told(end.value.stop)
      ensures end.Some? ==> Concludes(maxConsecutiveFailures, maxIter, seed, passed,
                                      Some(Round(turn, Got(gen), done)), summary, end.value, rs.hostAnswer)
      ensures end.Some? && end.value.Answered? && !rs.hostAnswer ==>
                FromModel(rs, end.value.text, Some(Round(turn, Got(gen), done)), summary)
      ensures end.None? ==> summary.None? && Between(rs, seed, Snoc(passed, Round(turn, Got(gen), done)), next)
      decreases MAX_TASK_DEPTH + 1 - rs.depth, 6
    {
      hide Attentive, Scan, Turns, Step, Acts, Classify, KindOf, Delta, Deltas, Passed, CountersOf, AllCredits,
           Concludes, DispatchVerdict, TurnVerdict, Streak;
      end, done, summary := None, [], None;
      ghost var counters, failures := rs.Count(), rs.consecutiveFailures;
      var calls, answer, answered, err;
      next, calls, answer, answered, err := AcceptTurn(turn, gen, rs);
      if answered || err.Some? {
        ConcludeTurn(maxConsecutiveFailures, maxIter, seed, passed, turn, counters, failures, gen, answered, err);
        end := Some(if err.Some? then Ended(err.value) else Answered(answer));
        return;
      }
      var halt;
      next, halt, err, done, summary := DispatchCalls(rs, calls, next, AllCredits(passed));
      if err.Some? || halt != "" {
        ConcludeDispatch(maxConsecutiveFailures, maxIter, seed, passed, turn, counters, failures, gen, next,
                         rs.consecutiveFailures, done, halt, err, summary, rs.hostAnswer);
        end := Some(if err.Some? then Ended(err.value) else Answered(halt));
      } else {
        ContinueDispatch(maxConsecutiveFailures, seed, passed, turn, counters, failures, gen, next,
                         rs.consecutiveFailures, done);
      }
    }

    /** One iteration of the loop; end is absent when the run goes on. */
    method RunRound(rs: RunState, turn: seq<Message>, maxIter: nat, ghost seed: seq<Message>, ghost passed: Log)
      returns (next: seq<Message>, end: Option<RunEnd>, ghost round: Option<Round>, ghost summary: Option<Exchange>)
      requires Between(rs, seed, passed, turn) && passed.Length() < maxIter
      modifies this`trace, halts, meter, rs
      ensures Sound() && Onward()
      ensures rs.depth > 0 ==> Quiet(rs.depth - 1)
      ensures end == Some(Ended(AuditFailed)) <==> Mon().mode.Dead?
      ensures Mon().mode.Halted? <==> end.Some? && end.value.Ended? && IsHalt(end.value.stop)
      ensures !Mon().mode.Dead? ==> Mon().open == old(Mon().open)
      ensures Acts(trace, rs.depth) == old(Acts(trace, rs.depth)) + RunActs(Empty, round, summary)
      ensures end.Some? && end.value.Ended? ==> Told(end.value.stop)
      ensures end.Some? && end.value.Answered? ==> Clear()
      ensures !old(Clear()) ==> end.Some? && round.None?
      ensures end.Some? ==> Concludes(maxConsecutiveFailures, maxIter, seed, passed, round, summary, end.value,
                                      rs.hostAnswer)
      ensures end.Some? && end.value.Answered? && !rs.hostAnswer ==> FromModel(rs, end.value.text, round, summary)
      ensures end.None? ==> round.Some?
      ensures end.None? ==> summary.None? && Between(rs, seed, Snoc(passed, round.value), next)
      decreases MAX_TASK_DEPTH + 1 - rs.depth, 7
    {
      hide Attentive, Scan, Turns, Step, Acts, Classify, KindOf, Delta, Deltas, Passed, CountersOf, AllCredits,
           Concludes, Progress, Streak, RunActs, Made;
      next, end, round, summary := turn, None, None, None;
      NoActs(old(Acts(trace, rs.depth)));
      var h := HaltErr();
      if h != NoHalt {
        ConcludeBetween(maxConsecutiveFailures, maxIter, seed, passed, turn, rs.Count(), rs.consecutiveFailures,
                        HaltStop(h));
        end := Some(Ended(HaltStop(h)));
        return;
      }
      var reply := Generate(rs.depth, false, turn);
      round := Some(Round(turn, reply, []));
      NothingMade(round.value);
      RoundJoin(old(Acts(trace, rs.depth)), round.value, None);
      h := HaltErr();
      if h != NoHalt || reply.Failed? {
        var s := if h != NoHalt then HaltStop(h) else ModelFailed;
        ConcludeReply(maxConsecutiveFailures, maxIter, seed, passed, turn, rs.Count(), rs.consecutiveFailures,
                      reply, s);
        end := Some(Ended(s));
        return;
      }
      ghost var done;
      next, end, done, summary := TakeTurn(rs, turn, reply.gen, maxIter, seed, passed);
      round := Some(Round(turn, reply, done));
      RoundJoin(old(Acts(trace, rs.depth)), round.value, summary);
    }

    method RunLoop(rs: RunState, seed: seq<Message>, maxIter: nat)
      returns (end: RunEnd, ghost passed: Log, ghost last: Option<Round>, ghost summary: Option<Exchange>)
      requires Ready(rs.depth) && rs.Fresh()
      modifies this`trace, halts, meter, rs
      ensures Sound() && Onward()
      ensures rs.depth > 0 ==> Quiet(rs.depth - 1)
      ensures end == Ended(AuditFailed) <==> Mon().mode.Dead?
      ensures Mon().mode.Halted? <==> end.Ended? && IsHalt(end.stop)
      ensures !Mon().mode.Dead? ==> Mon().open == old(Mon().open)
      ensures Acts(trace, rs.depth) == old(Acts(trace, rs.depth)) + RunActs(passed, last, summary)
      ensures end.Ended? ==> Told(end.stop)
      ensures end.Answered? ==> Clear()
      ensures !old(Clear()) ==> end.Ended? && passed.Empty? && last.None?
      ensures Concludes(maxConsecutiveFailures, maxIter, seed, passed, last, summary, end, rs.hostAnswer)
      ensures end.Answered? && !rs.hostAnswer ==> FromModel(rs, end.text, last, summary)
      decreases MAX_TASK_DEPTH + 1 - rs.depth, 8
    {
      hide Attentive, Scan, Turns, Step, Acts, Classify, KindOf, Delta, Deltas, Passed, CountersOf, AllCredits,
           Concludes, Progress, Streak, RunActs, LogActs;
      passed, last, summary := Empty, None, None;
      var turn := seed;
      ProgressStart(maxConsecutiveFailures, seed);
      NothingLogged(old(Acts(trace, rs.depth)));
      for iter := 0 to maxIter
        invariant iter == passed.Length()
        invariant Between(rs, seed, passed, turn) && Onward() && Mon() == old(Mon())
        invariant rs.depth > 0 ==> Quiet(rs.depth - 1)
        invariant Acts(trace, rs.depth) == old(Acts(trace, rs.depth)) + LogActs(passed)
        invariant last.None? && summary.None? && (!old(Clear()) ==> passed.Empty?)
      {
        var next, stopped;
        next, stopped, last, summary := RunRound(rs, turn, maxIter, seed, passed);
        if stopped.Some? {
          ActsJoin(old(Acts(trace, rs.depth)), passed, last, summary);
          end := stopped.value;
          return;
        }
        LogJoin(old(Acts(trace, rs.depth)), passed, last.value);
        turn, passed, last := next, Snoc(passed, last.value), None;
      }
      ActsJoin(old(Acts(trace, rs.depth)), passed, None, None);
      NoActs(old(Acts(trace, rs.depth)) + LogActs(passed));
      var s := HaltOr(IterationLimit);
      ConcludeBetween(maxConsecutiveFailures, maxIter, seed, passed, turn, rs.Count(), rs.consecutiveFailures, s);
      end := Ended(s);
    }

    // ---- The session --------------------------------------------------------

    /** The recorded answer is, word for word, one the model gave in the top-level run. */
    ghost predicate ModelGave(r: Recorded)
      reads this`trace
    {
      exists a <- Acts(trace, 0) :: Gave(a, r)
    }

    /**
      The history is the records, rendered; every task that ended without an error is in them
      or pending, once and in order; and every answer came from the model.
     */
    ghost predicate HistoryValid()
      reads this
    {
      && Complete(records)
      && history == RenderAll(records)
      && asked == TasksOf(records) + unanswered
      && forall r <- records :: r.Answer? ==> ModelGave(r)
    }

    /** Welcome, once its model call answered: the exchange is recorded as it came. */
    method RecordWelcome(instruction: string, answer: string, reasoning: Option<Reasoning>)
      requires HistoryValid()
      modifies this`history, this`records
      ensures HistoryValid()
      ensures answer == "" ==> history == old(history)
      ensures answer != "" ==> history == old(history) + Render(Greeting(instruction, answer, reasoning))
    {
      hide Acts, RenderAll, TasksOf, Question;
      if answer != "" {
        RecordedSnoc(records, Greeting(instruction, answer, reasoning));
        history := history + [UserMessage(instruction), HistoryAnswer(answer, reasoning)];
        records := records + [Greeting(instruction, answer, reasoning)];
      }
    }

    /** The end of an answered turn: a host-written notice leaves its task pending. */
    method Settle(task: string, question: string, answer: string, reasoning: Option<Reasoning>, hostAnswer: bool)
      requires HistoryValid() && question == Question(unanswered + [task])
      requires !hostAnswer ==> ModelGave(Answer(unanswered + [task], answer, reasoning))
      modifies this`history, this`unanswered, this`records, this`asked
      ensures HistoryValid() && asked == old(asked) + [task]
      ensures hostAnswer ==> history == old(history) && unanswered == old(unanswered) + [task]
      ensures !hostAnswer ==> && history == old(history) + [UserMessage(question), HistoryAnswer(answer, reasoning)]
                              && unanswered == []
    {
      hide Acts, RenderAll, TasksOf, Question;
      asked := asked + [task];
      if hostAnswer {
        assert TasksOf(records) + unanswered + [task] == TasksOf(records) + (unanswered + [task]);
        unanswered := unanswered + [task];
      } else {
        ghost var r := Answer(unanswered + [task], answer, reasoning);
        RecordedSnoc(records, r);
        assert TasksOf(records) + unanswered + [task] == TasksOf(records) + (unanswered + [task]) + [];
        history := history + [UserMessage(question), HistoryAnswer(answer, reasoning)];
        unanswered := [];
        records := records + [r];
      }
    }

    /** The model call a recorded answer came from. */
    static predicate Gave(a: Act, r: Recorded) {
      && a.Asked? && a.exchange.reply.Got?
      && var m := a.exchange.reply.gen.message;
         m.Some? && m.value.Text() == r.answer && !Blank(r.answer) && m.value.Thinking() == r.reasoning
    }

    twostate lemma StillGiven(r: Recorded)
      requires old(ModelGave(r)) && old(Acts(trace, 0)) <= Acts(trace, 0)
      ensures ModelGave(r)
    {
      hide Acts, Gave;
      var a :| a in old(Acts(trace, 0)) && Gave(a, r);
      assert a in Acts(trace, 0);
    }

    lemma AnswerGiven(rs: RunState, before: seq<Act>, passed: Log, last: Option<Round>, summary: Option<Exchange>,
                      text: string, tasks: seq<string>)
      requires FromModel(rs, text, last, summary)
      requires Acts(trace, 0) == before + RunActs(passed, last, summary)
      ensures ModelGave(Answer(tasks, text, rs.answerReasoning))
    {
      hide Acts, TextOf, ThinkingOf, LogActs;
      var a := Asked(if summary.Some? then summary.value else Exchange(last.value.sent, last.value.reply));
      var tail := RoundActs(last.value) + (if summary.Some? then [Asked(summary.value)] else []);
      assert RoundActs(last.value)[0] in RoundActs(last.value);
      assert a in tail;
      assert a in RunActs(passed, last, summary);
      assert Gave(a, Answer(tasks, text, rs.answerReasoning));
    }

    /** The calls of the turn that began after the trace before all have their results. */
    lemma CallsClosed(before: seq<Event>)
      requires Idle() && !Mon().mode.Dead? && before + [TurnBegan] <= trace
      requires Turns(trace) == Turns(before + [TurnBegan])
      ensures forall i :: |before| <= i < |trace| && trace[i].Attempted? ==> ClosedIn(trace, i)
    {
      hide Attentive, ClosedIn, Scan;
      var n := |before| + 1;
      assert trace[..n] == before + [TurnBegan];
      NoNewTurn(trace, n);
      assert trace[|before|] == TurnBegan;
      forall i | |before| <= i < |trace| && trace[i].Attempted?
        ensures ClosedIn(trace, i)
      {
        TurnPaired(trace, n, i);
      }
    }

    /** Run: one research turn. Only a run without an error changes the history or the pending tasks. */
    method Run(task: string)
      returns (err: Option<RunError>, ghost seed: seq<Message>, ghost passed: Log, ghost last: Option<Round>,
               ghost summary: Option<Exchange>, ghost end: RunEnd, ghost host: bool)
      requires Idle() && HistoryValid()
      modifies this, halts, meter
      ensures Idle() && HistoryValid() && !halts.inTurn && old(trace) <= trace
      ensures end == Ended(AuditFailed) <==> Mon().mode.Dead?
      ensures end != Ended(AuditFailed) ==>
                forall i :: |old(trace)| <= i < |trace| && trace[i].Attempted? ==> ClosedIn(trace, i)
      ensures err.Some? ==> history == old(history) && unanswered == old(unanswered) && asked == old(asked)
      ensures err.None? ==> asked == old(asked) + [task]
      ensures err.None? ==> if host then history == old(history) && unanswered == old(unanswered) + [task]
                            else && |history| == |old(history)| + 2 && old(history) <= history && unanswered == []
                                 && history[|old(history)|] == UserMessage(Question(old(unanswered) + [task]))
      ensures seed == [SystemMessage(systemPrompt)] + old(history) + [UserMessage(Question(old(unanswered) + [task]))]
      ensures Concludes(maxConsecutiveFailures, maxIter, seed, passed, last, summary, end, host)
      ensures Acts(trace, 0) == old(Acts(trace, 0)) + RunActs(passed, last, summary)
      ensures end.Ended? ==> Told(end.stop)
      ensures end.Answered? ==> Clear()
      ensures err == if end.Answered? then None else Some(Classified(end.stop))
    {
      hide Attentive, Scan, Turns, Acts, Classify, KindOf, Deltas, Delta, Passed, Concludes, RenderAll, TasksOf,
           Question, RunActs, FromModel;
      ghost var before := trace;
      halts.BeginTurn();
      Emit(TurnBegan);
      var rs := new RunState(0);
      var question := WithUnanswered(unanswered, task);
      var start := [SystemMessage(systemPrompt)] + history + [UserMessage(question)];
      var ended;
      ended, passed, last, summary := RunLoop(rs, start, maxIter);
      seed, end, host := start, ended, rs.hostAnswer;
      halts.EndTurn();
      if end != Ended(AuditFailed) {
        CallsClosed(before);
      }
      forall r | r in records && r.Answer?
        ensures ModelGave(r)
      {
        StillGiven(r);
      }
      match ended {
        case Ended(stop) =>
          err := Some(Classified(stop));
        case Answered(answer) =>
          err := None;
          if !rs.hostAnswer {
            AnswerGiven(rs, old(Acts(trace, 0)), passed, last, summary, answer, unanswered + [task]);
          }
          Settle(task, question, answer, rs.answerReasoning, rs.hostAnswer);
      }
    }
  }
}
