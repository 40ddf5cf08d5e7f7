/**
  What one run of the tool-calling loop (internal/agent/loop.go) may do, stated over
  the log of its rounds: one round per Generate call, holding the transcript that was
  sent, the reply and the tool calls dispatched from it. The imperative loop in
  AgentLoop is proved to produce such a log; the theorems here hold of every log.
 */
module LoopSpec {
  import opened Wrappers
  import opened Schema
  import opened Sequences

  const MAX_CONSECUTIVE_EMPTY: nat := 3
  const MAX_CONSECUTIVE_TRUNCATED: nat := 3

  const EMPTY_TURN_DIRECTIVE := "Your response was empty."
  const TRUNCATED_CALLS_DIRECTIVE := "Your response was cut off."
  const STOP_SUMMARY_DIRECTIVE := "You have stopped: do not call any more tools."
  const SYNTHETIC_HALT_RESULT := "Tool not run: the turn halted after repeated tool failures."
  const DETERMINISTIC_FAILURE_NOTICE := "I stopped after repeated tool failures and could not summarize the cause."

  /** Why a run ended without an answer. */
  datatype Stop =
    | Interrupted | BudgetSpent
    | IterationLimit | EmptyResponses | OutputLimit | ContentFiltered | StoppedEarly(raw: string)
    | ModelFailed | ContextDone | AuditFailed

  predicate IsHalt(s: Stop) { s.Interrupted? || s.BudgetSpent? }

  /** A sub-run's stops that its parent sees as a notice; the others propagate. */
  predicate SubagentStop(s: Stop) {
    s.IterationLimit? || s.EmptyResponses? || s.OutputLimit? || s.ContentFiltered? || s.StoppedEarly?
  }

  // ---- One turn -------------------------------------------------------------

  /** What the loop makes of one reply. */
  datatype Kind = RetryBlank | Futile(why: Stop) | CutOff | Working | Final

  function Classify(g: Generation): Kind {
    if BlankTurn(g.message) then
      match g.stop
      case StopLength => Futile(OutputLimit)
      case StopContentFilter => Futile(ContentFiltered)
      case StopOther => Futile(StoppedEarly(g.raw))
      case _ => RetryBlank
    else if g.message.value.ToolCalls() == [] then Final
    else if g.stop == StopLength then CutOff
    else Working
  }

  /** A turn the loop answers with a directive instead of using it. */
  predicate Refused(k: Kind) { k.RetryBlank? || k.CutOff? }

  datatype CallOutcome = CallOutcome(ok: bool, failures: nat, progress: nat)

  function Credit(oc: CallOutcome): nat {
    if oc.progress > 0 then 0 else if oc.failures > 0 then oc.failures else if oc.ok then 0 else 1
  }

  /** What an I/O tool comes back with. */
  datatype ToolReply =
    | AuditFatal
    | GoError(text: string)
    | Output(text: string, denied: bool, failures: nat, progress: nat)

  const CALL_OK := CallOutcome(true, 0, 0)
  const CALL_FAILED := CallOutcome(false, 0, 0)

  function OutcomeOf(reply: ToolReply): CallOutcome {
    match reply
    case Output(_, denied, failures, progress) => CallOutcome(!denied && failures == 0, failures, progress)
    case _ => CALL_FAILED
  }

  datatype Dispatched = Dispatched(id: string, result: string, outcome: CallOutcome)

  datatype Round = Round(sent: seq<Message>, reply: Reply, done: seq<Dispatched>) {
    function Calls(): seq<ToolCall> {
      if reply.Got? && Classify(reply.gen).Working? then reply.gen.message.value.ToolCalls() else []
    }
  }

  /** The prose of a quarantined turn, kept without its calls. */
  function Projection(m: Message): seq<Message> {
    if Blank(m.Text()) then []
    else
      var r := m.Thinking();
      [Message(Assistant, (if r.Some? then [ReasoningBlock(r.value)] else []) + AssistantText(m.Text()).content)]
  }

  function Results(done: seq<Dispatched>): seq<Message> {
    seq(|done|, i requires 0 <= i < |done| => ToolMessage(done[i].result, done[i].id))
  }

  /** What a round leaves in the transcript for the next request. */
  function Delta(r: Round): seq<Message> {
    if r.reply.Failed? then []
    else
      match Classify(r.reply.gen)
      case RetryBlank => [UserMessage(EMPTY_TURN_DIRECTIVE)]
      case CutOff => Projection(r.reply.gen.message.value) + [UserMessage(TRUNCATED_CALLS_DIRECTIVE)]
      case Working => [r.reply.gen.message.value] + Results(r.done)
      case Final => [r.reply.gen.message.value]
      case Futile(_) => []
  }

  /** The rounds of a run so far. */
  datatype Log = Empty | Snoc(front: Log, last: Round) {
    function Length(): nat { if Empty? then 0 else front.Length() + 1 }

    function Rounds(): (rs: seq<Round>)
      ensures |rs| == Length()
    {
      if Empty? then [] else front.Rounds() + [last]
    }
  }

  function Deltas(log: Log): seq<Message> {
    if log.Empty? then [] else Deltas(log.front) + Delta(log.last)
  }

  // ---- The two refusal counters ---------------------------------------------

  datatype Counters = Counters(empty: nat, truncated: nat)

  /** A cut-off turn resets the blank counter; a blank turn leaves the cut-off counter alone. */
  function Count(c: Counters, k: Kind): Counters {
    match k
    case RetryBlank => Counters(c.empty + 1, c.truncated)
    case Futile(_) => c
    case CutOff => Counters(0, c.truncated + 1)
    case Working => Counters(0, 0)
    case Final => Counters(0, 0)
  }

  function Tally(ks: seq<Kind>): Counters {
    if ks == [] then Counters(0, 0) else Count(Tally(ks[..|ks| - 1]), ks[|ks| - 1])
  }

  lemma TallySnoc(ks: seq<Kind>, k: Kind)
    ensures Tally(ks + [k]) == Count(Tally(ks), k)
  {
    var s := ks + [k];
    assert s[..|s| - 1] == ks;
  }

  predicate Within(c: Counters, e: nat, t: nat) { c.empty < e && c.truncated < t }

  /** No counter reached its ceiling, before or after any of the turns. */
  ghost predicate Survives(ks: seq<Kind>, e: nat, t: nat) {
    Within(Tally(ks), e, t) && (ks == [] || Survives(ks[..|ks| - 1], e, t))
  }

  lemma SurvivesSnoc(ks: seq<Kind>, k: Kind, e: nat, t: nat)
    requires Survives(ks, e, t) && Within(Count(Tally(ks), k), e, t)
    ensures Survives(ks + [k], e, t)
  {
    var s := ks + [k];
    assert s[..|s| - 1] == ks;
  }

  lemma {:induction false} SurvivesPrefix(ks: seq<Kind>, e: nat, t: nat, j: nat)
    requires Survives(ks, e, t) && j <= |ks|
    ensures Survives(ks[..j], e, t)
  {
    if j == |ks| {
      assert ks[..j] == ks;
    } else {
      SurvivesPrefix(ks[..|ks| - 1], e, t, j);
      assert ks[..|ks| - 1][..j] == ks[..j];
    }
  }

  function Rank(c: Counters, e: nat): nat { c.truncated * e + c.empty }

  lemma RankBound(c: Counters, e: nat, t: nat)
    requires Within(c, e, t)
    ensures Rank(c, e) < e * t
  {
    assert c.truncated * e <= (t - 1) * e;
  }

  /** Each refused turn a run survives raises the rank by at least one. */
  lemma {:induction false} RankClimbs(ks: seq<Kind>, e: nat, t: nat, i: nat)
    requires i <= |ks|
    requires Survives(ks, e, t)
    requires forall n :: i <= n < |ks| ==> Refused(ks[n])
    ensures |ks| - i <= Rank(Tally(ks), e)
  {
    if i < |ks| {
      var front := ks[..|ks| - 1];
      RankClimbs(front, e, t, i);
      var c := Tally(front);
      assert Within(c, e, t);
      assert (c.truncated + 1) * e == c.truncated * e + e;
    }
  }

  /** However blank and cut-off turns alternate, fewer than e * t of them in a row are survived. */
  lemma RefusalBound(ks: seq<Kind>, e: nat, t: nat, i: nat, j: nat)
    requires i <= j <= |ks|
    requires Survives(ks, e, t)
    requires forall n :: i <= n < j ==> Refused(ks[n])
    ensures j - i < e * t
  {
    SurvivesPrefix(ks, e, t, j);
    RankClimbs(ks[..j], e, t, i);
    RankBound(Tally(ks[..j]), e, t);
  }

  function Blanks(n: nat): seq<Kind> { if n == 0 then [] else Blanks(n - 1) + [RetryBlank] }

  /** e - 1 blank turns before each of t - 1 cut-off turns, and e - 1 more. */
  function Worst(e: nat, t: nat): seq<Kind>
    requires e > 0 && t > 0
  {
    if t == 1 then Blanks(e - 1) else Worst(e, t - 1) + [CutOff] + Blanks(e - 1)
  }

  lemma {:induction false} BlanksRefused(n: nat)
    ensures |Blanks(n)| == n && forall k <- Blanks(n) :: Refused(k)
  {
    if n > 0 {
      BlanksRefused(n - 1);
    }
  }

  lemma {:induction false} WorstLength(e: nat, t: nat)
    requires e > 0 && t > 0
    ensures |Worst(e, t)| == e * t - 1 && forall k <- Worst(e, t) :: Refused(k)
  {
    if t > 1 {
      WorstLength(e, t - 1);
      BlanksRefused(e - 1);
      assert e * t == e * (t - 1) + e;
    } else {
      BlanksRefused(e - 1);
    }
  }

  lemma {:induction false} MoreBlanks(ks: seq<Kind>, n: nat, e: nat, t: nat)
    requires Survives(ks, e, t) && Tally(ks).empty + n < e
    ensures Tally(ks + Blanks(n)) == Counters(Tally(ks).empty + n, Tally(ks).truncated)
    ensures Survives(ks + Blanks(n), e, t)
  {
    if n == 0 {
      assert ks + Blanks(0) == ks;
    } else {
      hide Tally;
      MoreBlanks(ks, n - 1, e, t);
      assert ks + Blanks(n) == (ks + Blanks(n - 1)) + [RetryBlank];
      TallySnoc(ks + Blanks(n - 1), RetryBlank);
      SurvivesSnoc(ks + Blanks(n - 1), RetryBlank, e, t);
    }
  }

  lemma {:induction false} WiderCeiling(ks: seq<Kind>, e: nat, t: nat)
    requires Survives(ks, e, t)
    ensures Survives(ks, e, t + 1)
  {
    if ks != [] {
      WiderCeiling(ks[..|ks| - 1], e, t);
    }
  }

  lemma WorstStep(ks: seq<Kind>, e: nat, t: nat)
    requires e > 0 && t > 0 && Survives(ks, e, t) && Tally(ks).truncated == t - 1
    ensures Survives(ks + [CutOff] + Blanks(e - 1), e, t + 1)
    ensures Tally(ks + [CutOff] + Blanks(e - 1)) == Counters(e - 1, t)
  {
    WiderCeiling(ks, e, t);
    var s := ks + [CutOff];
    assert s[..|s| - 1] == ks;
    MoreBlanks(s, e - 1, e, t + 1);
  }

  lemma FirstBlanks(e: nat)
    requires e > 0
    ensures Survives(Blanks(e - 1), e, 1) && Tally(Blanks(e - 1)) == Counters(e - 1, 0)
  {
    assert Survives([], e, 1) && Tally([]) == Counters(0, 0);
    hide Survives, Tally, Blanks;
    MoreBlanks([], e - 1, e, 1);
    assert [] + Blanks(e - 1) == Blanks(e - 1);
  }

  lemma {:induction false} WorstSurvives(e: nat, t: nat)
    requires e > 0 && t > 0
    ensures Survives(Worst(e, t), e, t) && Tally(Worst(e, t)) == Counters(e - 1, t - 1)
  {
    if t == 1 {
      assert Worst(e, t) == Blanks(e - 1);
      hide Worst, Survives, Tally;
      FirstBlanks(e);
    } else {
      var ks := Worst(e, t - 1);
      assert Worst(e, t) == ks + [CutOff] + Blanks(e - 1);
      hide Worst, Blanks, Survives, Tally;
      WorstSurvives(e, t - 1);
      WorstStep(ks, e, t - 1);
    }
  }

  /** The bound is exact: a run can survive e * t - 1 refused turns in a row. */
  lemma RefusalBoundIsTight(e: nat, t: nat) returns (ks: seq<Kind>)
    requires e > 0 && t > 0
    ensures |ks| == e * t - 1 && forall k <- ks :: Refused(k)
    ensures Survives(ks, e, t)
  {
    ks := Worst(e, t);
    WorstLength(e, t);
    WorstSurvives(e, t);
  }

  // ---- The failure streak ---------------------------------------------------

  function Streak(credits: seq<nat>): nat {
    if credits == [] || credits[|credits| - 1] == 0 then 0
    else Streak(credits[..|credits| - 1]) + credits[|credits| - 1]
  }

  function Sum(s: seq<nat>): nat {
    if s == [] then 0 else Sum(s[..|s| - 1]) + s[|s| - 1]
  }

  /** The streak is the credit of the longest suffix in which every dispatch failed. */
  lemma {:induction false} StreakIsFailingSuffix(credits: seq<nat>) returns (k: nat)
    ensures k <= |credits|
    ensures forall i :: k <= i < |credits| ==> credits[i] > 0
    ensures k == 0 || credits[k - 1] == 0
    ensures Streak(credits) == Sum(credits[k..])
  {
    var n := |credits|;
    if n == 0 || credits[n - 1] == 0 {
      k := n;
    } else {
      k := StreakIsFailingSuffix(credits[..n - 1]);
      assert credits[k..][..n - 1 - k] == credits[..n - 1][k..];
    }
  }

  function Credits(done: seq<Dispatched>): seq<nat> {
    seq(|done|, i requires 0 <= i < |done| => Credit(done[i].outcome))
  }

  function AllCredits(log: Log): seq<nat> {
    if log.Empty? then [] else AllCredits(log.front) + Credits(log.last.done)
  }

  predicate Exhausted(ceiling: nat, streak: nat) { ceiling > 0 && streak >= ceiling }

  /** No dispatch of done, made with the credits before it, brings the streak to the ceiling. */
  ghost predicate BelowCeiling(ceiling: nat, before: seq<nat>, done: seq<Dispatched>) {
    done == [] ||
    (BelowCeiling(ceiling, before, done[..|done| - 1]) && !Exhausted(ceiling, Streak(before + Credits(done))))
  }

  // ---- The log of a run -----------------------------------------------------

  function KindOf(r: Round): Kind { if r.reply.Got? then Classify(r.reply.gen) else Futile(ModelFailed) }

  function Kinds(log: Log): (ks: seq<Kind>)
    ensures |ks| == log.Length()
  {
    if log.Empty? then [] else Kinds(log.front) + [KindOf(log.last)]
  }

  function CountersOf(log: Log): Counters {
    if log.Empty? then Counters(0, 0) else Count(CountersOf(log.front), KindOf(log.last))
  }

  lemma {:induction false} CountersTally(log: Log)
    ensures CountersOf(log) == Tally(Kinds(log))
  {
    if log.Snoc? {
      CountersTally(log.front);
      TallySnoc(Kinds(log.front), KindOf(log.last));
    }
  }

  /** The calls done answer, in order. */
  predicate Answers(done: seq<Dispatched>, calls: seq<ToolCall>) {
    |done| <= |calls| && forall i :: 0 <= i < |done| ==> done[i].id == calls[i].id
  }

  /** A round the run goes on after. */
  ghost predicate GoesOn(ceiling: nat, before: Log, r: Round) {
    && r.reply.Got?
    && Within(Count(CountersOf(before), KindOf(r)), MAX_CONSECUTIVE_EMPTY, MAX_CONSECUTIVE_TRUNCATED)
    && !KindOf(r).Futile? && !KindOf(r).Final?
    && Answers(r.done, r.Calls()) && |r.done| == |r.Calls()|
    && BelowCeiling(ceiling, AllCredits(before), r.done)
  }

  /**
    The rounds a run went on after: every request is the seed followed by what the
    earlier rounds left in the transcript.
   */
  ghost predicate Passed(ceiling: nat, seed: seq<Message>, log: Log) {
    log.Empty? ||
    (Passed(ceiling, seed, log.front) && log.last.sent == seed + Deltas(log.front) &&
     GoesOn(ceiling, log.front, log.last))
  }

  lemma {:induction false} PassedSurvives(ceiling: nat, seed: seq<Message>, log: Log)
    requires Passed(ceiling, seed, log)
    ensures Survives(Kinds(log), MAX_CONSECUTIVE_EMPTY, MAX_CONSECUTIVE_TRUNCATED)
  {
    if log.Snoc? {
      PassedSurvives(ceiling, seed, log.front);
      CountersTally(log.front);
      SurvivesSnoc(Kinds(log.front), KindOf(log.last), MAX_CONSECUTIVE_EMPTY, MAX_CONSECUTIVE_TRUNCATED);
    }
  }

  /** No run goes on through nine refused turns in a row. */
  lemma RunRefusalBound(ceiling: nat, seed: seq<Message>, log: Log, i: nat, j: nat)
    requires Passed(ceiling, seed, log) && i <= j <= log.Length()
    requires forall n :: i <= n < j ==> Refused(Kinds(log)[n])
    ensures j - i < 9
  {
    PassedSurvives(ceiling, seed, log);
    RefusalBound(Kinds(log), MAX_CONSECUTIVE_EMPTY, MAX_CONSECUTIVE_TRUNCATED, i, j);
  }

  /** What holds between two rounds of a run: its log, its transcript and its three counters. */
  ghost predicate Progress(ceiling: nat, seed: seq<Message>, passed: Log, turn: seq<Message>,
                           c: Counters, failures: nat)
  {
    && Passed(ceiling, seed, passed)
    && turn == seed + Deltas(passed)
    && c == CountersOf(passed) && Within(c, MAX_CONSECUTIVE_EMPTY, MAX_CONSECUTIVE_TRUNCATED)
    && failures == Streak(AllCredits(passed))
  }

  lemma LogSnoc(log: Log, r: Round)
    ensures Deltas(Snoc(log, r)) == Deltas(log) + Delta(r)
    ensures CountersOf(Snoc(log, r)) == Count(CountersOf(log), KindOf(r))
    ensures AllCredits(Snoc(log, r)) == AllCredits(log) + Credits(r.done)
  {
  }

  lemma PassedSnoc(ceiling: nat, seed: seq<Message>, log: Log, r: Round)
    requires Passed(ceiling, seed, log) && r.sent == seed + Deltas(log) && GoesOn(ceiling, log, r)
    ensures Passed(ceiling, seed, Snoc(log, r))
    ensures Within(Count(CountersOf(log), KindOf(r)), MAX_CONSECUTIVE_EMPTY, MAX_CONSECUTIVE_TRUNCATED)
  {
    hide Within, Count, CountersOf, KindOf;
  }

  lemma ProgressSnoc(ceiling: nat, seed: seq<Message>, passed: Log, turn: seq<Message>,
                     c: Counters, failures: nat, r: Round)
    requires Progress(ceiling, seed, passed, turn, c, failures)
    requires r.sent == turn && GoesOn(ceiling, passed, r)
    ensures Progress(ceiling, seed, Snoc(passed, r), turn + Delta(r), Count(c, KindOf(r)),
                     Streak(AllCredits(passed) + Credits(r.done)))
  {
    LogSnoc(passed, r);
    PassedSnoc(ceiling, seed, passed, r);
    hide Delta, Deltas, KindOf, Streak, Credits, CountersOf, AllCredits, Count, Passed, GoesOn, Within;
    Regroup(seed, Deltas(passed), Delta(r));
  }

  // ---- How a run ends -------------------------------------------------------

  datatype RunEnd = Answered(text: string) | Ended(stop: Stop)

  /** One request and what came back. */
  datatype Exchange = Exchange(sent: seq<Message>, reply: Reply)

  /** The dispatches of the last round reach the failure ceiling, and only with the last of them. */
  ghost predicate Stuck(ceiling: nat, passed: Log, last: Round) {
    && last.done != []
    && BelowCeiling(ceiling, AllCredits(passed), last.done[..|last.done| - 1])
    && Exhausted(ceiling, Streak(AllCredits(passed) + Credits(last.done)))
  }

  /** The transcript after the last round's dispatches. */
  function TurnAfter(last: Round): seq<Message> { last.sent + Delta(last) }

  /** The last round of a run: asked for within the limit, dispatching a prefix of its calls. */
  ghost predicate LastRound(ceiling: nat, maxIter: nat, seed: seq<Message>, passed: Log, last: Round) {
    && passed.Length() < maxIter
    && last.sent == seed + Deltas(passed)
    && Answers(last.done, last.Calls())
    && (last.done == [] || BelowCeiling(ceiling, AllCredits(passed), last.done[..|last.done| - 1]))
  }

  function CountersAfter(passed: Log, last: Round): Counters {
    Count(CountersOf(passed), KindOf(last))
  }

  /**
    The only ways a run may end. Interrupted and BudgetSpent say nothing here: when they
    are allowed is stated over the event trace.
   */
  ghost predicate Concludes(ceiling: nat, maxIter: nat, seed: seq<Message>, passed: Log,
                            last: Option<Round>, summary: Option<Exchange>, end: RunEnd, host: bool)
  {
    && Passed(ceiling, seed, passed)
    && passed.Length() <= maxIter
    && (last.Some? ==> LastRound(ceiling, maxIter, seed, passed, last.value))
    && (summary.Some? ==>
          && last.Some? && Stuck(ceiling, passed, last.value)
          && summary.value.sent == Summary(TurnAfter(last.value)))
    && (host ==> end == Answered(DETERMINISTIC_FAILURE_NOTICE) && summary.Some?)
    && match end
       case Answered(text) =>
         && last.Some? && text != ""
         && (if summary.None? then KindOf(last.value).Final? && text == last.value.reply.gen.message.value.Text()
             else host <==> (summary.value.reply.Failed? || NoText(summary.value.reply.gen.message)))
         && (summary.Some? && !host ==> text == summary.value.reply.gen.message.value.Text())
       case Ended(IterationLimit) => last.None? && passed.Length() == maxIter
       case Ended(EmptyResponses) =>
         last.Some? && KindOf(last.value).RetryBlank? &&
         CountersAfter(passed, last.value).empty == MAX_CONSECUTIVE_EMPTY
       case Ended(OutputLimit) =>
         last.Some? && (KindOf(last.value) == Futile(OutputLimit) ||
                        (KindOf(last.value).CutOff? &&
                         CountersAfter(passed, last.value).truncated == MAX_CONSECUTIVE_TRUNCATED))
       case Ended(ContentFiltered) => last.Some? && KindOf(last.value) == Futile(ContentFiltered)
       case Ended(StoppedEarly(raw)) => last.Some? && KindOf(last.value) == Futile(StoppedEarly(raw))
       case Ended(ModelFailed) => last.Some? && last.value.reply.Failed?
       case Ended(ContextDone) => summary.Some?
       case Ended(AuditFailed) =>
         last.Some? && |last.value.done| < |last.value.Calls()| &&
         BelowCeiling(ceiling, AllCredits(passed), last.value.done)
       case Ended(_) => true
  }

  predicate NoText(m: Option<Message>) { m.None? || Blank(m.value.Text()) }

  /** What accepting a turn of kind k may decide, with the refusal counters at c after it. */
  ghost predicate TurnVerdict(k: Kind, c: Counters, answered: bool, err: Option<Stop>) {
    match k
    case RetryBlank => !answered && (err.None? <==> c.empty < MAX_CONSECUTIVE_EMPTY) &&
                       (err.Some? ==> IsHalt(err.value) || err.value == EmptyResponses)
    case Futile(why) => !answered && err.Some? && (IsHalt(err.value) || err.value == why)
    case CutOff => !answered && (err.None? <==> c.truncated < MAX_CONSECUTIVE_TRUNCATED) &&
                   (err.Some? ==> IsHalt(err.value) || err.value == OutputLimit)
    case Working => !answered && err.None?
    case Final => (answered <==> err.None?) && (err.Some? ==> IsHalt(err.value))
  }

  lemma ProgressStart(ceiling: nat, seed: seq<Message>)
    ensures Progress(ceiling, seed, Empty, seed, Counters(0, 0), 0)
  {
    assert seed + [] == seed;
  }

  /** A run may end at a halt before its next round, or when the rounds are used up. */
  lemma ConcludeBetween(ceiling: nat, maxIter: nat, seed: seq<Message>, passed: Log, turn: seq<Message>,
                        c: Counters, failures: nat, stop: Stop)
    requires Progress(ceiling, seed, passed, turn, c, failures) && passed.Length() <= maxIter
    requires IsHalt(stop) || (stop == IterationLimit && passed.Length() == maxIter)
    ensures Concludes(ceiling, maxIter, seed, passed, None, None, Ended(stop), false)
  {
  }

  /** A run may end at a halt after its next reply, or with the model's failure. */
  lemma ConcludeReply(ceiling: nat, maxIter: nat, seed: seq<Message>, passed: Log, turn: seq<Message>,
                      c: Counters, failures: nat, reply: Reply, stop: Stop)
    requires Progress(ceiling, seed, passed, turn, c, failures) && passed.Length() < maxIter
    requires IsHalt(stop) || (stop == ModelFailed && reply.Failed?)
    ensures Concludes(ceiling, maxIter, seed, passed, Some(Round(turn, reply, [])), None, Ended(stop), false)
  {
  }

  lemma ConcludeTurn(ceiling: nat, maxIter: nat, seed: seq<Message>, passed: Log, turn: seq<Message>,
                     c: Counters, failures: nat, gen: Generation, answered: bool, err: Option<Stop>)
    requires Progress(ceiling, seed, passed, turn, c, failures) && passed.Length() < maxIter
    requires TurnVerdict(Classify(gen), Count(c, Classify(gen)), answered, err) && (answered || err.Some?)
    ensures answered ==> err.None? && gen.message.Some? && !Blank(gen.message.value.Text())
    ensures err != Some(AuditFailed)
    ensures Concludes(ceiling, maxIter, seed, passed, Some(Round(turn, Got(gen), [])), None,
                      if err.Some? then Ended(err.value) else Answered(gen.message.value.Text()), false)
  {
    hide Delta, Deltas, Streak, Credits, BelowCeiling, CountersOf, AllCredits, Passed;
  }

  /**
    What dispatching a turn's calls may decide: turn is the transcript before them, next and
    failures the transcript and the failure count after them, halt the summary's answer.
   */
  ghost predicate DispatchVerdict(ceiling: nat, before: seq<nat>, calls: seq<ToolCall>, turn: seq<Message>,
                                  next: seq<Message>, failures: nat, done: seq<Dispatched>,
                                  halt: string, err: Option<Stop>, summary: Option<Exchange>)
  {
    && Answers(done, calls)
    && (done == [] || BelowCeiling(ceiling, before, done[..|done| - 1]))
    && (err == Some(AuditFailed) ==> summary.None? && |done| < |calls| && BelowCeiling(ceiling, before, done))
    && (err.None? && halt == "" ==>
          && |done| == |calls| && BelowCeiling(ceiling, before, done)
          && next == turn + Results(done) && failures == Streak(before + Credits(done)) && summary.None?)
    && (summary.Some? ==>
          && done != [] && Exhausted(ceiling, Streak(before + Credits(done)))
          && summary.value.sent == Summary(turn + Results(done)))
    && (halt != "" ==> err.None? && summary.Some?)
    && (err.Some? ==>
          halt == "" && (IsHalt(err.value) || err.value.AuditFailed? || (err.value.ContextDone? && summary.Some?)))
  }

  /** Midway through a turn's calls, none of which stopped the run. */
  ghost predicate Dispatching(ceiling: nat, before: seq<nat>, calls: seq<ToolCall>, turn: seq<Message>,
                              next: seq<Message>, failures: nat, done: seq<Dispatched>)
  {
    && Answers(done, calls) && BelowCeiling(ceiling, before, done)
    && next == turn + Results(done) && failures == Streak(before + Credits(done))
  }

  lemma DispatchStart(ceiling: nat, before: seq<nat>, calls: seq<ToolCall>, turn: seq<Message>)
    ensures Dispatching(ceiling, before, calls, turn, turn, Streak(before), [])
  {
    assert before + Credits([]) == before;
    assert turn + Results([]) == turn;
  }

  lemma DispatchedSnoc(turn: seq<Message>, before: seq<nat>, done: seq<Dispatched>, d: Dispatched)
    ensures turn + Results(done + [d]) == turn + Results(done) + [ToolMessage(d.result, d.id)]
    ensures var c := Credit(d.outcome);
            Streak(before + Credits(done + [d])) == if c > 0 then Streak(before + Credits(done)) + c else 0
  {
    var cs := before + Credits(done + [d]);
    assert cs == before + Credits(done) + [Credit(d.outcome)];
    assert cs[..|cs| - 1] == before + Credits(done);
  }

  lemma DispatchStep(ceiling: nat, before: seq<nat>, calls: seq<ToolCall>, turn: seq<Message>,
                     next: seq<Message>, failures: nat, done: seq<Dispatched>, d: Dispatched,
                     next': seq<Message>, failures': nat, halt: string, err: Option<Stop>, summary: Option<Exchange>)
    requires Dispatching(ceiling, before, calls, turn, next, failures, done)
    requires |done| < |calls| && d.id == calls[|done|].id
    requires next' == next + [ToolMessage(d.result, d.id)]
    requires failures' == if Credit(d.outcome) > 0 then failures + Credit(d.outcome) else 0
    requires summary.Some? ==> Exhausted(ceiling, failures') && summary.value.sent == Summary(next')
    requires err.None? ==> (halt != "" <==> Exhausted(ceiling, failures')) && (halt != "" <==> summary.Some?)
    requires err.Some? ==> halt == "" && (IsHalt(err.value) || (err.value.ContextDone? && summary.Some?))
    ensures if err.None? && halt == "" then
              Dispatching(ceiling, before, calls, turn, next', failures', done + [d])
            else
              DispatchVerdict(ceiling, before, calls, turn, next', failures', done + [d], halt, err, summary)
  {
    hide Credit, Streak, Summary, Exhausted, Results, Credits;
    DispatchedSnoc(turn, before, done, d);
    assert (done + [d])[..|done|] == done;
  }

  lemma DispatchFails(ceiling: nat, before: seq<nat>, calls: seq<ToolCall>, turn: seq<Message>,
                      next: seq<Message>, failures: nat, done: seq<Dispatched>)
    requires Dispatching(ceiling, before, calls, turn, next, failures, done) && |done| < |calls|
    ensures forall next', failures' ::
              DispatchVerdict(ceiling, before, calls, turn, next', failures', done, "", Some(AuditFailed), None)
  {
    hide Credit, Streak, Results, Credits;
  }

  lemma DispatchEnds(ceiling: nat, before: seq<nat>, calls: seq<ToolCall>, turn: seq<Message>,
                     next: seq<Message>, failures: nat, done: seq<Dispatched>)
    requires Dispatching(ceiling, before, calls, turn, next, failures, done) && |done| == |calls|
    ensures DispatchVerdict(ceiling, before, calls, turn, next, failures, done, "", None, None)
  {
    hide Credit, Streak, Results, Credits;
  }

  /** The text an answered summary turn gives, or the host's notice when the model gave none. */
  ghost predicate SummaryText(answer: string, host: bool, reply: Reply) {
    && answer != ""
    && (host <==> reply.Failed? || NoText(reply.gen.message))
    && (answer == if host then DETERMINISTIC_FAILURE_NOTICE else reply.gen.message.value.Text())
  }

  lemma DispatchedRound(turn: seq<Message>, gen: Generation, done: seq<Dispatched>)
    requires Answers(done, Round(turn, Got(gen), []).Calls())
    ensures turn + Delta(Round(turn, Got(gen), [])) + Results(done) == TurnAfter(Round(turn, Got(gen), done))
  {
    assert Results([]) == [];
    if Classify(gen).Working? {
      var m := gen.message.value;
      assert [m] + [] == [m];
      assert turn + [m] + Results(done) == turn + ([m] + Results(done));
    } else {
      var d := Delta(Round(turn, Got(gen), []));
      assert turn + d + [] == turn + d;
    }
  }

  lemma ConcludeDispatch(ceiling: nat, maxIter: nat, seed: seq<Message>, passed: Log, turn: seq<Message>,
                         c: Counters, failures: nat, gen: Generation, next: seq<Message>, failures': nat,
                         done: seq<Dispatched>, halt: string, err: Option<Stop>, summary: Option<Exchange>, host: bool)
    requires Progress(ceiling, seed, passed, turn, c, failures) && passed.Length() < maxIter
    requires DispatchVerdict(ceiling, AllCredits(passed), Round(turn, Got(gen), []).Calls(),
                             turn + Delta(Round(turn, Got(gen), [])), next, failures', done, halt, err, summary)
    requires err.Some? || halt != ""
    requires if halt != "" then SummaryText(halt, host, summary.value.reply) else !host
    ensures Concludes(ceiling, maxIter, seed, passed, Some(Round(turn, Got(gen), done)), summary,
                      if err.Some? then Ended(err.value) else Answered(halt), host)
  {
    hide Delta, Deltas, Streak, Credits, BelowCeiling, CountersOf, AllCredits, Passed, Classify, Summary,
         TurnAfter, Results, Answers, Exhausted, NoText;
    DispatchedRound(turn, gen, done);
    assert Round(turn, Got(gen), done).Calls() == Round(turn, Got(gen), []).Calls();
  }

  lemma ContinueDispatch(ceiling: nat, seed: seq<Message>, passed: Log, turn: seq<Message>,
                         c: Counters, failures: nat, gen: Generation, next: seq<Message>, failures': nat,
                         done: seq<Dispatched>)
    requires Progress(ceiling, seed, passed, turn, c, failures)
    requires TurnVerdict(Classify(gen), Count(c, Classify(gen)), false, None)
    requires DispatchVerdict(ceiling, AllCredits(passed), Round(turn, Got(gen), []).Calls(),
                             turn + Delta(Round(turn, Got(gen), [])), next, failures', done, "", None, None)
    ensures Progress(ceiling, seed, Snoc(passed, Round(turn, Got(gen), done)), next, Count(c, Classify(gen)), failures')
  {
    var r := Round(turn, Got(gen), done);
    DispatchedRound(turn, gen, done);
    GoesOnIf(ceiling, passed, r, c);
    hide Delta, Deltas, Streak, Credits, BelowCeiling, CountersOf, AllCredits, Passed, Classify;
    ProgressSnoc(ceiling, seed, passed, turn, c, failures, r);
  }

  lemma GoesOnIf(ceiling: nat, passed: Log, r: Round, c: Counters)
    requires r.reply.Got? && c == CountersOf(passed)
    requires Within(c, MAX_CONSECUTIVE_EMPTY, MAX_CONSECUTIVE_TRUNCATED)
    requires TurnVerdict(Classify(r.reply.gen), Count(c, Classify(r.reply.gen)), false, None)
    requires Answers(r.done, r.Calls()) && |r.done| == |r.Calls()| && BelowCeiling(ceiling, AllCredits(passed), r.done)
    ensures GoesOn(ceiling, passed, r)
  {
    hide Classify, Streak, Credits, BelowCeiling, CountersOf, AllCredits;
  }

  // ---- Pairing of tool calls and results ------------------------------------

  predicate IsResultFor(m: Message, id: string) {
    m.role == Tool && |m.content| == 1 && m.content[0].ResultBlock? && m.content[0].callId == id
  }

  /** The message at i is followed at once by one result for each of its calls, in call order. */
  predicate ResultsFollow(t: seq<Message>, i: nat)
    requires i < |t|
  {
    var cs := t[i].ToolCalls();
    i + |cs| < |t| && forall k :: 0 <= k < |cs| ==> IsResultFor(t[i + 1 + k], cs[k].id)
  }

  predicate WellPaired(t: seq<Message>) {
    forall i :: 0 <= i < |t| && t[i].ToolCalls() != [] ==> ResultsFollow(t, i)
  }

  function AllCalls(t: seq<Message>): seq<ToolCall> {
    if t == [] then [] else t[0].ToolCalls() + AllCalls(t[1..])
  }

  function AllResultIds(t: seq<Message>): set<string> { set m <- t, id <- m.ResultIds() :: id }

  /** Every tool-call ID anywhere in the transcript has a tool result somewhere in it. */
  predicate EveryCallAnswered(t: seq<Message>) {
    forall c <- AllCalls(t) :: c.id in AllResultIds(t)
  }

  /** Synthetic results for the calls not answered yet, one for each ID. */
  function Synthetic(calls: seq<ToolCall>, answered: set<string>): seq<Message> {
    if calls == [] then []
    else if calls[0].id in answered then Synthetic(calls[1..], answered)
    else [ToolMessage(SYNTHETIC_HALT_RESULT, calls[0].id)] + Synthetic(calls[1..], answered + {calls[0].id})
  }

  function CompletePending(t: seq<Message>): seq<Message> {
    t + Synthetic(AllCalls(t), AllResultIds(t))
  }

  /** The request of the summary turn. */
  function Summary(t: seq<Message>): seq<Message> {
    CompletePending(t) + [UserMessage(STOP_SUMMARY_DIRECTIVE)]
  }
}
