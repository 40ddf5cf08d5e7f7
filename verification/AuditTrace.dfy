/**
  The order in which the loop may audit, run tools, ask the model and look at its halt
  flags. A trace is one session's events; Scan is the monitor that accepts or rejects it.
 */
module AuditTrace {
  import opened Wrappers
  import opened Schema
  import opened LoopSpec

  const MAX_TASK_DEPTH: nat := 1

  datatype Halt = NoHalt | HaltInterrupt | HaltBudget

  const UNKNOWN_TOOL_RESULT := "Error: unknown tool."
  const DENIED_INTERRUPT_RESULT := "Tool not run: the operator interrupted the turn."

  datatype Event =
    | TurnBegan
    | Checked(halt: Halt)
      /** A Generate call of the run at depth, or of a verification pass of a tool that run called. */
    | Generated(depth: nat, verifying: bool, exchange: Exchange)
      /** known says that the tool is registered. */
    | Attempted(depth: nat, callId: string, tool: string, known: bool, logged: bool)
      /** A tool runs: an I/O tool with its reply, an orchestration tool with none. */
    | Ran(tool: string, reply: Option<ToolReply>)
      /** The sub-run at depth ended, with no audit failure. */
    | Returned(depth: nat, end: RunEnd)
    | Recorded(depth: nat, callId: string, tool: string, result: string, outcome: CallOutcome, logged: bool)

  /** One call whose attempt is recorded and whose result is not yet; started once its tool ran. */
  datatype OpenCall = OpenCall(callId: string, tool: string, known: bool, started: bool,
                               reply: Option<ToolReply>, sub: Option<RunEnd>)

  /** Halted once a check saw a halt; Dead once an audit write failed. */
  datatype Mode = Live | Halted | Dead

  datatype Monitor = Rejected | Running(open: seq<OpenCall>, mode: Mode)

  /** Nothing is open, or the innermost open call's tool is running. */
  predicate Inside(open: seq<OpenCall>) { open == [] || open[|open| - 1].started }

  /** The sub-run of a call failed in a way its parent sees as an error. */
  predicate SubFailed(sub: Option<RunEnd>) { sub.Some? && sub.value.Ended? && !SubagentStop(sub.value.stop) }

  /**
    The result and outcome a call may be recorded with: an unknown tool's; a registered tool that did
    not run, only once a halt was seen; the tool's own reply; or what the orchestration tool came to.
   */
  predicate Reports(c: OpenCall, mode: Mode, result: string, outcome: CallOutcome) {
    if !c.known then !c.started && result == UNKNOWN_TOOL_RESULT && outcome == CALL_FAILED
    else if !c.started then mode.Halted? && result == DENIED_INTERRUPT_RESULT && outcome == CALL_FAILED
    else if c.reply.Some? then
      !c.reply.value.AuditFatal? && result == c.reply.value.text && outcome == OutcomeOf(c.reply.value)
    else outcome == if SubFailed(c.sub) then CALL_FAILED else CALL_OK
  }

  predicate Fatal(reply: Option<ToolReply>) { reply.Some? && reply.value.AuditFatal? }

  function Step(m: Monitor, e: Event): Monitor {
    if m.Rejected? then Rejected
    else if e.TurnBegan? then if m.mode.Dead? || m.open == [] then Running([], Live) else Rejected
    else if m.mode.Dead? then Rejected
    else
      var n := |m.open|;
      match e
      case Checked(h) =>
        if h != NoHalt then m.(mode := Halted) else if m.mode.Halted? then Rejected else m
      case Generated(depth, verifying, _) =>
        if m.mode.Live? && Inside(m.open) && depth <= MAX_TASK_DEPTH && n == (if verifying then depth + 1 else depth)
        then m else Rejected
      case Attempted(depth, id, tool, known, logged) =>
        if m.mode.Live? && Inside(m.open) && n == depth <= MAX_TASK_DEPTH
        then Running(m.open + [OpenCall(id, tool, known, false, None, None)], if logged then Live else Dead)
        else Rejected
      case Ran(tool, reply) =>
        if m.mode.Live? && n > 0 && m.open[n - 1].known && !m.open[n - 1].started && m.open[n - 1].tool == tool
        then
          Running(m.open[n - 1 := m.open[n - 1].(started := true, reply := reply)], if Fatal(reply) then Dead else Live)
        else Rejected
      case Returned(depth, end) =>
        if n == depth > 0 && m.open[n - 1].started && m.open[n - 1].reply.None? && m.open[n - 1].sub.None?
        then m.(open := m.open[n - 1 := m.open[n - 1].(sub := Some(end))])
        else Rejected
      case Recorded(depth, id, tool, result, outcome, logged) =>
        if n == depth + 1 && m.open[depth].callId == id && m.open[depth].tool == tool
           && Reports(m.open[depth], m.mode, result, outcome)
        then Running(m.open[..depth], if logged then m.mode else Dead)
        else Rejected
  }

  function Scan(tr: seq<Event>): Monitor {
    if tr == [] then Running([], Live) else Step(Scan(tr[..|tr| - 1]), tr[|tr| - 1])
  }

  predicate Accepted(tr: seq<Event>) { Scan(tr).Running? }

  lemma ScanSnoc(tr: seq<Event>, e: Event)
    ensures Scan(tr + [e]) == Step(Scan(tr), e)
  {
    assert (tr + [e])[..|tr|] == tr;
  }

  /** What a run does for others to see: it asks the model, and it answers a call. */
  datatype Act = Asked(exchange: Exchange) | Called(tool: string, result: string, outcome: CallOutcome)

  predicate IsAct(e: Event, depth: nat) {
    (e.Generated? && !e.verifying && e.depth == depth) || (e.Recorded? && e.logged && e.depth == depth)
  }

  function ActOf(e: Event): Act
    requires e.Generated? || e.Recorded?
  {
    if e.Generated? then Asked(e.exchange) else Called(e.tool, e.result, e.outcome)
  }

  /** The acts of the run at one depth, in order, verification passes left out. */
  function Acts(tr: seq<Event>, depth: nat): seq<Act> {
    if tr == [] then []
    else
      var rest, e := Acts(tr[..|tr| - 1], depth), tr[|tr| - 1];
      if IsAct(e, depth) then rest + [ActOf(e)] else rest
  }

  lemma ActsSnoc(tr: seq<Event>, e: Event, depth: nat)
    ensures Acts(tr + [e], depth) == if IsAct(e, depth) then Acts(tr, depth) + [ActOf(e)] else Acts(tr, depth)
  {
    assert (tr + [e])[..|tr|] == tr;
  }

  /** How many turns began. */
  function Turns(tr: seq<Event>): nat {
    if tr == [] then 0 else Turns(tr[..|tr| - 1]) + if tr[|tr| - 1].TurnBegan? then 1 else 0
  }

  lemma TurnsSnoc(tr: seq<Event>, e: Event)
    ensures Turns(tr + [e]) == Turns(tr) + if e.TurnBegan? then 1 else 0
  {
    assert (tr + [e])[..|tr|] == tr;
  }

  lemma {:induction false} NoNewTurn(tr: seq<Event>, n: nat)
    requires n <= |tr|
    ensures Turns(tr[..n]) <= Turns(tr)
    ensures Turns(tr[..n]) == Turns(tr) ==> forall k :: n <= k < |tr| ==> !tr[k].TurnBegan?
  {
    if n < |tr| {
      var m := |tr| - 1;
      NoNewTurn(tr[..m], n);
      assert tr[..m][..n] == tr[..n];
    } else {
      assert tr[..n] == tr;
    }
  }

  /** A model call and an attempt both begin new work. */
  predicate Begins(e: Event) { e.Generated? || e.Attempted? }

  /** The last event is a halt check that saw none. */
  predicate JustChecked(tr: seq<Event>) { tr != [] && tr[|tr| - 1] == Checked(NoHalt) }

  /** Every model call and every attempt comes right after a halt check that saw none. */
  predicate Attentive(tr: seq<Event>) { forall i :: 0 <= i < |tr| && Begins(tr[i]) ==> JustChecked(tr[..i]) }

  lemma AttentiveSnoc(tr: seq<Event>, e: Event)
    requires Attentive(tr) && (Begins(e) ==> JustChecked(tr))
    ensures Attentive(tr + [e])
  {
    forall i | 0 <= i <= |tr| && Begins((tr + [e])[i])
      ensures JustChecked((tr + [e])[..i])
    {
      assert (tr + [e])[..i] == tr[..i];
      assert tr[..|tr|] == tr;
    }
  }

  // ---- What acceptance means ------------------------------------------------

  predicate Failing(e: Event) {
    (e.Attempted? && !e.logged) || (e.Recorded? && !e.logged) || (e.Ran? && Fatal(e.reply))
  }

  predicate SawHalt(e: Event) { e.Checked? && e.halt != NoHalt }

  predicate Work(e: Event) { e.Generated? || e.Attempted? || e.Ran? }

  lemma {:induction false} PrefixAccepted(tr: seq<Event>, i: nat)
    requires Accepted(tr) && i <= |tr|
    ensures Accepted(tr[..i])
  {
    if i < |tr| {
      PrefixAccepted(tr[..|tr| - 1], i);
      assert tr[..|tr| - 1][..i] == tr[..i];
    } else {
      assert tr[..i] == tr;
    }
  }

  lemma StepAt(tr: seq<Event>, i: nat)
    requires Accepted(tr) && i < |tr|
    ensures Accepted(tr[..i]) && Accepted(tr[..i + 1])
    ensures Scan(tr[..i + 1]) == Step(Scan(tr[..i]), tr[i])
  {
    PrefixAccepted(tr, i);
    PrefixAccepted(tr, i + 1);
    assert tr[..i + 1][..i] == tr[..i];
  }

  /** No turn begins after event i and up to event j. */
  predicate SameTurn(tr: seq<Event>, i: nat, j: nat) {
    forall k :: i < k < j && k < |tr| ==> !tr[k].TurnBegan?
  }

  /** Once an audit write fails the turn is over: no run, at any depth, does anything more. */
  lemma NothingAfterAuditFailure(tr: seq<Event>, i: nat, j: nat)
    requires Accepted(tr) && i < j < |tr| && Failing(tr[i])
    ensures !SameTurn(tr, i, j + 1)
  {
    if SameTurn(tr, i, j + 1) {
      StepAt(tr, i);
      StepAt(tr, i + 1);
    }
  }

  lemma {:induction false} HaltedStays(tr: seq<Event>, i: nat, j: nat)
    requires Accepted(tr) && i < j <= |tr| && SawHalt(tr[i]) && SameTurn(tr, i, j)
    ensures Scan(tr[..j]).Running? && Scan(tr[..j]).mode != Live
  {
    StepAt(tr, j - 1);
    if i < j - 1 {
      HaltedStays(tr, i, j - 1);
    }
  }

  /** Once a check sees a halt, no run of the turn asks the model, attempts a call or runs a tool. */
  lemma NoWorkAfterHalt(tr: seq<Event>, i: nat, j: nat)
    requires Accepted(tr) && i < j < |tr| && SawHalt(tr[i]) && Work(tr[j])
    ensures !SameTurn(tr, i, j + 1)
  {
    if SameTurn(tr, i, j + 1) {
      HaltedStays(tr, i, j);
      StepAt(tr, j);
    }
  }

  predicate OpenAbove(tr: seq<Event>, d: nat) { Accepted(tr) && |Scan(tr).open| > d }

  /** The attempt event i opened level d, and that level has stayed open since. */
  predicate OpenSince(tr: seq<Event>, i: nat, d: nat) {
    && i < |tr| && OpenAbove(tr, d)
    && var n := |tr| - 1;
    if i == n then tr[i].Attempted? && tr[i].depth == d
    else !tr[n].TurnBegan? && OpenSince(tr[..n], i, d)
  }

  lemma {:induction false} AttemptOf(tr: seq<Event>, d: nat) returns (i: nat)
    requires OpenAbove(tr, d)
    ensures OpenSince(tr, i, d)
    ensures tr[i].Attempted? && tr[i].callId == Scan(tr).open[d].callId && tr[i].tool == Scan(tr).open[d].tool
  {
    var n := |tr| - 1;
    if tr[n].Attempted? && tr[n].depth == d {
      i := n;
    } else {
      i := AttemptOf(tr[..n], d);
    }
  }

  /**
    Every result closes one attempt of the same call at the same depth, and that call is
    open all the way between the two: attempts and results nest.
   */
  lemma ResultClosesAttempt(tr: seq<Event>, j: nat) returns (i: nat)
    requires Accepted(tr) && j < |tr| && tr[j].Recorded?
    ensures i < j && OpenSince(tr[..j], i, tr[j].depth) && !OpenAbove(tr[..j + 1], tr[j].depth)
    ensures tr[i].Attempted? && tr[i].callId == tr[j].callId && tr[i].tool == tr[j].tool
  {
    StepAt(tr, j);
    i := AttemptOf(tr[..j], tr[j].depth);
  }

  /** A tool runs strictly inside the attempt of its own call, which was recorded. */
  lemma RunInsideAttempt(tr: seq<Event>, j: nat) returns (i: nat)
    requires Accepted(tr) && j < |tr| && tr[j].Ran?
    ensures i < j && tr[i].Attempted? && OpenSince(tr[..j], i, tr[i].depth)
    ensures tr[i].logged && tr[i].tool == tr[j].tool && tr[i].depth <= MAX_TASK_DEPTH
    ensures |Scan(tr[..j]).open| == tr[i].depth + 1 && !Scan(tr[..j]).open[tr[i].depth].started
    ensures Started(tr[..j + 1], tr[i].depth)
  {
    StepAt(tr, j);
    var d := |Scan(tr[..j]).open| - 1;
    i := AttemptOf(tr[..j], d);
    OpenSinceAttempt(tr[..j], i, d);
    LoggedWhileOpen(tr, i, j, d);
  }

  lemma LoggedWhileOpen(tr: seq<Event>, i: nat, j: nat, d: nat)
    requires Accepted(tr) && i < j < |tr| && tr[i].Attempted? && !tr[j].TurnBegan? && OpenSince(tr[..j], i, d)
    ensures tr[i].logged
  {
    hide OpenSince, Scan, Step;
    if !tr[i].logged {
      SameTurnWhileOpen(tr[..j], i, d);
      NothingAfterAuditFailure(tr, i, j);
    }
  }

  lemma {:induction false} OpenSinceAttempt(tr: seq<Event>, i: nat, d: nat)
    requires OpenSince(tr, i, d)
    ensures tr[i].Attempted? && tr[i].depth == d && d <= MAX_TASK_DEPTH
  {
    var n := |tr| - 1;
    if i < n {
      OpenSinceAttempt(tr[..n], i, d);
    }
  }

  lemma {:induction false} SameTurnWhileOpen(tr: seq<Event>, i: nat, d: nat)
    requires OpenSince(tr, i, d)
    ensures SameTurn(tr, i, |tr|)
  {
    var n := |tr| - 1;
    if i < n {
      SameTurnWhileOpen(tr[..n], i, d);
    }
  }

  predicate Started(tr: seq<Event>, d: nat) { OpenAbove(tr, d) && Scan(tr).open[d].started }

  lemma {:induction false} StartedStays(tr: seq<Event>, i: nat, j: nat, d: nat)
    requires OpenSince(tr, i, d) && i < j <= |tr| && Started(tr[..j], d)
    ensures Started(tr, d)
    decreases |tr|
  {
    if j == |tr| {
      assert tr[..j] == tr;
    } else {
      var n := |tr| - 1;
      assert tr[..n][..j] == tr[..j];
      StartedStays(tr[..n], i, j, d);
    }
  }

  /** Once a call's tool ran, nothing runs in that call again while it is the innermost open one. */
  lemma RunsOnce(tr: seq<Event>, i: nat, j: nat, k: nat)
    requires Accepted(tr) && i < j < k < |tr|
    requires tr[j].Ran? && tr[i].Attempted? && Accepted(tr[..j]) && |Scan(tr[..j]).open| == tr[i].depth + 1
    requires OpenSince(tr[..k], i, tr[i].depth) && |Scan(tr[..k]).open| == tr[i].depth + 1
    ensures !tr[k].Ran?
  {
    hide Scan, OpenSince;
    var d := tr[i].depth;
    RunStarts(tr, j);
    assert tr[..k][..j + 1] == tr[..j + 1];
    StartedStays(tr[..k], i, j + 1, d);
    if tr[k].Ran? {
      RunStarts(tr, k);
    }
  }

  /** A tool runs in the innermost open call, which had not started before. */
  lemma RunStarts(tr: seq<Event>, k: nat)
    requires Accepted(tr) && k < |tr| && tr[k].Ran?
    ensures Accepted(tr[..k]) && Scan(tr[..k]).open != []
    ensures var d := |Scan(tr[..k]).open| - 1;
            !Scan(tr[..k]).open[d].started && Started(tr[..k + 1], d)
  {
    StepAt(tr, k);
    hide Scan;
  }

  // ---- Attempts get their results -------------------------------------------

  /** The result event j closes the attempt event i, whose call is open all the way between. */
  predicate Closes(tr: seq<Event>, i: nat, j: nat) {
    && i < j < |tr| && tr[i].Attempted? && tr[j].Recorded?
    && tr[i].depth == tr[j].depth && tr[i].callId == tr[j].callId && tr[i].tool == tr[j].tool
    && OpenSince(tr[..j], i, tr[i].depth)
  }

  /** The level i opened is the call i attempted. */
  lemma {:induction false} OpenerIs(tr: seq<Event>, i: nat, d: nat)
    requires OpenSince(tr, i, d)
    ensures var c := Scan(tr).open[d];
            && tr[i].Attempted? && tr[i].depth == d
            && c.callId == tr[i].callId && c.tool == tr[i].tool && c.known == tr[i].known
  {
    var n := |tr| - 1;
    if i < n {
      OpenerIs(tr[..n], i, d);
    }
  }

  lemma DeadFailed(tr: seq<Event>)
    requires Accepted(tr) && Scan(tr).mode.Dead?
    ensures tr != [] && Failing(tr[|tr| - 1])
  {
    var n := |tr| - 1;
    if tr != [] {
      hide Scan, Step, Failing;
      StepAt(tr, n);
      assert tr[..n + 1] == tr;
      StepDies(Scan(tr[..n]), tr[n]);
    }
  }

  lemma StepDies(m: Monitor, e: Event)
    ensures Step(m, e).Running? && Step(m, e).mode.Dead? ==> Failing(e)
  {
    hide Reports;
  }

  /** An audit failure at or after event i, in the same turn. */
  ghost predicate FailedAfter(tr: seq<Event>, i: nat) {
    exists f: nat :: i <= f < |tr| && Failing(tr[f]) && SameTurn(tr, i, f + 1)
  }

  ghost predicate ClosedIn(tr: seq<Event>, i: nat) { exists j: nat :: Closes(tr, i, j) }

  lemma ClosedLater(tr: seq<Event>, longer: seq<Event>, i: nat)
    requires tr <= longer && ClosedIn(tr, i)
    ensures ClosedIn(longer, i)
  {
    var j: nat :| Closes(tr, i, j);
    assert longer[..j] == tr[..j];
    assert Closes(longer, i, j);
  }

  lemma FailedLater(tr: seq<Event>, longer: seq<Event>, i: nat)
    requires tr <= longer && FailedAfter(tr, i)
    ensures FailedAfter(longer, i)
  {
    var f: nat :| i <= f < |tr| && Failing(tr[f]) && SameTurn(tr, i, f + 1);
    assert Failing(longer[f]) && SameTurn(longer, i, f + 1);
  }

  /** Every attempt gets its result, unless it is still open or an audit write failed first. */
  lemma {:induction false} AttemptGetsResult(tr: seq<Event>, i: nat)
    requires Accepted(tr) && i < |tr| && tr[i].Attempted?
    ensures OpenSince(tr, i, tr[i].depth) || ClosedIn(tr, i) || FailedAfter(tr, i)
  {
    var n := |tr| - 1;
    var before, e, d := tr[..n], tr[n], tr[i].depth;
    assert tr == before + [e];
    if i < n {
      AttemptGetsResult(before, i);
      if ClosedIn(before, i) {
        ClosedLater(before, tr, i);
      } else if FailedAfter(before, i) {
        FailedLater(before, tr, i);
      } else {
        LastOpenStep(tr, i, d);
      }
    }
  }

  lemma LastOpenStep(tr: seq<Event>, i: nat, d: nat)
    requires Accepted(tr) && i < |tr| - 1 && OpenSince(tr[..|tr| - 1], i, d)
    ensures OpenSince(tr, i, d) || ClosedIn(tr, i) || FailedAfter(tr, i)
  {
    var n := |tr| - 1;
    var before := tr[..n];
    OpenerIs(before, i, d);
    if tr[n].TurnBegan? {
      DeadFailed(before);
      SameTurnWhileOpen(before, i, d);
      assert Failing(tr[n - 1]) && SameTurn(tr, i, n);
    } else if tr[n].Recorded? && tr[n].depth == d {
      assert Closes(tr, i, n);
    }
  }

  /** With nothing left open, every attempt of the turns whose audit writes all succeeded has its result. */
  lemma AllPaired(tr: seq<Event>, i: nat)
    requires Accepted(tr) && i < |tr| && tr[i].Attempted? && (Scan(tr).mode.Dead? || Scan(tr).open == [])
    ensures ClosedIn(tr, i) || FailedAfter(tr, i)
  {
    AttemptGetsResult(tr, i);
    if OpenSince(tr, i, tr[i].depth) {
      DeadFailed(tr);
      SameTurnWhileOpen(tr, i, tr[i].depth);
      var n := |tr| - 1;
      assert Failing(tr[n]) && SameTurn(tr, i, n + 1);
    }
  }

  /** In a turn that ended with nothing open and no audit failure, every attempt has its result. */
  lemma TurnPaired(tr: seq<Event>, start: nat, i: nat)
    requires Accepted(tr) && !Scan(tr).mode.Dead? && Scan(tr).open == []
    requires start <= i < |tr| && tr[i].Attempted? && SameTurn(tr, start, |tr|)
    ensures ClosedIn(tr, i)
  {
    hide Scan, Failing, ClosedIn;
    AllPaired(tr, i);
    if FailedAfter(tr, i) {
      var f: nat :| i <= f < |tr| && Failing(tr[f]) && SameTurn(tr, i, f + 1);
      LastToFail(tr, start, f);
      FailingDies(tr);
    }
  }

  lemma LastToFail(tr: seq<Event>, start: nat, f: nat)
    requires Accepted(tr) && start <= f < |tr| && Failing(tr[f]) && SameTurn(tr, start, |tr|)
    ensures f == |tr| - 1
  {
    hide Scan, Failing;
    if f < |tr| - 1 {
      assert SameTurn(tr, f, f + 2);
      NothingAfterAuditFailure(tr, f, f + 1);
    }
  }

  lemma FailingDies(tr: seq<Event>)
    requires Accepted(tr) && tr != [] && Failing(tr[|tr| - 1])
    ensures Scan(tr).mode.Dead?
  {
    hide Scan, Step, Failing;
    var n := |tr| - 1;
    StepAt(tr, n);
    assert tr[..n + 1] == tr;
    StepKills(Scan(tr[..n]), tr[n]);
  }

  lemma StepKills(m: Monitor, e: Event)
    ensures Step(m, e).Running? && Failing(e) ==> Step(m, e).mode.Dead?
  {
    hide Reports;
  }

  lemma {:induction false} OpenSincePrefix(tr: seq<Event>, i: nat, d: nat, m: nat)
    requires OpenSince(tr, i, d) && i < m <= |tr|
    ensures OpenSince(tr[..m], i, d)
  {
    var n := |tr| - 1;
    if m == |tr| {
      assert tr[..m] == tr;
    } else {
      OpenSincePrefix(tr[..n], i, d, m);
      assert tr[..n][..m] == tr[..m];
    }
  }

  /** An attempt opens the next level, and a result closes the innermost one. */
  lemma LevelAt(tr: seq<Event>, k: nat)
    requires Accepted(tr) && k < |tr|
    ensures Accepted(tr[..k]) && Accepted(tr[..k + 1])
    ensures tr[k].Attempted? ==> |Scan(tr[..k]).open| == tr[k].depth
    ensures tr[k].Recorded? ==> |Scan(tr[..k]).open| == tr[k].depth + 1 && |Scan(tr[..k + 1]).open| == tr[k].depth
  {
    StepAt(tr, k);
    hide Scan, Reports;
  }

  lemma SinceAbove(tr: seq<Event>, i: nat, d: nat)
    requires OpenSince(tr, i, d)
    ensures Accepted(tr) && |Scan(tr).open| > d
  {
  }

  /** Pairs nest: a call attempted inside another's pair has its result inside it too. */
  lemma PairsNest(tr: seq<Event>, i: nat, j: nat, k: nat, l: nat)
    requires Accepted(tr) && Closes(tr, i, j) && Closes(tr, k, l) && i < k < j
    ensures l < j && tr[k].depth > tr[i].depth
  {
    hide Scan, Step, OpenSince;
    var d, e := tr[i].depth, tr[k].depth;
    LevelAt(tr, k);
    LevelAt(tr, j);
    OpenSincePrefix(tr[..j], i, d, k);
    assert tr[..j][..k] == tr[..k];
    SinceAbove(tr[..k], i, d);
    if j < l {
      assert tr[..l][..j + 1] == tr[..j + 1];
      OpenSincePrefix(tr[..l], k, e, j + 1);
      SinceAbove(tr[..j + 1], k, e);
    }
  }

  // ---- The tool runs between them -------------------------------------------

  /** Event k is the tool of the call i attempted, running. */
  predicate RunOf(tr: seq<Event>, i: nat, k: nat) {
    && i < k < |tr| && tr[i].Attempted? && tr[k].Ran? && tr[k].tool == tr[i].tool
    && OpenSince(tr[..k], i, tr[i].depth) && |Scan(tr[..k]).open| == tr[i].depth + 1
  }

  lemma RunOfPrefix(tr: seq<Event>, n: nat, i: nat)
    requires n <= |tr|
    ensures forall k: nat :: k < n ==> (RunOf(tr[..n], i, k) <==> RunOf(tr, i, k))
  {
    hide OpenSince, Scan;
    assert forall k: nat :: k < n ==> tr[..n][..k] == tr[..k] && tr[..n][k] == tr[k];
  }

  lemma LevelStarts(tr: seq<Event>, i: nat, d: nat)
    requires OpenSince(tr, i, d) && i < |tr| - 1
    ensures var n := |tr| - 1;
            && OpenSince(tr[..n], i, d)
            && (Scan(tr).open[d].started <==>
                Scan(tr[..n]).open[d].started || (tr[n].Ran? && |Scan(tr[..n]).open| == d + 1))
            && (tr[n].Ran? && |Scan(tr[..n]).open| == d + 1 ==> tr[n].tool == Scan(tr[..n]).open[d].tool)
  {
  }

  lemma {:induction false} StartedRan(tr: seq<Event>, i: nat, d: nat)
    requires OpenSince(tr, i, d)
    ensures Scan(tr).open[d].started <==> exists k: nat :: RunOf(tr, i, k)
  {
    var n := |tr| - 1;
    OpenerIs(tr, i, d);
    if i < n {
      var before := tr[..n];
      LevelStarts(tr, i, d);
      OpenerIs(before, i, d);
      StartedRan(before, i, d);
      RunOfPrefix(tr, n, i);
      hide Scan, OpenSince;
      if tr[n].Ran? && |Scan(before).open| == d + 1 {
        assert RunOf(tr, i, n);
      } else {
        assert !RunOf(tr, i, n);
      }
    }
  }

  predicate NoHaltSeen(tr: seq<Event>, i: nat, j: nat) {
    forall k :: i < k < j && k < |tr| ==> !SawHalt(tr[k])
  }

  lemma {:induction false} StaysLive(tr: seq<Event>, i: nat, d: nat)
    requires OpenSince(tr, i, d) && tr[i].Attempted? && tr[i].logged && NoHaltSeen(tr, i, |tr|) && !Scan(tr).mode.Dead?
    ensures Scan(tr).mode.Live?
  {
    var n := |tr| - 1;
    if i < n {
      StaysLive(tr[..n], i, d);
    }
  }

  /**
    Between the attempt of a registered tool and its result the tool runs exactly once, unless a halt
    was seen in between; an unregistered tool never runs.
   */
  lemma RunsBetween(tr: seq<Event>, i: nat, j: nat)
    requires Accepted(tr) && Closes(tr, i, j)
    ensures tr[i].known && NoHaltSeen(tr, i, j) ==> exists k: nat :: k < j && RunOf(tr, i, k)
    ensures !tr[i].known ==> forall k: nat :: k < j ==> !RunOf(tr, i, k)
    ensures forall k: nat, l: nat :: k < l < j ==> !(RunOf(tr, i, k) && RunOf(tr, i, l))
  {
    var d, before := tr[i].depth, tr[..j];
    StepAt(tr, j);
    OpenerIs(before, i, d);
    StartedRan(before, i, d);
    RunOfPrefix(tr, j, i);
    LoggedWhileOpen(tr, i, j, d);
    if tr[i].known && NoHaltSeen(tr, i, j) {
      StaysLive(before, i, d);
      var k: nat :| RunOf(before, i, k);
      assert k < j;
    }
    if !tr[i].known {
      UnknownNeverStarts(before, i, d);
    }
    forall k: nat, l: nat | k < l < j
      ensures !(RunOf(tr, i, k) && RunOf(tr, i, l))
    {
      OneRun(tr, i, k, l);
    }
  }

  lemma {:induction false} UnknownNeverStarts(tr: seq<Event>, i: nat, d: nat)
    requires OpenSince(tr, i, d) && tr[i].Attempted? && !tr[i].known
    ensures !Scan(tr).open[d].started
  {
    var n := |tr| - 1;
    if i < n {
      OpenerIs(tr[..n], i, d);
      UnknownNeverStarts(tr[..n], i, d);
    }
  }

  lemma OneRun(tr: seq<Event>, i: nat, k: nat, l: nat)
    requires Accepted(tr) && k < l
    ensures !(RunOf(tr, i, k) && RunOf(tr, i, l))
  {
    if RunOf(tr, i, k) && RunOf(tr, i, l) {
      StepAt(tr, k);
      StepAt(tr, l);
      assert tr[..l][..k] == tr[..k];
      RunsOnce(tr, i, k, l);
    }
  }

  /** Sub-runs never nest deeper than one level. */
  lemma {:induction false} DepthBound(tr: seq<Event>)
    requires Accepted(tr)
    ensures |Scan(tr).open| <= MAX_TASK_DEPTH + 1
    ensures forall e <- tr :: (e.Attempted? || e.Generated?) ==> e.depth <= MAX_TASK_DEPTH
  {
    if tr != [] {
      var n := |tr| - 1;
      DepthBound(tr[..n]);
      assert tr == tr[..n] + [tr[n]];
    }
  }
}
