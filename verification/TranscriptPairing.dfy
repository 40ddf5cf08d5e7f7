/** Every request of a run is a transcript a provider accepts. */
module TranscriptPairing {
  import opened Wrappers
  import opened Schema
  import opened LoopSpec
  import opened Sequences
  import History

  // ---- Building blocks ------------------------------------------------------

  lemma WellPairedConcat(a: seq<Message>, b: seq<Message>)
    requires WellPaired(a) && WellPaired(b)
    ensures WellPaired(a + b)
  {
    var t := a + b;
    forall i | 0 <= i < |t| && t[i].ToolCalls() != []
      ensures ResultsFollow(t, i)
    {
      if i < |a| {
        assert ResultsFollow(a, i);
        assert t[i] == a[i];
      } else {
        assert t[i] == b[i - |a|];
        assert ResultsFollow(b, i - |a|);
      }
    }
  }

  lemma ResultsHaveNoCalls(done: seq<Dispatched>)
    ensures |Results(done)| == |done|
    ensures forall m <- Results(done) :: m.ToolCalls() == []
  {
    forall m | m in Results(done)
      ensures m.ToolCalls() == []
    {
      History.PlainCalls(m.content);
    }
  }

  lemma PlainPaired(t: seq<Message>)
    requires forall m <- t :: m.ToolCalls() == []
    ensures WellPaired(t)
  {
  }

  lemma TurnPaired(m: Message, done: seq<Dispatched>)
    requires Answers(done, m.ToolCalls()) && |done| == |m.ToolCalls()|
    ensures WellPaired([m] + Results(done))
  {
    hide CallsOf;
    ResultsHaveNoCalls(done);
    var t := [m] + Results(done);
    forall i | 0 < i < |t|
      ensures t[i].ToolCalls() == []
    {
      assert t[i] == Results(done)[i - 1];
    }
  }

  lemma ProjectionPlain(m: Message)
    ensures forall p <- Projection(m) :: p.ToolCalls() == [] && (m.Text() != "" ==> !BlankTurn(Some(p)))
  {
    if !Blank(m.Text()) {
      var p := Projection(m)[0];
      History.PlainCalls(p.content);
      assert p.content[|p.content| - 1] == TextBlock(m.Text());
      TextOfProjection(p.content, m.Text());
    }
  }

  lemma TextOfProjection(bs: seq<Block>, text: string)
    requires bs == [TextBlock(text)] || (|bs| == 2 && bs[0].ReasoningBlock? && bs[1] == TextBlock(text))
    ensures TextOf(bs) == text
  {
    if |bs| == 2 {
      assert bs[1..] == [TextBlock(text)];
    }
    assert TextOf([TextBlock(text)]) == text + TextOf([]);
  }

  lemma DirectivePlain(text: string)
    ensures UserMessage(text).ToolCalls() == [] && UserMessage(text).Text() == text
  {
    History.PlainCalls(UserMessage(text).content);
    TextOfProjection(UserMessage(text).content, text);
  }

  lemma DeltaPaired(ceiling: nat, before: Log, r: Round)
    requires GoesOn(ceiling, before, r)
    ensures WellPaired(Delta(r))
  {
    match Classify(r.reply.gen)
    case RetryBlank =>
      DirectivePlain(EMPTY_TURN_DIRECTIVE);
      PlainPaired(Delta(r));
    case CutOff =>
      DirectivePlain(TRUNCATED_CALLS_DIRECTIVE);
      ProjectionPlain(r.reply.gen.message.value);
      PlainPaired(Delta(r));
    case Working =>
      TurnPaired(r.reply.gen.message.value, r.done);
  }

  // ---- Every request of the loop --------------------------------------------

  lemma {:induction false} DeltasPaired(ceiling: nat, seed: seq<Message>, log: Log)
    requires Passed(ceiling, seed, log)
    ensures WellPaired(Deltas(log))
  {
    if log.Snoc? {
      DeltasPaired(ceiling, seed, log.front);
      DeltaPaired(ceiling, log.front, log.last);
      WellPairedConcat(Deltas(log.front), Delta(log.last));
    }
  }

  /**
    Every request is well paired, whatever the call IDs are: each assistant message with
    calls is followed at once by their results, in call order.
   */
  lemma RequestsPaired(ceiling: nat, seed: seq<Message>, log: Log)
    requires Passed(ceiling, seed, log) && WellPaired(seed)
    ensures WellPaired(seed + Deltas(log))
    ensures forall r <- log.Rounds() :: WellPaired(r.sent)
  {
    DeltasPaired(ceiling, seed, log);
    WellPairedConcat(seed, Deltas(log));
    if log.Snoc? {
      RequestsPaired(ceiling, seed, log.front);
    }
  }

  /** Requests only grow: each extends every earlier one, and the seed. */
  lemma {:induction false} RequestsExtend(ceiling: nat, seed: seq<Message>, log: Log, i: nat, j: nat)
    requires Passed(ceiling, seed, log) && i <= j < log.Length()
    ensures seed <= log.Rounds()[i].sent && log.Rounds()[i].sent <= log.Rounds()[j].sent
    ensures log.Rounds()[j].sent <= seed + Deltas(log)
  {
    var front := log.front;
    LongerPrefix(seed, Deltas(front), Deltas(log));
    if j < front.Length() {
      RequestsExtend(ceiling, seed, front, i, j);
    } else if i < front.Length() {
      RequestsExtend(ceiling, seed, front, i, front.Length() - 1);
    }
  }

  lemma LongerPrefix<T>(p: seq<T>, a: seq<T>, b: seq<T>)
    requires a <= b
    ensures p + a <= p + b
  {
  }

  /** m came back from a call the output limit did not cut, in one of the rounds. */
  ghost predicate AcceptedFrom(m: Message, rs: seq<Round>) {
    exists r <- rs :: r.reply.Got? && r.reply.gen.message == Some(m) && r.reply.gen.stop != StopLength
  }

  predicate IsToolResult(m: Message) { m.role == Tool && |m.content| == 1 && m.content[0].ResultBlock? }

  /** What the run may append: a result, or a turn that is not blank, its calls from an uncut reply. */
  ghost predicate MayAppend(m: Message, rs: seq<Round>) {
    (IsToolResult(m) || !BlankTurn(Some(m))) && (m.ToolCalls() == [] || AcceptedFrom(m, rs))
  }

  /** The rounds a run went on after append no blank turn, and no call of a turn cut at the output limit. */
  lemma {:induction false} AppendsAreUsable(ceiling: nat, seed: seq<Message>, log: Log)
    requires Passed(ceiling, seed, log)
    ensures forall m <- Deltas(log) :: MayAppend(m, log.Rounds())
  {
    if log.Snoc? {
      AppendsAreUsable(ceiling, seed, log.front);
      DeltaUsable(log.last);
      forall m | m in Deltas(log)
        ensures MayAppend(m, log.Rounds())
      {
        if m in Delta(log.last) {
          MoreRounds(m, [log.last], log.Rounds());
        } else {
          MoreRounds(m, log.front.Rounds(), log.Rounds());
        }
      }
    }
  }

  lemma MoreRounds(m: Message, rs: seq<Round>, all: seq<Round>)
    requires MayAppend(m, rs) && forall r <- rs :: r in all
    ensures MayAppend(m, all)
  {
  }

  lemma NotBlank(s: string)
    requires s != "" && s[|s| - 1] == '.'
    ensures !Blank(s)
  {
    assert s[|s| - 1] in s;
  }

  lemma DeltaUsable(r: Round)
    ensures forall m <- Delta(r) :: MayAppend(m, [r])
  {
    hide CallsOf, TextOf;
    if r.reply.Got? {
      match Classify(r.reply.gen)
      case RetryBlank =>
        DirectivePlain(EMPTY_TURN_DIRECTIVE);
        NotBlank(EMPTY_TURN_DIRECTIVE);
      case CutOff =>
        DirectivePlain(TRUNCATED_CALLS_DIRECTIVE);
        NotBlank(TRUNCATED_CALLS_DIRECTIVE);
        ProjectionPlain(r.reply.gen.message.value);
      case Working =>
        ResultsHaveNoCalls(r.done);
        assert r in [r];
      case Final =>
        assert r in [r];
      case Futile(_) =>
    }
  }

  // ---- The summary request --------------------------------------------------

  lemma {:induction false} CallsConcat(a: seq<Message>, b: seq<Message>)
    ensures AllCalls(a + b) == AllCalls(a) + AllCalls(b)
  {
    hide CallsOf;
    if a == [] {
      assert a + b == b;
      assert [] + AllCalls(b) == AllCalls(b);
    } else {
      CallsConcat(a[1..], b);
      CallsCons(a + b);
      CallsCons(a);
      hide AllCalls;
      assert (a + b)[0] == a[0] && (a + b)[1..] == a[1..] + b;
      Regroup(a[0].ToolCalls(), AllCalls(a[1..]), AllCalls(b));
    }
  }

  lemma CallsCons(t: seq<Message>)
    requires t != []
    ensures AllCalls(t) == t[0].ToolCalls() + AllCalls(t[1..])
  {
  }

  lemma {:induction false} PlainCalls(t: seq<Message>)
    requires forall m <- t :: m.ToolCalls() == []
    ensures AllCalls(t) == []
  {
    if t != [] {
      PlainCalls(t[1..]);
    }
  }

  lemma {:induction false} SyntheticShape(calls: seq<ToolCall>, answered: set<string>)
    ensures forall m <- Synthetic(calls, answered) :: m.ToolCalls() == [] && IsToolResult(m)
    ensures forall c <- calls :: c.id in answered + AllResultIds(Synthetic(calls, answered))
  {
    if calls != [] {
      var c := calls[0];
      if c.id in answered {
        SyntheticShape(calls[1..], answered);
      } else {
        var head := ToolMessage(SYNTHETIC_HALT_RESULT, c.id);
        var rest := Synthetic(calls[1..], answered + {c.id});
        History.PlainCalls(head.content);
        SyntheticShape(calls[1..], answered + {c.id});
        assert head in [head] + rest && head.content[0] in head.content;
        assert c.id in head.ResultIds();
        forall d | d in calls
          ensures d.id in answered + AllResultIds([head] + rest)
        {
          assert d == c || d in calls[1..];
        }
      }
    }
  }

  /** The summary request answers every tool-call ID in it, wherever the halt fell and whatever the IDs are. */
  lemma SummaryAnswersEveryCall(t: seq<Message>)
    ensures EveryCallAnswered(Summary(t))
    ensures t <= Summary(t)
  {
    var syn := Synthetic(AllCalls(t), AllResultIds(t));
    var directive := UserMessage(STOP_SUMMARY_DIRECTIVE);
    SyntheticShape(AllCalls(t), AllResultIds(t));
    DirectivePlain(STOP_SUMMARY_DIRECTIVE);
    PlainCalls(syn + [directive]);
    assert Summary(t) == t + (syn + [directive]);
    CallsConcat(t, syn + [directive]);
    assert AllResultIds(t) <= AllResultIds(Summary(t));
    assert AllResultIds(syn) <= AllResultIds(Summary(t));
  }

  predicate Distinct(ids: seq<ToolCall>) {
    forall i, j :: 0 <= i < j < |ids| ==> ids[i].id != ids[j].id
  }

  /** Every pending call is new: no two share an ID, and no ID has a result already. */
  predicate Fresh(calls: seq<ToolCall>, answered: set<string>) {
    Distinct(calls) && forall c <- calls :: c.id !in answered
  }

  lemma {:induction false} SyntheticLength(calls: seq<ToolCall>, answered: set<string>)
    ensures |Synthetic(calls, answered)| <= |calls|
    ensures |Synthetic(calls, answered)| == |calls| <==> Fresh(calls, answered)
    ensures Fresh(calls, answered) ==>
              forall k :: 0 <= k < |calls| ==> IsResultFor(Synthetic(calls, answered)[k], calls[k].id)
  {
    if calls != [] {
      var c, rest := calls[0], calls[1..];
      if c.id in answered {
        SyntheticLength(rest, answered);
        assert c in calls;
      } else {
        SyntheticLength(rest, answered + {c.id});
        assert Fresh(calls, answered) <==> Fresh(rest, answered + {c.id}) by {
          FreshCons(calls, answered);
        }
      }
    }
  }

  lemma FreshCons(calls: seq<ToolCall>, answered: set<string>)
    requires calls != [] && calls[0].id !in answered
    ensures Fresh(calls, answered) <==> Fresh(calls[1..], answered + {calls[0].id})
  {
    var c, rest := calls[0], calls[1..];
    if Fresh(calls, answered) {
      forall d | d in rest
        ensures d.id !in answered + {c.id}
      {
        var k :| 0 <= k < |rest| && rest[k] == d;
        assert calls[k + 1] == d;
      }
      forall i, j | 0 <= i < j < |rest|
        ensures rest[i].id != rest[j].id
      {
        assert calls[i + 1].id != calls[j + 1].id;
      }
    }
    if Fresh(rest, answered + {c.id}) {
      forall d | d in calls
        ensures d.id !in answered
      {
        assert d == c || d in rest;
      }
      forall i, j | 0 <= i < j < |calls|
        ensures calls[i].id != calls[j].id
      {
        if i == 0 {
          assert rest[j - 1] in rest;
        } else {
          assert rest[i - 1].id != rest[j - 1].id;
        }
      }
    }
  }

  lemma {:induction false} SkipAnswered(a: seq<ToolCall>, b: seq<ToolCall>, answered: set<string>)
    requires forall c <- a :: c.id in answered
    ensures Synthetic(a + b, answered) == Synthetic(b, answered)
  {
    if a == [] {
      assert a + b == b;
    } else {
      assert (a + b)[0] == a[0] && (a + b)[1..] == a[1..] + b;
      SkipAnswered(a[1..], b, answered);
    }
  }

  lemma PairedCallsAnswered(t: seq<Message>, u: seq<Message>)
    requires WellPaired(t) && t <= u
    ensures forall c <- AllCalls(t) :: c.id in AllResultIds(u)
  {
    forall c | c in AllCalls(t)
      ensures c.id in AllResultIds(u)
    {
      var i := CallSite(t, c);
      var k :| 0 <= k < |t[i].ToolCalls()| && t[i].ToolCalls()[k] == c;
      assert ResultsFollow(t, i);
      var m := t[i + 1 + k];
      assert m.content[0] in m.content && c.id in m.ResultIds() && u[i + 1 + k] == m && m in u;
    }
  }

  lemma {:induction false} CallSite(t: seq<Message>, c: ToolCall) returns (i: nat)
    requires c in AllCalls(t)
    ensures i < |t| && c in t[i].ToolCalls()
  {
    if c in t[0].ToolCalls() {
      i := 0;
    } else {
      i := CallSite(t[1..], c);
      i := i + 1;
    }
  }

  /**
    A halt that falls inside a batch leaves the calls after it pending. The summary request
    is then well paired exactly when the pending IDs are new in the whole transcript; IDs
    that are unique only within their own batch are not enough.
   */
  lemma SummaryPaired(base: seq<Message>, m: Message, done: seq<Dispatched>)
    requires WellPaired(base) && Answers(done, m.ToolCalls())
    ensures var t := base + [m] + Results(done);
            WellPaired(Summary(t)) <==> Fresh(m.ToolCalls()[|done|..], AllResultIds(t))
  {
    var t := base + [m] + Results(done);
    var pending := m.ToolCalls()[|done|..];
    var syn, directive := Synthetic(pending, AllResultIds(t)), UserMessage(STOP_SUMMARY_DIRECTIVE);
    SummaryShape(base, m, done);
    SyntheticLength(pending, AllResultIds(t));
    ResultsHaveNoCalls(done);
    if Fresh(pending, AllResultIds(t)) {
      SummaryTailPlain(m, done, pending, AllResultIds(t));
      TailPaired(m, done, syn, directive);
      WellPairedConcat(base, [m] + Results(done) + syn + [directive]);
    } else {
      TailNotPaired(base, m, done, syn, directive);
    }
  }

  lemma SummaryShape(base: seq<Message>, m: Message, done: seq<Dispatched>)
    requires WellPaired(base) && Answers(done, m.ToolCalls())
    ensures var t := base + [m] + Results(done);
            var syn := Synthetic(m.ToolCalls()[|done|..], AllResultIds(t));
            Summary(t) == base + ([m] + Results(done) + syn + [UserMessage(STOP_SUMMARY_DIRECTIVE)])
  {
    PendingOnly(base, m, done);
    var t := base + [m] + Results(done);
    Reassociate(base, [m], Results(done), Synthetic(m.ToolCalls()[|done|..], AllResultIds(t)),
                [UserMessage(STOP_SUMMARY_DIRECTIVE)]);
  }

  lemma Reassociate<T>(a: seq<T>, b: seq<T>, c: seq<T>, d: seq<T>, e: seq<T>)
    ensures a + b + c + d + e == a + (b + c + d + e)
  {
  }

  lemma SummaryTailPlain(m: Message, done: seq<Dispatched>, pending: seq<ToolCall>, answered: set<string>)
    ensures forall r <- Results(done) + Synthetic(pending, answered) + [UserMessage(STOP_SUMMARY_DIRECTIVE)] ::
              r.ToolCalls() == []
  {
    ResultsHaveNoCalls(done);
    SyntheticShape(pending, answered);
    DirectivePlain(STOP_SUMMARY_DIRECTIVE);
  }

  lemma TailNotPaired(base: seq<Message>, m: Message, done: seq<Dispatched>, syn: seq<Message>, directive: Message)
    requires |Results(done)| == |done| && |done| + |syn| < |m.ToolCalls()| && directive.role == User
    ensures !WellPaired(base + ([m] + Results(done) + syn + [directive]))
  {
    var u := base + ([m] + Results(done) + syn + [directive]);
    var k := |done| + |syn|;
    assert u[|base|] == m && u[|base| + 1 + k] == directive;
    assert !IsResultFor(u[|base| + 1 + k], m.ToolCalls()[k].id);
  }

  lemma TailPaired(m: Message, done: seq<Dispatched>, syn: seq<Message>, directive: Message)
    requires Answers(done, m.ToolCalls()) && |syn| == |m.ToolCalls()| - |done| && |Results(done)| == |done|
    requires forall k :: 0 <= k < |syn| ==> IsResultFor(syn[k], m.ToolCalls()[|done| + k].id)
    requires forall r <- Results(done) + syn + [directive] :: r.ToolCalls() == []
    ensures WellPaired([m] + Results(done) + syn + [directive])
  {
    hide CallsOf, IsResultFor;
    var tail := [m] + Results(done) + syn + [directive];
    forall i | 0 < i < |tail|
      ensures tail[i].ToolCalls() == []
    {
      assert tail[i] == (Results(done) + syn + [directive])[i - 1];
    }
    TailFollows(m, done, syn, directive);
  }

  lemma TailFollows(m: Message, done: seq<Dispatched>, syn: seq<Message>, directive: Message)
    requires Answers(done, m.ToolCalls()) && |syn| == |m.ToolCalls()| - |done| && |Results(done)| == |done|
    requires forall k :: 0 <= k < |syn| ==> IsResultFor(syn[k], m.ToolCalls()[|done| + k].id)
    ensures ResultsFollow([m] + Results(done) + syn + [directive], 0)
  {
    var cs, tail := m.ToolCalls(), [m] + Results(done) + syn + [directive];
    forall k | 0 <= k < |cs|
      ensures IsResultFor(tail[1 + k], cs[k].id)
    {
      if k < |done| {
        assert tail[1 + k] == Results(done)[k];
      } else {
        assert tail[1 + k] == syn[k - |done|];
      }
    }
  }

  lemma DoneAnswered(base: seq<Message>, m: Message, done: seq<Dispatched>)
    requires Answers(done, m.ToolCalls())
    ensures forall c <- m.ToolCalls()[..|done|] :: c.id in AllResultIds(base + [m] + Results(done))
  {
    hide CallsOf;
    var t := base + [m] + Results(done);
    var cs := m.ToolCalls();
    forall c | c in cs[..|done|]
      ensures c.id in AllResultIds(t)
    {
      var k :| 0 <= k < |done| && cs[k] == c;
      var r := t[|base| + 1 + k];
      assert r == Results(done)[k] && r.content[0] in r.content && c.id in r.ResultIds() && r in t;
    }
  }

  lemma CallsOfTurn(base: seq<Message>, m: Message, done: seq<Dispatched>)
    requires |done| <= |m.ToolCalls()|
    ensures AllCalls(base + [m] + Results(done)) == (AllCalls(base) + m.ToolCalls()[..|done|]) + m.ToolCalls()[|done|..]
  {
    hide CallsOf, Results;
    var cs := m.ToolCalls();
    ResultsHaveNoCalls(done);
    PlainCalls(Results(done));
    CallsConcat(base + [m], Results(done));
    CallsConcat(base, [m]);
    assert AllCalls([m]) == cs;
    hide AllCalls;
    assert cs[..|done|] + cs[|done|..] == cs;
    Regroup(AllCalls(base), cs[..|done|], cs[|done|..]);
  }

  lemma PendingOnly(base: seq<Message>, m: Message, done: seq<Dispatched>)
    requires WellPaired(base) && Answers(done, m.ToolCalls())
    ensures var t := base + [m] + Results(done);
            Synthetic(AllCalls(t), AllResultIds(t)) == Synthetic(m.ToolCalls()[|done|..], AllResultIds(t))
  {
    var t := base + [m] + Results(done);
    var cs := m.ToolCalls();
    assert base <= t;
    PairedCallsAnswered(base, t);
    DoneAnswered(base, m, done);
    CallsOfTurn(base, m, done);
    hide CallsOf, Synthetic, AllResultIds, AllCalls, Results, WellPaired;
    var front := AllCalls(base) + cs[..|done|];
    assert forall c <- front :: c in AllCalls(base) || c in cs[..|done|];
    SkipAnswered(front, cs[|done|..], AllResultIds(t));
  }

  /** The reuse that breaks the pairing: an ID answered in an earlier batch is pending again. */
  lemma ReusedIdBreaksPairing(first: Message, m: Message, answer: Dispatched, done: Dispatched)
    requires first.ToolCalls() == [ToolCall("a", "t", "")] && answer.id == "a"
    requires m.ToolCalls() == [ToolCall("b", "t", ""), ToolCall("a", "t", "")] && done.id == "b"
    ensures WellPaired([first] + Results([answer])) && Answers([done], m.ToolCalls()) && Distinct(m.ToolCalls())
    ensures !WellPaired(Summary([first] + Results([answer]) + [m] + Results([done])))
  {
    var base := [first] + Results([answer]);
    TurnPaired(first, [answer]);
    SummaryPaired(base, m, [done]);
    var t := base + [m] + Results([done]);
    var r := t[1];
    assert r == ToolMessage(answer.result, "a") && r in t && r.content[0] in r.content && "a" in r.ResultIds();
    assert "a" in AllResultIds(t);
    assert m.ToolCalls()[1] in m.ToolCalls()[1..];
  }

  // ---- Whole runs -----------------------------------------------------------

  lemma SummaryTurn(ceiling: nat, passed: Log, last: Round)
    requires Stuck(ceiling, passed, last) && Answers(last.done, last.Calls())
    ensures last.reply.Got? && last.reply.gen.message.Some?
    ensures var m := last.reply.gen.message.value;
            last.Calls() == m.ToolCalls() && TurnAfter(last) == last.sent + [m] + Results(last.done)
  {
    hide BelowCeiling, Exhausted, CallsOf, TextOf;
    var m := last.reply.gen.message.value;
    assert last.sent + ([m] + Results(last.done)) == last.sent + [m] + Results(last.done);
  }

  /** What Run starts a turn from is well paired, whatever the history records. */
  lemma SeedPaired(system: string, records: seq<History.Recorded>, question: string)
    requires History.Complete(records)
    ensures WellPaired([SystemMessage(system)] + History.RenderAll(records) + [UserMessage(question)])
  {
    var h := History.RenderAll(records);
    History.HistoryAlternates(records);
    History.AlternatingPlain(h);
    History.PlainCalls(SystemMessage(system).content);
    DirectivePlain(question);
    PlainPaired([SystemMessage(system)] + h + [UserMessage(question)]);
  }

  function AllRounds(passed: Log, last: Option<Round>): seq<Round> {
    passed.Rounds() + if last.Some? then [last.value] else []
  }

  /** Every request of a run, in order, the summary's last. */
  function Sent(rounds: seq<Round>, summary: Option<Exchange>): seq<seq<Message>> {
    seq(|rounds|, i requires 0 <= i < |rounds| => rounds[i].sent) +
    if summary.Some? then [summary.value.sent] else []
  }

  lemma {:induction false} GrowTo(ceiling: nat, seed: seq<Message>, log: Log, i: nat)
    requires Passed(ceiling, seed, log) && i < log.Length()
    ensures seed <= log.Rounds()[i].sent <= seed + Deltas(log)
  {
    RequestsExtend(ceiling, seed, log, i, i);
  }

  lemma SentAt(passed: Log, last: Option<Round>, summary: Option<Exchange>, i: nat)
    requires (summary.Some? ==> last.Some?) && i < |Sent(AllRounds(passed, last), summary)|
    ensures var q := Sent(AllRounds(passed, last), summary)[i];
            if i < passed.Length() then q == passed.Rounds()[i].sent
            else if i == passed.Length() then last.Some? && q == last.value.sent
            else summary.Some? && q == summary.value.sent
  {
  }

  predicate Growing(seed: seq<Message>, qs: seq<seq<Message>>) {
    forall i, j :: 0 <= i <= j < |qs| ==> seed <= qs[i] <= qs[j]
  }

  /** Past the seed, every request holds only what may be appended. */
  ghost predicate Usable(seed: seq<Message>, qs: seq<seq<Message>>, rounds: seq<Round>) {
    forall i, m :: 0 <= i < |qs| && seed <= qs[i] && m in qs[i][|seed|..] ==> MayAppend(m, rounds)
  }

  /** Each request of a run extends the seed and every request before it. */
  lemma RequestsGrow(ceiling: nat, maxIter: nat, seed: seq<Message>, passed: Log, last: Option<Round>,
                     summary: Option<Exchange>, end: RunEnd, host: bool, i: nat, j: nat)
    requires Concludes(ceiling, maxIter, seed, passed, last, summary, end, host)
    requires i <= j < |Sent(AllRounds(passed, last), summary)|
    ensures var qs := Sent(AllRounds(passed, last), summary); seed <= qs[i] <= qs[j]
  {
    var n := passed.Length();
    ConcludesParts(ceiling, maxIter, seed, passed, last, summary, end, host);
    SentAt(passed, last, summary, i);
    SentAt(passed, last, summary, j);
    hide Concludes, Passed, Deltas, Sent, AllRounds;
    if i < n {
      GrowTo(ceiling, seed, passed, i);
      if j < n {
        RequestsExtend(ceiling, seed, passed, i, j);
      }
    }
  }

  /** What the end of a run says of its requests. */
  lemma ConcludesParts(ceiling: nat, maxIter: nat, seed: seq<Message>, passed: Log, last: Option<Round>,
                       summary: Option<Exchange>, end: RunEnd, host: bool)
    requires Concludes(ceiling, maxIter, seed, passed, last, summary, end, host)
    ensures Passed(ceiling, seed, passed)
    ensures last.Some? ==> last.value.sent == seed + Deltas(passed) && Answers(last.value.done, last.value.Calls())
    ensures summary.Some? ==>
              && last.Some? && Stuck(ceiling, passed, last.value)
              && summary.value.sent == Summary(TurnAfter(last.value)) && last.value.sent <= summary.value.sent
  {
    hide Passed, Stuck, BelowCeiling, Deltas, Delta, KindOf, CountersAfter, AllCalls, AllResultIds, Synthetic;
  }

  lemma StopDirectiveUsable()
    ensures MayAppend(UserMessage(STOP_SUMMARY_DIRECTIVE), [])
  {
    DirectivePlain(STOP_SUMMARY_DIRECTIVE);
    NotBlank(STOP_SUMMARY_DIRECTIVE);
  }

  lemma SummaryUsable(t: seq<Message>)
    ensures forall m <- Summary(t)[|t|..] :: MayAppend(m, [])
  {
    var syn := Synthetic(AllCalls(t), AllResultIds(t));
    assert Summary(t)[|t|..] == syn + [UserMessage(STOP_SUMMARY_DIRECTIVE)];
    hide Summary, BlankTurn, TextOf, CallsOf, AcceptedFrom;
    SyntheticShape(AllCalls(t), AllResultIds(t));
    StopDirectiveUsable();
  }

  /** All that a run adds to its seed before a request: no blank turn, no call of a turn cut at the output limit. */
  lemma AddedUsable(ceiling: nat, maxIter: nat, seed: seq<Message>, passed: Log, last: Option<Round>,
                    summary: Option<Exchange>, end: RunEnd, host: bool, i: nat, m: Message)
    requires Concludes(ceiling, maxIter, seed, passed, last, summary, end, host)
    requires i < |Sent(AllRounds(passed, last), summary)|
    requires var q := Sent(AllRounds(passed, last), summary)[i]; seed <= q && m in q[|seed|..]
    ensures MayAppend(m, AllRounds(passed, last))
  {
    var rounds := AllRounds(passed, last);
    var q := Sent(rounds, summary)[i];
    ConcludesParts(ceiling, maxIter, seed, passed, last, summary, end, host);
    AppendsAreUsable(ceiling, seed, passed);
    SentAt(passed, last, summary, i);
    hide Concludes, Passed, Deltas, MayAppend, Delta, Summary, Stuck, Sent;
    if i < passed.Length() {
      GrowTo(ceiling, seed, passed, i);
      InTail(seed, q, Deltas(passed), m);
      MoreRounds(m, passed.Rounds(), rounds);
    } else if i == passed.Length() && last.Some? {
      InTail(seed, q, Deltas(passed), m);
      MoreRounds(m, passed.Rounds(), rounds);
    } else {
      SummaryTail(seed, passed, last.value, m);
    }
  }

  lemma InTail(seed: seq<Message>, q: seq<Message>, added: seq<Message>, m: Message)
    requires seed <= q <= seed + added && m in q[|seed|..]
    ensures m in added
  {
    var k :| 0 <= k < |q| - |seed| && q[|seed|..][k] == m;
    assert q[|seed| + k] == (seed + added)[|seed| + k];
  }

  /** What the summary request adds to the seed, in three parts. */
  lemma SummaryParts(seed: seq<Message>, passed: Log, last: Round)
    requires last.sent == seed + Deltas(passed)
    ensures var t := TurnAfter(last);
            |t| <= |Summary(t)| &&
            Summary(t)[|seed|..] == Deltas(passed) + Delta(last) + Summary(t)[|t|..]
  {
    var t := TurnAfter(last);
    SummaryAnswersEveryCall(t);
    hide Summary, Deltas, Delta;
    ThreeParts(seed, Deltas(passed), Delta(last), Summary(t));
  }

  lemma ThreeParts<T>(a: seq<T>, b: seq<T>, c: seq<T>, whole: seq<T>)
    requires a + b + c <= whole
    ensures whole[|a|..] == b + c + whole[|a + b + c|..]
  {
  }

  lemma SummaryTail(seed: seq<Message>, passed: Log, last: Round, m: Message)
    requires last.sent == seed + Deltas(passed) && forall d <- Deltas(passed) :: MayAppend(d, passed.Rounds())
    requires m in Summary(TurnAfter(last))[|seed|..]
    ensures MayAppend(m, AllRounds(passed, Some(last)))
  {
    var t, rounds := TurnAfter(last), AllRounds(passed, Some(last));
    assert rounds == passed.Rounds() + [last];
    SummaryUsable(t);
    DeltaUsable(last);
    SummaryParts(seed, passed, last);
    hide Summary, MayAppend, Deltas, Delta, TurnAfter, AllRounds;
    var tail := Summary(t)[|t|..];
    if m in Deltas(passed) {
      MoreRounds(m, passed.Rounds(), rounds);
    } else if m in Delta(last) {
      MoreRounds(m, [last], rounds);
    } else {
      assert m in tail;
      MoreRounds(m, [], rounds);
    }
  }

  /**
    Of any run, however it ends, and all its requests, the summary's included: each extends the seed and
    the ones before it, adds only usable messages, and answers every call ID. Those of the loop are well
    paired; the summary's is exactly when the IDs of the calls it left undispatched are new.
   */
  lemma RunTranscripts(ceiling: nat, maxIter: nat, seed: seq<Message>, passed: Log, last: Option<Round>,
                       summary: Option<Exchange>, end: RunEnd, host: bool)
    requires Concludes(ceiling, maxIter, seed, passed, last, summary, end, host) && WellPaired(seed)
    ensures var rounds := AllRounds(passed, last);
            var qs := Sent(rounds, summary);
            && Growing(seed, qs) && Usable(seed, qs, rounds)
            && (forall i :: 0 <= i < |qs| ==> EveryCallAnswered(qs[i]))
            && (forall i :: 0 <= i < |rounds| ==> WellPaired(qs[i]))
    ensures summary.Some? ==>
              && last.Some?
              && (WellPaired(summary.value.sent) <==>
                  Fresh(last.value.Calls()[|last.value.done|..], AllResultIds(TurnAfter(last.value))))
  {
    var rounds := AllRounds(passed, last);
    var qs := Sent(rounds, summary);
    AllGrow(ceiling, maxIter, seed, passed, last, summary, end, host);
    AllUsable(ceiling, maxIter, seed, passed, last, summary, end, host);
    ConcludesParts(ceiling, maxIter, seed, passed, last, summary, end, host);
    RequestsPaired(ceiling, seed, passed);
    hide Concludes, WellPaired, Stuck, Deltas, Passed, Fresh, EveryCallAnswered, Summary, TurnAfter, Growing, Usable;
    RoundsPaired(passed, last, summary);
    if summary.Some? {
      SummaryOfRun(ceiling, passed, last.value, summary.value.sent);
    }
  }

  lemma AllGrow(ceiling: nat, maxIter: nat, seed: seq<Message>, passed: Log, last: Option<Round>,
                summary: Option<Exchange>, end: RunEnd, host: bool)
    requires Concludes(ceiling, maxIter, seed, passed, last, summary, end, host)
    ensures Growing(seed, Sent(AllRounds(passed, last), summary))
  {
    hide Concludes, Sent, AllRounds;
    var qs := Sent(AllRounds(passed, last), summary);
    forall i, j | 0 <= i <= j < |qs|
      ensures seed <= qs[i] <= qs[j]
    {
      RequestsGrow(ceiling, maxIter, seed, passed, last, summary, end, host, i, j);
    }
  }

  lemma AllUsable(ceiling: nat, maxIter: nat, seed: seq<Message>, passed: Log, last: Option<Round>,
                  summary: Option<Exchange>, end: RunEnd, host: bool)
    requires Concludes(ceiling, maxIter, seed, passed, last, summary, end, host)
    ensures Usable(seed, Sent(AllRounds(passed, last), summary), AllRounds(passed, last))
  {
    hide Concludes, Sent, AllRounds, MayAppend;
    var rounds := AllRounds(passed, last);
    var qs := Sent(rounds, summary);
    forall i, m | 0 <= i < |qs| && seed <= qs[i] && m in qs[i][|seed|..]
      ensures MayAppend(m, rounds)
    {
      AddedUsable(ceiling, maxIter, seed, passed, last, summary, end, host, i, m);
    }
  }

  lemma RoundsPaired(passed: Log, last: Option<Round>, summary: Option<Exchange>)
    requires forall r <- passed.Rounds() :: WellPaired(r.sent)
    requires last.Some? ==> WellPaired(last.value.sent)
    ensures var rounds := AllRounds(passed, last);
            var qs := Sent(rounds, summary);
            forall i :: 0 <= i < |rounds| ==> WellPaired(qs[i]) && EveryCallAnswered(qs[i])
  {
    hide WellPaired, EveryCallAnswered;
    var rounds := AllRounds(passed, last);
    forall i | 0 <= i < |rounds|
      ensures WellPaired(rounds[i].sent) && EveryCallAnswered(rounds[i].sent)
    {
      assert i < |passed.Rounds()| ==> rounds[i] in passed.Rounds();
      PairedAnswered(rounds[i].sent);
    }
  }

  lemma PairedAnswered(t: seq<Message>)
    ensures WellPaired(t) ==> EveryCallAnswered(t)
  {
    if WellPaired(t) {
      PairedCallsAnswered(t, t);
    }
  }

  lemma SummaryOfRun(ceiling: nat, passed: Log, last: Round, sent: seq<Message>)
    requires Stuck(ceiling, passed, last) && Answers(last.done, last.Calls()) && WellPaired(last.sent)
    requires sent == Summary(TurnAfter(last))
    ensures EveryCallAnswered(sent)
    ensures WellPaired(sent) <==> Fresh(last.Calls()[|last.done|..], AllResultIds(TurnAfter(last)))
  {
    hide WellPaired, Stuck, Delta, Fresh, EveryCallAnswered, Summary;
    SummaryTurn(ceiling, passed, last);
    SummaryAnswersEveryCall(TurnAfter(last));
    SummaryPaired(last.sent, last.reply.gen.message.value, last.done);
  }

  /** The failure streak stays below the ceiling at every dispatch of a round the run went on after. */
  lemma {:induction false} StreakBelowCeiling(ceiling: nat, before: seq<nat>, done: seq<Dispatched>, k: nat)
    requires BelowCeiling(ceiling, before, done) && 0 < k <= |done|
    ensures !Exhausted(ceiling, Streak(before + Credits(done[..k])))
  {
    if k == |done| {
      assert done[..k] == done;
    } else {
      StreakBelowCeiling(ceiling, before, done[..|done| - 1], k);
      assert done[..|done| - 1][..k] == done[..k];
    }
  }

  /** The summary comes at the first dispatch that brings the streak to the ceiling, and only there. */
  lemma SummaryAtFirstReach(ceiling: nat, maxIter: nat, seed: seq<Message>, passed: Log, last: Round,
                            summary: Option<Exchange>, end: RunEnd, host: bool, k: nat)
    requires Concludes(ceiling, maxIter, seed, passed, Some(last), summary, end, host)
    requires 0 < k <= |last.done|
    ensures k < |last.done| ==> !Exhausted(ceiling, Streak(AllCredits(passed) + Credits(last.done[..k])))
    ensures summary.Some? ==> Exhausted(ceiling, Streak(AllCredits(passed) + Credits(last.done)))
    ensures Exhausted(ceiling, Streak(AllCredits(passed) + Credits(last.done))) ==>
              summary.Some? || (end.Ended? && IsHalt(end.stop))
  {
    hide Streak, Credits, Summary, CallsOf, TextOf, Exhausted;
    if k < |last.done| {
      StreakBelowCeiling(ceiling, AllCredits(passed), last.done[..|last.done| - 1], k);
      assert last.done[..|last.done| - 1][..k] == last.done[..k];
    }
    assert last.Calls() != [];
  }
}
