/**
  The audit logger's protocol between writers, holders and one closer (internal/audit/audit.go).
  Each critical section is one step; a run is any sequence of steps, so it is any interleaving.
 */
module AuditLog {

  // ---- The protocol ---------------------------------------------------------

  datatype Write = Written | MarshalFailed | WriteFailed

  datatype Result = Nil | LogFailure | Pending(records: int) | CloseError

  /** Where the closer is. */
  datatype Closer =
    | Idle
    | Waiting(hurried: bool)
    | Stopped(pending: int)
    | WriterClosed(pending: int, ok: bool)
    | Done(result: Result)

  /**
    count and written are the logger's counter and the sequence numbers in the file; released
    has one flag for each hold granted; closes counts the closes of each drained channel made.
   */
  datatype State = State(count: nat, failed: bool, written: seq<nat>, holds: int, released: seq<bool>,
                         closes: seq<nat>, closing: bool, closer: Closer)

  datatype Op =
    | Log(write: Write)
    | Hold
    | Release(ticket: nat)
    | StartClose
    | Poll(expired: bool)
    | CloseWriter(ok: bool)
    | FinishClose

  const INITIAL := State(0, false, [], 0, [], [], false, Idle)

  function LogStep(s: State, w: Write): State {
    if s.failed then s
    else if w.Written? then s.(count := s.count + 1, written := s.written + [s.count + 1])
    else s.(count := s.count + 1, failed := true)
  }

  function HoldStep(s: State): State {
    if s.closing then s
    else s.(closes := if s.holds == 0 then s.closes + [0] else s.closes,
            holds := s.holds + 1,
            released := s.released + [false])
  }

  function ReleaseStep(s: State, ticket: nat): State {
    if ticket >= |s.released| || s.released[ticket] then s
    else
      var n := |s.closes| - 1;
      s.(released := s.released[ticket := true],
         holds := s.holds - 1,
         closes := if s.holds == 1 && n >= 0 then s.closes[n := s.closes[n] + 1] else s.closes)
  }

  /** The closer's critical section: it stops waiting at no holds, or when its time is up. */
  function PollStep(s: State, expired: bool): State {
    if s.closer.Waiting? && (s.holds == 0 || expired || s.closer.hurried)
    then s.(closing := true, closer := Stopped(s.holds))
    else s
  }

  function Verdict(failed: bool, pending: int, ok: bool): Result {
    if failed then LogFailure else if pending > 0 then Pending(pending) else if ok then Nil else CloseError
  }

  function Next(s: State, op: Op): State {
    match op
    case Log(w) => LogStep(s, w)
    case Hold => HoldStep(s)
    case Release(t) => ReleaseStep(s, t)
    case StartClose => if s.closer.Idle? then s.(closer := Waiting(s.failed)) else s
    case Poll(expired) => PollStep(s, expired)
    case CloseWriter(ok) => if s.closer.Stopped? then s.(closer := WriterClosed(s.closer.pending, ok)) else s
    case FinishClose =>
      if s.closer.WriterClosed? then s.(closer := Done(Verdict(s.failed, s.closer.pending, s.closer.ok))) else s
  }

  function Exec(s: State, ops: seq<Op>): State
    decreases |ops|
  {
    if ops == [] then s else Exec(Next(s, ops[0]), ops[1..])
  }

  lemma {:induction false} ExecSnoc(s: State, ops: seq<Op>, op: Op)
    ensures Exec(s, ops + [op]) == Next(Exec(s, ops), op)
    decreases |ops|
  {
    hide Next;
    if ops == [] {
      assert Exec(s, [op]) == Exec(Next(s, op), []);
    } else {
      ExecSnoc(Next(s, ops[0]), ops[1..], op);
      assert (ops + [op])[1..] == ops[1..] + [op];
    }
  }

  lemma ExecNone(s: State)
    ensures Exec(s, []) == s
  {
  }

  lemma {:induction false} ExecJoin(s: State, a: seq<Op>, b: seq<Op>)
    ensures Exec(s, a + b) == Exec(Exec(s, a), b)
    decreases |a|
  {
    hide Next;
    if a == [] {
      assert a + b == b;
    } else {
      ExecJoin(Next(s, a[0]), a[1..], b);
      assert (a + b)[1..] == a[1..] + b;
    }
  }

  // ---- What every run keeps -------------------------------------------------

  /** Grants not yet released. */
  function Outstanding(released: seq<bool>): nat {
    if released == [] then 0
    else Outstanding(released[..|released| - 1]) + (if released[|released| - 1] then 0 else 1)
  }

  predicate Counting(written: seq<nat>) { forall i :: 0 <= i < |written| ==> written[i] == i + 1 }

  /** Every drained channel is closed once, the current one only when nothing is held. */
  predicate ChannelsOnce(closes: seq<nat>, holds: int) {
    && (forall i :: 0 <= i < |closes| - 1 ==> closes[i] == 1)
    && (closes != [] ==> closes[|closes| - 1] == if holds == 0 then 1 else 0)
    && (holds > 0 ==> closes != [])
  }

  predicate StoppedWaiting(c: Closer) { c.Stopped? || c.WriterClosed? || c.Done? }

  predicate Reported(c: Closer, holds: int) {
    match c
    case Stopped(p) => holds <= p
    case WriterClosed(p, _) => holds <= p
    case Done(Nil) => holds == 0
    case _ => true
  }

  ghost predicate Inv(s: State) {
    && s.holds == Outstanding(s.released)
    && ChannelsOnce(s.closes, s.holds)
    && Counting(s.written)
    && s.count == |s.written| + (if s.failed then 1 else 0)
    && (s.closing <==> StoppedWaiting(s.closer))
    && Reported(s.closer, s.holds)
  }

  lemma GrantOne(released: seq<bool>)
    ensures Outstanding(released + [false]) == Outstanding(released) + 1
  {
    assert (released + [false])[..|released|] == released;
  }

  lemma {:induction false} ReleaseOne(released: seq<bool>, t: nat)
    requires t < |released| && !released[t]
    ensures Outstanding(released[t := true]) == Outstanding(released) - 1
  {
    var n := |released| - 1;
    if t < n {
      ReleaseOne(released[..n], t);
      assert released[t := true][..n] == released[..n][t := true];
    } else {
      assert released[t := true][..n] == released[..n];
    }
  }

  lemma {:induction false} NoneOutstanding(released: seq<bool>)
    requires Outstanding(released) == 0
    ensures forall r <- released :: r
  {
    if released != [] {
      NoneOutstanding(released[..|released| - 1]);
      assert released == released[..|released| - 1] + [released[|released| - 1]];
    }
  }

  lemma HoldKeeps(s: State)
    requires Inv(s)
    ensures Inv(HoldStep(s))
  {
    GrantOne(s.released);
  }

  lemma ReleaseKeeps(s: State, t: nat)
    requires Inv(s)
    ensures Inv(ReleaseStep(s, t))
  {
    hide Counting;
    if t < |s.released| && !s.released[t] {
      ReleaseOne(s.released, t);
      LastChannel(s.closes, s.holds);
    }
  }

  lemma LastChannel(closes: seq<nat>, holds: int)
    requires ChannelsOnce(closes, holds) && holds >= 1
    ensures closes != []
    ensures ChannelsOnce(if holds == 1 then closes[|closes| - 1 := closes[|closes| - 1] + 1] else closes, holds - 1)
  {
  }

  lemma StepKeeps(s: State, op: Op)
    requires Inv(s)
    ensures Inv(Next(s, op))
  {
    hide HoldStep, ReleaseStep, ChannelsOnce;
    match op
    case Hold => HoldKeeps(s);
    case Release(t) => ReleaseKeeps(s, t);
    case _ =>
  }

  /**
    Every interleaving keeps: holds are grants minus releases, each drained channel is closed
    exactly once, the written records are numbered 1, 2, ... without a gap.
   */
  lemma {:induction false} RunKeeps(s: State, ops: seq<Op>)
    requires Inv(s)
    ensures Inv(Exec(s, ops))
    decreases |ops|
  {
    hide Next, Inv;
    if ops != [] {
      StepKeeps(s, ops[0]);
      RunKeeps(Next(s, ops[0]), ops[1..]);
    }
  }

  lemma EveryRun(ops: seq<Op>)
    ensures var s := Exec(INITIAL, ops);
            && Inv(s)
            && s.holds == Outstanding(s.released)
            && (forall i :: 0 <= i < |s.closes| ==>
                  s.closes[i] == if i == |s.closes| - 1 && s.holds > 0 then 0 else 1)
            && (forall i :: 0 <= i < |s.written| ==> s.written[i] == i + 1)
            && s.count == |s.written| + (if s.failed then 1 else 0)
  {
    hide Exec;
    RunKeeps(INITIAL, ops);
  }

  lemma LeavesCloser(s: State, op: Op)
    requires op.Log? || op.Hold? || op.Release?
    ensures Next(s, op).closer == s.closer && Next(s, op).closing == s.closing
  {
  }

  // ---- Safety over what follows a step --------------------------------------

  /** Nothing is written after the first failure, no sequence number is spent, and it stays latched. */
  lemma {:induction false} FailureLatches(s: State, ops: seq<Op>)
    requires s.failed
    ensures var e := Exec(s, ops); e.failed && e.written == s.written && e.count == s.count
    decreases |ops|
  {
    if ops != [] {
      FailureLatches(Next(s, ops[0]), ops[1..]);
    }
  }

  /** No hold is granted once the log is closing, and holds only go down. */
  lemma {:induction false} NoHoldAfterClosing(s: State, ops: seq<Op>)
    requires Inv(s) && s.closing
    ensures var e := Exec(s, ops); e.closing && |e.released| == |s.released| && e.holds <= s.holds
    decreases |ops|
  {
    if ops != [] {
      StepKeeps(s, ops[0]);
      NoHoldAfterClosing(Next(s, ops[0]), ops[1..]);
    }
  }

  /**
    In any run, the closer stops waiting only with nothing held or its time up; what it then
    reports is the holds outstanding at that instant, and closing is set by the same step.
   */
  lemma PendingIsOutstanding(before: seq<Op>, expired: bool)
    ensures var s := Exec(INITIAL, before);
            var e := Next(s, Poll(expired));
            s.closer.Waiting? ==>
              && (e.closer.Stopped? <==> s.holds == 0 || expired || s.closer.hurried)
              && (e.closer.Stopped? ==> e.closer.pending == Outstanding(e.released) && e.closing && !s.closing)
              && (!e.closer.Stopped? ==> e == s)
  {
    hide Exec;
    EveryRun(before);
  }

  /**
    A nil result of the closer means that no failure is latched when it returns, that every hold
    ever granted has been released, and that it stays so whatever happens next.
   */
  lemma NilMeansNothingMissing(before: seq<Op>, after: seq<Op>)
    ensures var s := Exec(INITIAL, before);
            Next(s, FinishClose).closer == Done(Nil) && s.closer.WriterClosed? ==>
              && !s.failed
              && var e := Exec(Next(s, FinishClose), after);
                 e.holds == 0 && (forall r <- e.released :: r) && |e.released| == |s.released|
  {
    hide Inv;
    var s := Exec(INITIAL, before);
    EveryRun(before);
    StepKeeps(s, FinishClose);
    var f := Next(s, FinishClose);
    if f.closer == Done(Nil) && s.closer.WriterClosed? {
      NilSettled(f, after);
    }
  }

  lemma NilSettled(f: State, after: seq<Op>)
    requires Inv(f) && f.closer == Done(Nil)
    ensures var e := Exec(f, after);
            e.holds == 0 && (forall r <- e.released :: r) && |e.released| == |f.released|
  {
    hide Exec;
    NoHoldAfterClosing(f, after);
    RunKeeps(f, after);
    NoneOutstanding(Exec(f, after).released);
  }

  // ---- The logger -----------------------------------------------------------

  /** A drained channel; closing it twice is an error. */
  class Channel {
    var closed: bool

    constructor ()
      ensures !closed
    {
      closed := false;
    }

    method Close()
      requires !closed
      modifies this
      ensures closed
    {
      closed := true;
    }
  }

  /** What Hold returns: a release that counts once. */
  class Ticket {
    const number: nat
    var released: bool

    constructor (number: nat)
      ensures this.number == number && !released
    {
      this.number, released := number, false;
    }
  }

  class Logger {
    var seqNo: nat
    var failed: bool
    var holds: int
    var drained: Channel?
    var closing: bool
    /** The tickets handed out: the releases the other goroutines hold. */
    var tickets: seq<Ticket>
    ghost var st: State
    ghost var Repr: set<object>

    constructor ()
      ensures Valid() && st == INITIAL && tickets == [] && drained == null && Repr == {}
    {
      seqNo, failed, holds, drained, closing := 0, false, 0, null, false;
      st, tickets, Repr := INITIAL, [], {};
    }

    ghost predicate Valid()
      reads this, Repr
    {
      && this !in Repr
      && (forall t <- tickets :: t in Repr)
      && (drained != null ==> drained in Repr)
      && Inv(st)
      && seqNo == st.count && failed == st.failed && holds == st.holds && closing == st.closing
      && |tickets| == |st.released|
      && (forall i :: 0 <= i < |tickets| ==> tickets[i].number == i && tickets[i].released == st.released[i])
      && (st.closes == [] <==> drained == null)
      && (drained != null ==> drained.closed == (st.closes[|st.closes| - 1] == 1))
    }

    /** Log: w is what marshalling and the writer do with the line. */
    method Log(w: Write) returns (ok: bool)
      requires Valid()
      modifies this`seqNo, this`failed, this`st
      ensures Valid() && st == Next(old(st), Op.Log(w))
      ensures ok <==> !st.failed
    {
      StepKeeps(st, Op.Log(w));
      st := Next(st, Op.Log(w));
      if failed {
        return false;
      }
      seqNo := seqNo + 1;
      if w == MarshalFailed {
        failed := true;
        return false;
      }
      if w == WriteFailed {
        failed := true;
        return false;
      }
      return true;
    }

    /** Hold: refused once the closer has stopped waiting. */
    method Hold() returns (t: Ticket?)
      requires Valid()
      modifies this`holds, this`drained, this`st, this`tickets, this`Repr
      ensures Valid() && st == Next(old(st), Op.Hold)
      ensures t == null <==> old(closing)
      ensures t == null ==> tickets == old(tickets) && drained == old(drained)
      ensures t != null ==> tickets == old(tickets) + [t]
      ensures fresh(Repr - old(Repr))
    {
      hide Inv;
      StepKeeps(st, Op.Hold);
      st := Next(st, Op.Hold);
      if closing {
        return null;
      }
      if holds == 0 {
        drained := new Channel();
        Repr := Repr + {drained};
      }
      holds := holds + 1;
      t := new Ticket(|tickets|);
      tickets := tickets + [t];
      Repr := Repr + {t};
    }

    /** The release a hold returned. */
    method Release(t: Ticket)
      requires Valid() && t in tickets
      modifies this`holds, this`st, Repr
      ensures Valid() && st == Next(old(st), Op.Release(t.number))
      ensures t.released
    {
      StepKeeps(st, Op.Release(t.number));
      ghost var before := st;
      st := Next(st, Op.Release(t.number));
      if t.released {
        return;
      }
      t.released := true;
      holds := holds - 1;
      if holds == 0 {
        drained.Close();
      }
    }

    /**
      The critical section of pendingAfter; wait is what is left of the bound, which is zero for a
      closer that found a latched failure.
     */
    method PollPending(wait: nat) returns (pending: int, stopped: bool)
      requires Valid() && st.closer.Waiting? && (st.closer.hurried ==> wait == 0)
      modifies this`closing, this`st
      ensures Valid() && st == Next(old(st), Poll(wait == 0))
      ensures stopped <==> st.closer == Stopped(pending)
      ensures !stopped ==> wait > 0 && st == old(st)
    {
      StepKeeps(st, Poll(wait == 0));
      st := Next(st, Poll(wait == 0));
      var n := holds;
      if n == 0 || wait == 0 {
        closing := true;
        return n, true;
      }
      return n, false;
    }

    /** What the other goroutines do between two of the closer's steps: any writes, holds and releases. */
    method Others() returns (ghost ops: seq<Op>)
      requires Valid()
      modifies this`seqNo, this`failed, this`holds, this`drained, this`st, this`tickets, this`Repr, Repr
      ensures Valid() && st == Exec(old(st), ops)
      ensures st.closer == old(st.closer)
      ensures fresh(Repr - old(Repr))
    {
      hide Inv, Next;
      ops := [];
      var steps: int := *;
      while steps > 0
        invariant Valid()
        invariant st == Exec(old(st), ops)
        invariant st.closer == old(st.closer)
        invariant fresh(Repr - old(Repr))
      {
        ghost var op: Op;
        ghost var before := st;
        var choice: int := *;
        if choice == 0 {
          var w: Write := *;
          var _ := Log(w);
          op := Op.Log(w);
        } else if choice == 1 {
          var _ := Hold();
          op := Op.Hold;
        } else if 2 <= choice < |tickets| + 2 {
          var t := tickets[choice - 2];
          Release(t);
          op := Op.Release(t.number);
        } else {
          break;
        }
        LeavesCloser(before, op);
        ExecSnoc(old(st), ops, op);
        ops := ops + [op];
        steps := steps - 1;
      }
    }

    /**
      pendingAfter: each wake looks at the holds anew, with less of the bound left.
      The others run between its critical sections.
     */
    method PendingAfter(bound: nat) returns (pending: int, ghost ops: seq<Op>)
      requires Valid() && st.closer.Waiting? && (st.closer.hurried ==> bound == 0)
      modifies this, Repr
      ensures Valid() && st == Exec(old(st), ops)
      ensures st.closer == Stopped(pending)
      ensures pending == st.holds
      ensures fresh(Repr - old(Repr))
    {
      hide Inv;
      ops := [];
      var wait: nat := bound;
      var stopped;
      while true
        invariant Valid() && st == Exec(old(st), ops) && st.closer == old(st).closer && wait <= bound
        invariant fresh(Repr - old(Repr))
        decreases wait
      {
        ghost var poll := Poll(wait == 0);
        pending, stopped := PollPending(wait);
        ExecSnoc(old(st), ops, poll);
        ops := ops + [poll];
        if stopped {
          return;
        }
        ghost var more := Others();
        ExecJoin(old(st), ops, more);
        ops := ops + more;
        var left: int := *;
        wait := if 0 <= left < wait then left else 0;
      }
    }

    /** One of the closer's own steps, on the run ops from start. */
    ghost method Step(op: Op, start: State, ops: seq<Op>) returns (after: seq<Op>)
      requires Valid() && st == Exec(start, ops)
      requires op.StartClose? || op.CloseWriter? || op.FinishClose?
      modifies this`st
      ensures Valid() && st == Exec(start, after)
      ensures st == Next(old(st), op)
    {
      hide Inv, Exec;
      StepKeeps(st, op);
      ExecSnoc(start, ops, op);
      st := Next(st, op);
      after := ops + [op];
    }

    /** The others' steps, after the run ops from start. */
    method OthersAfter(ghost start: State, ghost ops: seq<Op>) returns (ghost after: seq<Op>)
      requires Valid() && st == Exec(start, ops)
      modifies this`seqNo, this`failed, this`holds, this`drained, this`st, this`tickets, this`Repr, Repr
      ensures Valid() && st == Exec(start, after)
      ensures st.closer == old(st.closer)
      ensures fresh(Repr - old(Repr))
      ensures old(failed) ==> failed
    {
      hide Inv, Exec, Next;
      ghost var before := st;
      ghost var more := Others();
      ExecJoin(start, ops, more);
      after := ops + more;
      if before.failed {
        FailureLatches(before, more);
      }
    }

    /** Closer: wait for what is held, close the writer, and report the worst of what went wrong. */
    method Close(drain: nat, closesWriter: bool) returns (result: Result, ghost ops: seq<Op>)
      requires Valid() && st.closer.Idle?
      modifies this, Repr
      ensures Valid() && st == Exec(old(st), ops) && st.closer == Done(result)
      ensures old(failed) ==> result == LogFailure
    {
      hide Inv, Exec;
      ghost var start := st;
      var bound := drain;
      if failed {
        bound := 0;
      }
      ExecNone(start);
      ops := Step(StartClose, start, []);
      ops := OthersAfter(start, ops);
      var pending: int;
      ghost var waited;
      ghost var before := st;
      pending, waited := PendingAfter(bound);
      ExecJoin(start, ops, waited);
      ops := ops + waited;
      if before.failed {
        FailureLatches(before, waited);
      }
      ops := OthersAfter(start, ops);
      ops := Step(CloseWriter(closesWriter), start, ops);
      ops := OthersAfter(start, ops);
      ops := Step(FinishClose, start, ops);
      if failed {
        return LogFailure, ops;
      }
      if pending > 0 {
        return Result.Pending(pending), ops;
      }
      return if closesWriter then Nil else CloseError, ops;
    }
  }
}
