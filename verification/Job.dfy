/** The lifecycle of a background job. */
module Job {
  import opened Wrappers
  import opened Clock
  import Decimal

  const MAX_TRANSITIONS: nat := 200

  const DEFAULT_MAX_REPAIR_ATTEMPTS: nat := 3

  datatype JobState = Pending | InProgress | Completed | Submitted | Accepted | Failed | Stuck | Cancelled {
    predicate CanTransitionTo(target: JobState) {
      match (this, target)
      case (Pending, InProgress) => true
      case (Pending, Cancelled) => true
      case (InProgress, Completed) => true
      case (InProgress, Failed) => true
      case (InProgress, Stuck) => true
      case (InProgress, Cancelled) => true
      case (Completed, Submitted) => true
      case (Completed, Failed) => true
      case (Submitted, Accepted) => true
      case (Submitted, Failed) => true
      case (Stuck, InProgress) => true
      case (Stuck, Failed) => true
      case (Stuck, Cancelled) => true
      case _ => false
    }

    predicate IsTerminal() {
      this == Accepted || this == Failed || this == Cancelled
    }
  }

  /** The terminal states are exactly those without a legal way out. */
  lemma TerminalMeansStuckForever(s: JobState)
    ensures s.IsTerminal() <==> forall t: JobState :: !s.CanTransitionTo(t)
  {
    assert Pending.CanTransitionTo(InProgress) && InProgress.CanTransitionTo(Stuck) && Completed.CanTransitionTo(Failed);
    assert Submitted.CanTransitionTo(Accepted) && Stuck.CanTransitionTo(Failed);
  }

  /** Where each state leads in one move: running and stuck jobs can fail and be cancelled, a pending one only be
      cancelled, and finished work only be handed on or fail. */
  lemma Targets(t: JobState)
    ensures Pending.CanTransitionTo(t) <==> t in {InProgress, Cancelled}
    ensures InProgress.CanTransitionTo(t) <==> t in {Completed, Failed, Stuck, Cancelled}
    ensures Completed.CanTransitionTo(t) <==> t in {Submitted, Failed}
    ensures Submitted.CanTransitionTo(t) <==> t in {Accepted, Failed}
    ensures Stuck.CanTransitionTo(t) <==> t in {InProgress, Failed, Cancelled}
    ensures !Accepted.CanTransitionTo(t) && !Failed.CanTransitionTo(t) && !Cancelled.CanTransitionTo(t)
  {
  }

  datatype Transition = Transition(from: JobState, to: JobState, timestamp: Instant, reason: Option<string>)

  datatype JobError = InvalidTransition(from: JobState, to: JobState) | NotStuck(state: JobState) | RepairsExhausted(attempts: nat)

  datatype RepairResult = RepairSuccess | RepairFailed(error: JobError) | ManualRequired

  /** The lifecycle fields of a job. */
  datatype Lifecycle = Lifecycle(
    state: JobState, repairAttempts: nat, maxRepairAttempts: nat,
    startedAt: Option<Instant>, completedAt: Option<Instant>, transitions: seq<Transition>)

  function LastOf<T>(s: seq<T>, n: nat): seq<T> {
    if |s| <= n then s else s[|s| - n..]
  }

  function Moved(c: Lifecycle, t: Transition): Lifecycle {
    Lifecycle(
      t.to, c.repairAttempts, c.maxRepairAttempts,
      if t.to == InProgress && c.startedAt.None? then Some(t.timestamp) else c.startedAt,
      if t.to in {Completed, Accepted, Failed, Cancelled} then Some(t.timestamp) else c.completedAt,
      LastOf(c.transitions + [t], MAX_TRANSITIONS))
  }

  function RecoveryReason(attempt: nat): string {
    "recovery attempt " + Decimal.ToString(attempt)
  }

  /** The transition an accepted recovery makes. */
  function Recovery(c: Lifecycle, now: Instant): Transition {
    Transition(Stuck, InProgress, now, Some(RecoveryReason(c.repairAttempts + 1)))
  }

  predicate Recoverable(c: Lifecycle) {
    c.state == Stuck && c.repairAttempts < c.maxRepairAttempts
  }

  function Recovered(c: Lifecycle, now: Instant): Lifecycle {
    Moved(c.(repairAttempts := c.repairAttempts + 1), Recovery(c, now))
  }

  class JobContext {
    const jobId: string
    var state: JobState
    var repairAttempts: nat
    var maxRepairAttempts: nat
    var startedAt: Option<Instant>
    var completedAt: Option<Instant>
    var transitions: seq<Transition>

    function Value(): Lifecycle
      reads this
    {
      Lifecycle(state, repairAttempts, maxRepairAttempts, startedAt, completedAt, transitions)
    }

    constructor (jobId: string)
      ensures this.jobId == jobId
      ensures Value() == Lifecycle(Pending, 0, 3, None, None, [])
    {
      this.jobId := jobId;
      state, repairAttempts, maxRepairAttempts := Pending, 0, DEFAULT_MAX_REPAIR_ATTEMPTS;
      startedAt, completedAt, transitions := None, None, [];
    }

    method TransitionTo(newState: JobState, reason: Option<string>, now: Instant) returns (r: Result<(), JobError>)
      modifies this
      ensures r.Ok? <==> old(state).CanTransitionTo(newState)
      ensures Value() == if r.Ok? then Moved(old(Value()), Transition(old(state), newState, now, reason)) else old(Value())
      ensures r.Err? ==> r.error == InvalidTransition(old(state), newState)
    {
      if !state.CanTransitionTo(newState) {
        return Err(InvalidTransition(state, newState));
      }
      transitions := transitions + [Transition(state, newState, now, reason)];
      if |transitions| > MAX_TRANSITIONS {
        var drainCount := |transitions| - MAX_TRANSITIONS;
        transitions := transitions[drainCount..];
      }
      state := newState;
      if newState == InProgress && startedAt.None? {
        startedAt := Some(now);
      } else if newState == Completed || newState == Accepted || newState == Failed || newState == Cancelled {
        completedAt := Some(now);
      }
      return Ok(());
    }

    method MarkStuck(reason: string, now: Instant) returns (r: Result<(), JobError>)
      modifies this
      ensures r.Ok? <==> old(state) == InProgress
      ensures Value() == if r.Ok? then Moved(old(Value()), Transition(InProgress, Stuck, now, Some(reason))) else old(Value())
    {
      r := TransitionTo(Stuck, Some(reason), now);
    }

    method AttemptRecovery(now: Instant) returns (r: Result<(), JobError>)
      modifies this
      ensures r.Ok? <==> Recoverable(old(Value()))
      ensures Value() == if r.Ok? then Recovered(old(Value()), now) else old(Value())
      ensures r.Ok? ==> state == InProgress && repairAttempts == old(repairAttempts) + 1 && transitions != [] &&
                        transitions[|transitions| - 1] ==
                          Transition(Stuck, InProgress, now, Some("recovery attempt " + Decimal.ToString(repairAttempts)))
      ensures r.Err? ==> r.error == if old(state) != Stuck then NotStuck(old(state)) else RepairsExhausted(old(repairAttempts))
    {
      if state != Stuck {
        return Err(NotStuck(state));
      }
      if repairAttempts >= maxRepairAttempts {
        return Err(RepairsExhausted(repairAttempts));
      }
      repairAttempts := repairAttempts + 1;
      r := TransitionTo(InProgress, Some(RecoveryReason(repairAttempts)), now);
    }
  }

  /** Succeeds exactly when a recovery would; never fails halfway. */
  method RepairStuckJob(ctx: JobContext, now: Instant) returns (r: RepairResult)
    modifies ctx
    ensures r == if old(ctx.state) != Stuck then RepairFailed(NotStuck(old(ctx.state)))
                 else if Recoverable(old(ctx.Value())) then RepairSuccess else ManualRequired
    ensures ctx.Value() == if r == RepairSuccess then Recovered(old(ctx.Value()), now) else old(ctx.Value())
  {
    if ctx.state != Stuck {
      return RepairFailed(NotStuck(ctx.state));
    }
    if ctx.repairAttempts >= ctx.maxRepairAttempts {
      return ManualRequired;
    }
    var result := ctx.AttemptRecovery(now);
    match result {
      case Ok(_) => return RepairSuccess;
      case Err(e) => return RepairFailed(e);
    }
  }

  // ----- whole runs

  /** A repair behaves like a recovery attempt, so one operation stands for both. */
  datatype Op =
    | GoTo(target: JobState, reason: Option<string>, now: Instant)
    | Recover(now: Instant)

  /** The transition an operation makes, if it is accepted. */
  function Made(c: Lifecycle, op: Op): Option<Transition> {
    match op
    case GoTo(target, reason, now) =>
      if c.state.CanTransitionTo(target) then Some(Transition(c.state, target, now, reason)) else None
    case Recover(now) => if Recoverable(c) then Some(Recovery(c, now)) else None
  }

  function Step(c: Lifecycle, op: Op): Lifecycle {
    match Made(c, op)
    case None => c
    case Some(t) => if op.Recover? then Recovered(c, op.now) else Moved(c, t)
  }

  function Final(c: Lifecycle, ops: seq<Op>): Lifecycle
    decreases |ops|
  {
    if ops == [] then c else Final(Step(c, ops[0]), ops[1..])
  }

  /** Every transition of a run, none forgotten. */
  function History(c: Lifecycle, ops: seq<Op>): seq<Transition>
    decreases |ops|
  {
    if ops == [] then []
    else (if Made(c, ops[0]).Some? then [Made(c, ops[0]).value] else []) + History(Step(c, ops[0]), ops[1..])
  }

  function Fresh(maxRepairAttempts: nat): Lifecycle {
    Lifecycle(Pending, 0, maxRepairAttempts, None, None, [])
  }

  /** Legal transitions, each beginning where the one before ended; the first from Pending, the last into the state. */
  predicate Chained(history: seq<Transition>, state: JobState) {
    && (forall i :: 0 <= i < |history| ==> history[i].from.CanTransitionTo(history[i].to))
    && (forall i :: 0 < i < |history| ==> history[i].from == history[i - 1].to)
    && (if history == [] then state == Pending else history[0].from == Pending && history[|history| - 1].to == state)
  }

  predicate Faithful(c: Lifecycle, history: seq<Transition>) {
    && Chained(history, c.state)
    && c.transitions == LastOf(history, 200)
    && c.repairAttempts <= c.maxRepairAttempts
  }

  lemma LastOfAppend<T>(s: seq<T>, x: T, n: nat)
    requires n > 0
    ensures LastOf(LastOf(s, n) + [x], n) == LastOf(s + [x], n)
  {
  }

  lemma StepIsFaithful(c: Lifecycle, history: seq<Transition>, op: Op)
    requires Faithful(c, history)
    ensures Faithful(Step(c, op), if Made(c, op).Some? then history + [Made(c, op).value] else history)
  {
    hide LastOf, RecoveryReason;
    if Made(c, op).Some? {
      LastOfAppend(history, Made(c, op).value, MAX_TRANSITIONS);
    }
  }

  /** After any run the stored transitions are the last two hundred of the full history, which is legal and chained. */
  lemma {:induction false} StoredIsTail(c: Lifecycle, history: seq<Transition>, ops: seq<Op>)
    requires Faithful(c, history)
    ensures Faithful(Final(c, ops), history + History(c, ops))
    decreases |ops|
  {
    hide Faithful, Made, Step;
    if ops == [] {
      assert history + [] == history;
    } else {
      StepIsFaithful(c, history, ops[0]);
      var made := Made(c, ops[0]);
      var next := if made.Some? then history + [made.value] else history;
      StoredIsTail(Step(c, ops[0]), next, ops[1..]);
      assert next + History(Step(c, ops[0]), ops[1..]) == history + History(c, ops);
    }
  }

  predicate Working(s: JobState) {
    s == Pending || s == InProgress || s == Stuck
  }

  /** Once the work is done it stays done: no run cancels it or takes it up again. */
  lemma {:induction false} DoneStaysDone(c: Lifecycle, ops: seq<Op>)
    requires !Working(c.state) && c.state != Cancelled
    ensures !Working(Final(c, ops).state) && Final(c, ops).state != Cancelled
    decreases |ops|
  {
    if ops == [] {
    } else {
      assert !Working(Step(c, ops[0]).state) && Step(c, ops[0]).state != Cancelled by { MoveIsLegal(c, ops[0]); }
      hide Step;
      DoneStaysDone(Step(c, ops[0]), ops[1..]);
    }
  }

  lemma MoveIsLegal(c: Lifecycle, op: Op)
    ensures Step(c, op).state == c.state || c.state.CanTransitionTo(Step(c, op).state)
  {
    hide LastOf, RecoveryReason;
  }

  /** A running job can be moved to any end: accepted in three moves, failed or cancelled in one, whatever its history. */
  lemma EveryEndIsReachable(c: Lifecycle, now: Instant)
    requires c.state == InProgress
    ensures Final(c, [GoTo(Completed, None, now), GoTo(Submitted, None, now), GoTo(Accepted, None, now)]).state == Accepted
    ensures Final(c, [GoTo(Failed, None, now)]).state == Failed
    ensures Final(c, [GoTo(Cancelled, None, now)]).state == Cancelled
  {
    hide LastOf;
    var done, sent, taken := GoTo(Completed, None, now), GoTo(Submitted, None, now), GoTo(Accepted, None, now);
    assert [done, sent, taken][1..] == [sent, taken] && [sent, taken][1..] == [taken] && [taken][1..] == [];
    var c1 := Step(c, done);
    var c2 := Step(c1, sent);
    var c3 := Step(c2, taken);
    assert Final(c, [done, sent, taken]) == Final(c1, [sent, taken]) == Final(c2, [taken]) == Final(c3, []) == c3;
    assert [GoTo(Failed, None, now)][1..] == [] && [GoTo(Cancelled, None, now)][1..] == [];
  }

  // ----- the time stamps

  function FirstStart(history: seq<Transition>): Option<Instant> {
    if history == [] then None
    else if history[0].to == InProgress then Some(history[0].timestamp)
    else FirstStart(history[1..])
  }

  function LatestEnd(history: seq<Transition>): Option<Instant> {
    if history == [] then None
    else
      var last := history[|history| - 1];
      if last.to in {Completed, Accepted, Failed, Cancelled} then Some(last.timestamp)
      else LatestEnd(history[..|history| - 1])
  }

  lemma {:induction false} FirstStartAppend(history: seq<Transition>, t: Transition)
    ensures FirstStart(history + [t]) ==
            if FirstStart(history).Some? then FirstStart(history) else if t.to == InProgress then Some(t.timestamp) else None
  {
    if history == [] {
      assert [t][1..] == [];
    } else {
      assert (history + [t])[1..] == history[1..] + [t];
      FirstStartAppend(history[1..], t);
    }
  }

  lemma LatestEndAppend(history: seq<Transition>, t: Transition)
    ensures LatestEnd(history + [t]) ==
            if t.to in {Completed, Accepted, Failed, Cancelled} then Some(t.timestamp) else LatestEnd(history)
  {
    assert (history + [t])[..|history|] == history;
  }

  /** After any run a job started when it first went into progress, and was completed at its latest move to an end, or to
      Completed, even if a later move follows. */
  lemma {:induction false} TimesAreTrue(c: Lifecycle, history: seq<Transition>, ops: seq<Op>)
    requires c.startedAt == FirstStart(history) && c.completedAt == LatestEnd(history)
    ensures Final(c, ops).startedAt == FirstStart(history + History(c, ops))
    ensures Final(c, ops).completedAt == LatestEnd(history + History(c, ops))
    decreases |ops|
  {
    if ops == [] {
      assert history + [] == history;
    } else {
      var made := Made(c, ops[0]);
      var next := if made.Some? then history + [made.value] else history;
      StepTimes(c, history, ops[0]);
      assert History(c, ops) == (if made.Some? then [made.value] else []) + History(Step(c, ops[0]), ops[1..]);
      hide Made, Step, FirstStart, LatestEnd, History;
      TimesAreTrue(Step(c, ops[0]), next, ops[1..]);
      assert next + History(Step(c, ops[0]), ops[1..]) == history + History(c, ops);
    }
  }

  lemma StepTimes(c: Lifecycle, history: seq<Transition>, op: Op)
    requires c.startedAt == FirstStart(history) && c.completedAt == LatestEnd(history)
    ensures var next := if Made(c, op).Some? then history + [Made(c, op).value] else history;
            Step(c, op).startedAt == FirstStart(next) && Step(c, op).completedAt == LatestEnd(next)
  {
    hide LastOf, RecoveryReason, FirstStart, LatestEnd;
    if Made(c, op).Some? {
      FirstStartAppend(history, Made(c, op).value);
      LatestEndAppend(history, Made(c, op).value);
    }
  }

  /** The run leaves Stuck for InProgress only through recovery. */
  predicate RecoversProperly(c: Lifecycle, ops: seq<Op>)
    decreases |ops|
  {
    ops != [] ==>
      !(c.state == Stuck && ops[0].GoTo? && ops[0].target == InProgress) && RecoversProperly(Step(c, ops[0]), ops[1..])
  }

  /** The longest way still ahead. */
  function Remaining(c: Lifecycle): nat {
    var repairs := if c.repairAttempts <= c.maxRepairAttempts then c.maxRepairAttempts - c.repairAttempts else 0;
    match c.state
    case Pending => 2 * repairs + 4
    case InProgress => 2 * repairs + 3
    case Stuck => 2 * repairs + 2
    case Completed => 2
    case Submitted => 1
    case _ => 0
  }

  lemma {:induction false} HistoryIsBounded(c: Lifecycle, ops: seq<Op>)
    requires RecoversProperly(c, ops)
    ensures |History(c, ops)| <= Remaining(c)
    decreases |ops|
  {
    if ops == [] {
    } else {
      StepSpends(c, ops[0]);
      hide Made, Step, Remaining;
      HistoryIsBounded(Step(c, ops[0]), ops[1..]);
    }
  }

  lemma StepSpends(c: Lifecycle, op: Op)
    requires !(c.state == Stuck && op.GoTo? && op.target == InProgress)
    ensures Remaining(Step(c, op)) + (if Made(c, op).Some? then 1 else 0) <= Remaining(c)
  {
    hide LastOf, RecoveryReason;
  }

  /** Such a run of a new job makes at most two transitions per allowed repair and four more. */
  lemma LifeIsFinite(maxRepairAttempts: nat, ops: seq<Op>)
    requires RecoversProperly(Fresh(maxRepairAttempts), ops)
    ensures |History(Fresh(maxRepairAttempts), ops)| <= 2 * maxRepairAttempts + 4
  {
    HistoryIsBounded(Fresh(maxRepairAttempts), ops);
  }

  /** Get stuck and recover as often as allowed, then finish. */
  function LongLife(repairs: nat): seq<Op>
    decreases repairs
  {
    if repairs == 0 then [GoTo(Completed, None, 0), GoTo(Submitted, None, 0), GoTo(Accepted, None, 0)]
    else [GoTo(Stuck, None, 0), Recover(0)] + LongLife(repairs - 1)
  }

  lemma {:induction false} LongLifeIsLong(c: Lifecycle, repairs: nat)
    requires c.state == InProgress && c.repairAttempts + repairs == c.maxRepairAttempts
    ensures RecoversProperly(c, LongLife(repairs)) && |History(c, LongLife(repairs))| == 2 * repairs + 3
    decreases repairs
  {
    hide LastOf, RecoveryReason;
    var ops := LongLife(repairs);
    var c1 := Step(c, ops[0]);
    var c2 := Step(c1, ops[1]);
    assert ops[1..][0] == ops[1];
    if repairs > 0 {
      assert ops[1..][1..] == LongLife(repairs - 1);
      LongLifeIsLong(c2, repairs - 1);
    } else {
      assert ops[1..][1..] == [ops[2]] && [ops[2]][1..] == [];
      var c3 := Step(c2, ops[2]);
      assert History(c3, []) == [] && RecoversProperly(c3, []);
      assert |History(c2, [ops[2]])| == 1;
    }
    assert |History(c, ops)| == 1 + |History(c1, ops[1..])| == 2 + |History(c2, ops[1..][1..])|;
    assert RecoversProperly(c2, ops[1..][1..]);
    assert RecoversProperly(c1, ops[1..]);
  }

  /** The bound is reached for every number of allowed repairs. */
  lemma LifeBoundIsReached(maxRepairAttempts: nat)
    ensures var ops := [GoTo(InProgress, None, 0)] + LongLife(maxRepairAttempts);
            RecoversProperly(Fresh(maxRepairAttempts), ops) &&
            |History(Fresh(maxRepairAttempts), ops)| == 2 * maxRepairAttempts + 4
  {
    var c := Fresh(maxRepairAttempts);
    var ops := [GoTo(InProgress, None, 0)] + LongLife(maxRepairAttempts);
    assert ops[1..] == LongLife(maxRepairAttempts);
    LongLifeIsLong(Step(c, ops[0]), maxRepairAttempts);
  }

  function PingPong(n: nat): seq<Op> {
    if n == 0 then [] else [GoTo(Stuck, None, 0), GoTo(InProgress, None, 0)] + PingPong(n - 1)
  }

  /** A caller that moves a stuck job back directly is not bounded, and no repair is counted. */
  lemma {:induction false} DirectMovesAreUnbounded(c: Lifecycle, n: nat)
    requires c.state == InProgress
    ensures |History(c, PingPong(n))| == 2 * n && Final(c, PingPong(n)).repairAttempts == c.repairAttempts
    decreases n
  {
    if n == 0 {
    } else {
      hide LastOf;
      var ops := PingPong(n);
      assert ops[1..][0] == ops[1] && ops[1..][1..] == PingPong(n - 1);
      var c1 := Step(c, ops[0]);
      var c2 := Step(c1, ops[1]);
      DirectMovesAreUnbounded(c2, n - 1);
      assert Final(c, ops) == Final(c1, ops[1..]) == Final(c2, PingPong(n - 1));
      assert |History(c, ops)| == 1 + |History(c1, ops[1..])| == 2 + |History(c2, PingPong(n - 1))|;
    }
  }
}
