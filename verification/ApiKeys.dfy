/** Rotation over the API keys of one provider. */
module ApiKeys {
  import opened Wrappers
  import opened Clock

  const MAX_COOLDOWN_SECS: nat := 3600

  datatype FailureReason = RateLimit | AuthError | Overloaded | Timeout | Billing | Unknown

  datatype KeyStats = KeyStats(
    lastUsed: Option<Instant>, cooldownUntil: Option<Instant>,
    consecutiveFailures: nat, lastFailureReason: Option<FailureReason>)

  const UNUSED := KeyStats(None, None, 0, None)

  predicate Available(s: KeyStats, now: Instant) {
    s.cooldownUntil.Some? ==> now >= s.cooldownUntil.value
  }

  /** An expired cooldown clears the failure record. */
  function Refreshed(s: KeyStats, now: Instant): KeyStats {
    if s.cooldownUntil.Some? && now >= s.cooldownUntil.value then KeyStats(s.lastUsed, None, 0, None) else s
  }

  function RefreshedAll(stats: seq<KeyStats>, now: Instant): seq<KeyStats> {
    seq(|stats|, i requires 0 <= i < |stats| => Refreshed(stats[i], now))
  }

  /** Never used comes before any use. */
  predicate Older(a: Option<Instant>, b: Option<Instant>) {
    b.Some? && (a.None? || a.value < b.value)
  }

  /** The first among the available keys whose last use is oldest, within the first n keys. */
  function BestUpTo(stats: seq<KeyStats>, now: Instant, n: nat): (best: Option<nat>)
    requires n <= |stats|
    ensures best.None? <==> forall i :: 0 <= i < n ==> !Available(stats[i], now)
    ensures best.Some? ==> best.value < n && Available(stats[best.value], now)
    ensures best.Some? ==> forall i :: 0 <= i < n && Available(stats[i], now) ==>
                             !Older(stats[i].lastUsed, stats[best.value].lastUsed) &&
                             (i < best.value ==> Older(stats[best.value].lastUsed, stats[i].lastUsed))
  {
    if n == 0 then None
    else
      var best := BestUpTo(stats, now, n - 1);
      if Available(stats[n - 1], now) && (best.None? || Older(stats[n - 1].lastUsed, stats[best.value].lastUsed))
      then Some(n - 1) else best
  }

  function Best(stats: seq<KeyStats>, now: Instant): Option<nat> {
    BestUpTo(stats, now, |stats|)
  }

  /** The last among the used keys whose last use is newest, within the first n keys. */
  function MostRecentUpTo(stats: seq<KeyStats>, n: nat): (r: Option<nat>)
    requires n <= |stats|
    ensures r.None? <==> forall i :: 0 <= i < n ==> stats[i].lastUsed.None?
    ensures r.Some? ==> r.value < n && stats[r.value].lastUsed.Some?
    ensures r.Some? ==> forall i :: 0 <= i < n ==>
                          !Older(stats[r.value].lastUsed, stats[i].lastUsed) &&
                          (r.value < i ==> Older(stats[i].lastUsed, stats[r.value].lastUsed))
  {
    if n == 0 then None
    else
      var r := MostRecentUpTo(stats, n - 1);
      if stats[n - 1].lastUsed.Some? && (r.None? || !Older(stats[n - 1].lastUsed, stats[r.value].lastUsed))
      then Some(n - 1) else r
  }

  function MostRecent(stats: seq<KeyStats>): Option<nat> {
    MostRecentUpTo(stats, |stats|)
  }

  function Pow5(exponent: nat): nat {
    if exponent == 0 then 1 else 5 * Pow5(exponent - 1)
  }

  /** Seconds of cooldown after so many failures in a row. */
  function CooldownSecs(consecutiveFailures: nat, reason: FailureReason): nat {
    var baseSecs := if reason == AuthError || reason == Billing then 300 else 60;
    var steps := if consecutiveFailures == 0 then 0 else consecutiveFailures - 1;
    var exponent := if steps < 5 then steps else 5;
    var cooldown := baseSecs * Pow5(exponent);
    if cooldown < MAX_COOLDOWN_SECS then cooldown else MAX_COOLDOWN_SECS
  }

  /** The backoff ladder: one, five and twenty-five minutes, then an hour; authentication and billing
      failures start one rung higher. */
  lemma CooldownLadder(n: nat, reason: FailureReason)
    requires n >= 1
    ensures var rung := if reason == AuthError || reason == Billing then n else n - 1;
            CooldownSecs(n, reason) == if rung == 0 then 60 else if rung == 1 then 300 else if rung == 2 then 1500 else 3600
    ensures CooldownSecs(n, reason) <= CooldownSecs(n + 1, reason)
  {
    assert Pow5(1) == 5 && Pow5(2) == 25 && Pow5(3) == 125 && Pow5(4) == 625 && Pow5(5) == 3125;
  }

  function AfterSelect(stats: seq<KeyStats>, now: Instant): seq<KeyStats> {
    var refreshed := RefreshedAll(stats, now);
    match Best(refreshed, now)
    case None => refreshed
    case Some(i) => refreshed[i := refreshed[i].(lastUsed := Some(now))]
  }

  function AfterSuccess(stats: seq<KeyStats>): seq<KeyStats> {
    match MostRecent(stats)
    case None => stats
    case Some(i) => stats[i := KeyStats(stats[i].lastUsed, None, 0, None)]
  }

  function AfterFailure(stats: seq<KeyStats>, now: Instant, reason: FailureReason): seq<KeyStats> {
    match MostRecent(stats)
    case None => stats
    case Some(i) =>
      var n := stats[i].consecutiveFailures + 1;
      stats[i := KeyStats(stats[i].lastUsed, Some(now + CooldownSecs(n, reason) * SECOND), n, Some(reason))]
  }

  class KeyRotator {
    const keys: seq<string>
    var stats: seq<KeyStats>

    predicate Valid()
      reads this
    {
      keys != [] && |stats| == |keys|
    }

    constructor (keys: seq<string>)
      requires keys != []
      ensures Valid() && this.keys == keys && forall i :: 0 <= i < |stats| ==> stats[i] == UNUSED
    {
      this.keys := keys;
      stats := seq(|keys|, i => UNUSED);
    }

    method Select(now: Instant) returns (key: Option<string>)
      requires Valid()
      modifies this
      ensures Valid() && stats == AfterSelect(old(stats), now)
      ensures key.None? <==> forall i :: 0 <= i < |old(stats)| ==> !Available(old(stats)[i], now)
      ensures var best := Best(RefreshedAll(old(stats), now), now);
              key == if best.Some? then Some(keys[best.value]) else None
    {
      var i := 0;
      while i < |stats|
        invariant 0 <= i <= |stats| == |old(stats)|
        invariant forall j :: 0 <= j < |stats| ==> stats[j] == if j < i then Refreshed(old(stats)[j], now) else old(stats)[j]
      {
        if stats[i].cooldownUntil.Some? && now >= stats[i].cooldownUntil.value {
          stats := stats[i := stats[i].(cooldownUntil := None)];
          stats := stats[i := stats[i].(consecutiveFailures := 0)];
          stats := stats[i := stats[i].(lastFailureReason := None)];
        }
        i := i + 1;
      }
      assert stats == RefreshedAll(old(stats), now);
      assert forall j :: 0 <= j < |stats| ==> (Available(stats[j], now) <==> Available(old(stats)[j], now));
      match Best(stats, now) {
        case Some(idx) =>
          stats := stats[idx := stats[idx].(lastUsed := Some(now))];
          return Some(keys[idx]);
        case None =>
          return None;
      }
    }

    method MarkSuccess()
      requires Valid()
      modifies this
      ensures Valid() && stats == AfterSuccess(old(stats))
    {
      match MostRecent(stats) {
        case Some(i) =>
          var stat := stats[i];
          stat := stat.(consecutiveFailures := 0);
          stat := stat.(cooldownUntil := None);
          stat := stat.(lastFailureReason := None);
          stats := stats[i := stat];
        case None =>
      }
    }

    method MarkFailure(reason: FailureReason, now: Instant)
      requires Valid()
      modifies this
      ensures Valid() && stats == AfterFailure(old(stats), now, reason)
    {
      match MostRecent(stats) {
        case Some(i) =>
          var stat := stats[i];
          stat := stat.(consecutiveFailures := stat.consecutiveFailures + 1);
          stat := stat.(lastFailureReason := Some(reason));
          var cooldown := CooldownSecs(stat.consecutiveFailures, reason);
          stat := stat.(cooldownUntil := Some(now + cooldown * SECOND));
          stats := stats[i := stat];
        case None =>
      }
    }
  }
}

/** Whole runs of a rotator. */
module ApiKeyRuns {
  import opened Wrappers
  import opened Clock
  import opened Sets
  import opened ApiKeys

  datatype Op = Select(now: Instant) | MarkSuccess | MarkFailure(now: Instant, reason: FailureReason)

  /** The key records and the key returned by the latest successful selection. */
  datatype State = State(stats: seq<KeyStats>, last: Option<nat>)

  function Chosen(s: State, now: Instant): (r: Option<nat>)
    ensures r.Some? ==> r.value < |s.stats|
  {
    Best(RefreshedAll(s.stats, now), now)
  }

  function Step(s: State, op: Op): State {
    match op
    case Select(now) => State(AfterSelect(s.stats, now), if Chosen(s, now).Some? then Chosen(s, now) else s.last)
    case MarkSuccess => s.(stats := AfterSuccess(s.stats))
    case MarkFailure(now, reason) => s.(stats := AfterFailure(s.stats, now, reason))
  }

  function Final(s: State, ops: seq<Op>): State
    decreases |ops|
  {
    if ops == [] then s else Final(Step(s, ops[0]), ops[1..])
  }

  /** Every selection reads a clock later than all earlier selections. */
  predicate StrictClock(ops: seq<Op>, clock: Instant)
    decreases |ops|
  {
    ops != [] ==>
      (ops[0].Select? ==> clock < ops[0].now) &&
      StrictClock(ops[1..], Reading(ops[0], clock))
  }

  /** The last selected key, if any, is strictly the most recently used; no use lies after the clock. */
  predicate Inv(s: State, clock: Instant) {
    && (forall i :: 0 <= i < |s.stats| && s.stats[i].lastUsed.Some? ==> s.stats[i].lastUsed.value <= clock)
    && (s.last.None? ==> forall i :: 0 <= i < |s.stats| ==> s.stats[i].lastUsed.None?)
    && (s.last.Some? ==>
          s.last.value < |s.stats| && s.stats[s.last.value].lastUsed.Some? &&
          forall i :: 0 <= i < |s.stats| && i != s.last.value ==>
            Older(s.stats[i].lastUsed, s.stats[s.last.value].lastUsed))
  }

  function Reading(op: Op, clock: Instant): Instant {
    if op.Select? then op.now else clock
  }

  lemma MarksKeepUse(s: State, op: Op)
    requires !op.Select?
    ensures |Step(s, op).stats| == |s.stats|
    ensures forall i :: 0 <= i < |s.stats| ==> Step(s, op).stats[i].lastUsed == s.stats[i].lastUsed
  {
  }

  lemma SelectUses(s: State, now: Instant)
    ensures |AfterSelect(s.stats, now)| == |s.stats|
    ensures forall i :: 0 <= i < |s.stats| ==>
              AfterSelect(s.stats, now)[i].lastUsed == if Chosen(s, now) == Some(i) then Some(now) else s.stats[i].lastUsed
  {
  }

  lemma StepKeepsInv(s: State, op: Op, clock: Instant)
    requires Inv(s, clock) && (op.Select? ==> clock < op.now)
    ensures Inv(Step(s, op), Reading(op, clock)) && |Step(s, op).stats| == |s.stats|
  {
    hide AfterSelect, AfterSuccess, AfterFailure, Chosen;
    if op.Select? { SelectUses(s, op.now); } else { MarksKeepUse(s, op); }
  }

  function FinalClock(ops: seq<Op>, clock: Instant): Instant
    decreases |ops|
  {
    if ops == [] then clock else FinalClock(ops[1..], Reading(ops[0], clock))
  }

  lemma {:induction false} RunKeepsInv(s: State, ops: seq<Op>, clock: Instant)
    requires Inv(s, clock) && StrictClock(ops, clock)
    ensures Inv(Final(s, ops), FinalClock(ops, clock))
    ensures |Final(s, ops).stats| == |s.stats|
    decreases |ops|
  {
    if ops == [] {
    } else {
      StepKeepsInv(s, ops[0], clock);
      RunKeepsInv(Step(s, ops[0]), ops[1..], Reading(ops[0], clock));
    }
  }

  function Init(n: nat): State {
    State(seq(n, i => UNUSED), None)
  }

  /** A mark touches exactly the given key. */
  predicate MarksHit(stats: seq<KeyStats>, last: Option<nat>, now: Instant, reason: FailureReason) {
    && MostRecent(stats) == last
    && (forall i :: 0 <= i < |stats| && last != Some(i) ==>
          AfterSuccess(stats)[i] == stats[i] == AfterFailure(stats, now, reason)[i])
    && (last.Some? ==>
          Available(AfterSuccess(stats)[last.value], now) && !Available(AfterFailure(stats, now, reason)[last.value], now))
  }

  lemma MarksHitTheNewest(s: State, clock: Instant, now: Instant, reason: FailureReason)
    requires Inv(s, clock)
    ensures MarksHit(s.stats, s.last, now, reason)
  {
    hide CooldownSecs;
    var r := MostRecent(s.stats);
    if s.last.Some? {
      assert r.Some?;
      assert r == s.last;
      CooldownLadder(s.stats[r.value].consecutiveFailures + 1, reason);
    }
  }

  /** After any run, a mark touches exactly the key of the last successful selection, if there was one. */
  lemma MarksHitTheLastSelected(n: nat, ops: seq<Op>, start: Instant, now: Instant, reason: FailureReason)
    requires StrictClock(ops, start)
    ensures var s := Final(Init(n), ops);
            MarksHit(s.stats, s.last, now, reason)
  {
    RunKeepsInv(Init(n), ops, start);
    hide Final, MarksHit, Inv;
    MarksHitTheNewest(Final(Init(n), ops), FinalClock(ops, start), now, reason);
  }

  // ----- failures in a row

  /** A key that is not cooling down has no failures on record. */
  predicate Calm(s: State) {
    forall i :: 0 <= i < |s.stats| && s.stats[i].cooldownUntil.None? ==>
      s.stats[i].consecutiveFailures == 0 && s.stats[i].lastFailureReason.None?
  }

  lemma StepKeepsCalm(s: State, op: Op)
    requires Calm(s)
    ensures Calm(Step(s, op))
  {
    hide CooldownSecs;
  }

  lemma {:induction false} RunKeepsCalm(s: State, ops: seq<Op>)
    requires Calm(s)
    ensures Calm(Final(s, ops))
    decreases |ops|
  {
    hide Calm, Step;
    if ops == [] {
    } else {
      StepKeepsCalm(s, ops[0]);
      RunKeepsCalm(Step(s, ops[0]), ops[1..]);
    }
  }

  /** A selected key starts afresh. */
  lemma SelectedIsFresh(s: State, now: Instant)
    requires Calm(s) && Chosen(s, now).Some?
    ensures Step(s, Select(now)).stats[Chosen(s, now).value] == KeyStats(Some(now), None, 0, None)
  {
  }

  function Ladder(failures: nat, reason: FailureReason): nat
    requires failures > 0
  {
    var rung := if reason == AuthError || reason == Billing then failures + 1 else failures;
    if rung == 1 then 60 else if rung == 2 then 300 else if rung == 3 then 1500 else 3600
  }

  function Marks(failures: seq<(Instant, FailureReason)>): seq<Op> {
    if failures == [] then [] else [MarkFailure(failures[0].0, failures[0].1)] + Marks(failures[1..])
  }

  /** A key's record after some failures marked one after the other. */
  function AfterFailures(stats: KeyStats, failures: seq<(Instant, FailureReason)>): KeyStats
    requires failures != []
  {
    var n := stats.consecutiveFailures + |failures|;
    var (at, reason) := failures[|failures| - 1];
    KeyStats(stats.lastUsed, Some(at + Ladder(n, reason) * 1_000_000_000), n, Some(reason))
  }

  lemma OneFailure(s: State, clock: Instant, failure: (Instant, FailureReason))
    requires Inv(s, clock) && s.last.Some?
    ensures var i := s.last.value;
            Step(s, MarkFailure(failure.0, failure.1)).stats == s.stats[i := AfterFailures(s.stats[i], [failure])]
  {
    MarksHitTheNewest(s, clock, failure.0, failure.1);
    CooldownLadder(s.stats[s.last.value].consecutiveFailures + 1, failure.1);
    hide CooldownSecs;
  }

  lemma OneMoreFailure(stats: KeyStats, failures: seq<(Instant, FailureReason)>)
    requires |failures| > 1
    ensures AfterFailures(AfterFailures(stats, failures[..1]), failures[1..]) == AfterFailures(stats, failures)
  {
    hide Ladder;
  }

  lemma {:induction false} FailuresClimb(s: State, clock: Instant, failures: seq<(Instant, FailureReason)>)
    requires Inv(s, clock) && s.last.Some? && failures != []
    ensures var i := s.last.value;
            Final(s, Marks(failures)).stats == s.stats[i := AfterFailures(s.stats[i], failures)]
    decreases |failures|
  {
    var op := MarkFailure(failures[0].0, failures[0].1);
    var i, next := s.last.value, Step(s, op);
    OneFailure(s, clock, failures[0]);
    StepKeepsInv(s, op, clock);
    StepKeepsLast(s, op);
    assert failures[..1] == [failures[0]];
    hide AfterFailures, Ladder, Step;
    assert Marks(failures) == [op] + Marks(failures[1..]);
    assert ([op] + Marks(failures[1..]))[1..] == Marks(failures[1..]);
    if |failures| > 1 {
      FailuresClimb(next, clock, failures[1..]);
      OneMoreFailure(s.stats[i], failures);
      hide Inv;
      UpdateTwice(s.stats, i, next.stats[i], AfterFailures(s.stats[i], failures));
    } else {
      assert failures == [failures[0]] && failures[1..] == [];
      assert Marks([]) == [] && Final(next, []) == next;
    }
  }

  lemma UpdateTwice<T>(s: seq<T>, i: nat, x: T, y: T)
    requires i < |s|
    ensures s[i := x][i := y] == s[i := y]
  {
  }

  lemma StepKeepsLast(s: State, op: Op)
    requires !op.Select?
    ensures Step(s, op).last == s.last
  {
  }

  /** After any run under a strictly increasing clock, k failures marked in a row after a selection put the selected key
      into the cooldown of the k-th rung, counted from the last of them, and change no other key. */
  lemma KthFailureInARow(n: nat, ops: seq<Op>, start: Instant, t: Instant, failures: seq<(Instant, FailureReason)>)
    requires StrictClock(ops, start) && FinalClock(ops, start) < t && failures != []
    requires Chosen(Final(Init(n), ops), t).Some?
    ensures var s := Final(Init(n), ops);
            var i, selected := Chosen(s, t).value, Step(s, Select(t));
            && i < |selected.stats| && selected.stats[i] == KeyStats(Some(t), None, 0, None)
            && Final(selected, Marks(failures)).stats ==
               selected.stats[i := AfterFailures(KeyStats(Some(t), None, 0, None), failures)]
  {
    RunKeepsInv(Init(n), ops, start);
    RunKeepsCalm(Init(n), ops);
    var s := Final(Init(n), ops);
    hide Final, Chosen, Step, Inv, Calm, Marks, AfterFailures;
    SelectionStartsRow(s, FinalClock(ops, start), t, failures);
  }

  lemma SelectionStartsRow(s: State, clock: Instant, t: Instant, failures: seq<(Instant, FailureReason)>)
    requires Inv(s, clock) && Calm(s) && clock < t && failures != [] && Chosen(s, t).Some?
    ensures var i, selected := Chosen(s, t).value, Step(s, Select(t));
            && i < |selected.stats| && selected.stats[i] == KeyStats(Some(t), None, 0, None)
            && Final(selected, Marks(failures)).stats == selected.stats[i := AfterFailures(selected.stats[i], failures)]
  {
    SelectedIsFresh(s, t);
    StepKeepsInv(s, Select(t), clock);
    assert Step(s, Select(t)).last == Chosen(s, t);
    hide Step, Inv, Final, Chosen, Ladder, AfterFailures;
    FailuresClimb(Step(s, Select(t)), t, failures);
  }

  /** A selection fails exactly if every key is before the end of a cooldown, and never returns such a key. */
  lemma CooldownIsKept(s: State, now: Instant)
    ensures Chosen(s, now).None? <==>
              forall i :: 0 <= i < |s.stats| ==> s.stats[i].cooldownUntil.Some? && now < s.stats[i].cooldownUntil.value
    ensures Chosen(s, now).Some? && s.stats[Chosen(s, now).value].cooldownUntil.Some? ==>
              s.stats[Chosen(s, now).value].cooldownUntil.value <= now
  {
    var refreshed := RefreshedAll(s.stats, now);
    assert forall i :: 0 <= i < |s.stats| ==> (Available(refreshed[i], now) <==> Available(s.stats[i], now));
  }

  /** Every failure is marked directly after a successful selection. */
  predicate Paired(s: State, ops: seq<Op>, selected: bool)
    decreases |ops|
  {
    ops != [] ==>
      (ops[0].MarkFailure? ==> selected) &&
      Paired(Step(s, ops[0]), ops[1..], ops[0].Select? && Chosen(s, ops[0].now).Some?)
  }

  predicate AtMostOne(s: State) {
    forall i :: 0 <= i < |s.stats| ==> s.stats[i].consecutiveFailures <= 1
  }

  lemma StepKeepsAtMostOne(s: State, op: Op, clock: Instant, selected: bool)
    requires Inv(s, clock) && Calm(s) && AtMostOne(s) && (op.MarkFailure? ==> selected)
    requires selected ==> s.last.Some? && s.stats[s.last.value].consecutiveFailures == 0
    ensures AtMostOne(Step(s, op))
    ensures op.Select? && Chosen(s, op.now).Some? ==>
              Step(s, op).last.Some? && Step(s, op).last == Chosen(s, op.now) &&
              Step(s, op).stats[Chosen(s, op.now).value].consecutiveFailures == 0
  {
    hide Ladder, CooldownSecs, Inv;
    if op.MarkFailure? {
      LastIsKey(s, clock);
      OneFailure(s, clock, (op.now, op.reason));
    }
    if op.Select? && Chosen(s, op.now).Some? { SelectedIsFresh(s, op.now); }
  }

  lemma LastIsKey(s: State, clock: Instant)
    requires Inv(s, clock)
    ensures s.last.Some? ==> s.last.value < |s.stats|
  {
  }

  lemma {:induction false} PairedRun(s: State, ops: seq<Op>, clock: Instant, selected: bool)
    requires Inv(s, clock) && Calm(s) && AtMostOne(s) && StrictClock(ops, clock) && Paired(s, ops, selected)
    requires selected ==> s.last.Some? && s.last.value < |s.stats| && s.stats[s.last.value].consecutiveFailures == 0
    ensures AtMostOne(Final(s, ops))
    decreases |ops|
  {
    if ops == [] {
    } else {
      var op := ops[0];
      StepKeepsInv(s, op, clock);
      StepKeepsCalm(s, op);
      StepKeepsAtMostOne(s, op, clock, selected);
      hide Step, Inv, Calm, AtMostOne, Chosen;
      PairedRun(Step(s, op), ops[1..], Reading(op, clock), op.Select? && Chosen(s, op.now).Some?);
    }
  }

  /** A caller that marks each failure right after its own selection never climbs the ladder: an expired cooldown clears
      the record before the key is selected again. */
  lemma PairedUseStaysOnFirstRung(n: nat, ops: seq<Op>, start: Instant)
    requires StrictClock(ops, start) && Paired(Init(n), ops, false)
    ensures forall i :: 0 <= i < |Final(Init(n), ops).stats| ==> Final(Init(n), ops).stats[i].consecutiveFailures <= 1
  {
    PairedRun(Init(n), ops, start, false);
  }

  // ----- fairness

  function Selections(ops: seq<Op>): nat {
    if ops == [] then 0 else (if ops[0].Select? then 1 else 0) + Selections(ops[1..])
  }

  /** Key k is out of cooldown at every selection of the run. */
  predicate AvailableThroughout(s: State, ops: seq<Op>, k: nat)
    decreases |ops|
  {
    ops != [] ==>
      (ops[0].Select? ==> k < |s.stats| && Available(s.stats[k], ops[0].now)) &&
      AvailableThroughout(Step(s, ops[0]), ops[1..], k)
  }

  /** Every selection reads a clock later than the last use of key k itself. */
  predicate LaterThroughout(s: State, ops: seq<Op>, k: nat)
    decreases |ops|
  {
    ops != [] ==>
      (ops[0].Select? ==> k < |s.stats| && Older(s.stats[k].lastUsed, Some(ops[0].now))) &&
      LaterThroughout(Step(s, ops[0]), ops[1..], k)
  }

  predicate Returned(s: State, ops: seq<Op>, k: nat)
    decreases |ops|
  {
    ops != [] && ((ops[0].Select? && Chosen(s, ops[0].now) == Some(k)) || Returned(Step(s, ops[0]), ops[1..], k))
  }

  /** Key j precedes key k in the rotation. */
  predicate Precedes(stats: seq<KeyStats>, j: nat, k: nat)
    requires j < |stats| && k < |stats|
  {
    Older(stats[j].lastUsed, stats[k].lastUsed) || (stats[j].lastUsed == stats[k].lastUsed && j < k)
  }

  /** For any clock readings, an available key is chosen if and only if no other available key is older,
      or tied with a smaller index. */
  lemma ChosenExactly(s: State, now: Instant, k: nat)
    requires k < |s.stats| && Available(s.stats[k], now)
    ensures Chosen(s, now).Some? && Available(s.stats[Chosen(s, now).value], now)
    ensures Chosen(s, now) == Some(k) <==>
              forall j :: 0 <= j < |s.stats| && j != k && Available(s.stats[j], now) ==> !Precedes(s.stats, j, k)
    ensures Chosen(s, now) != Some(k) ==> Precedes(s.stats, Chosen(s, now).value, k)
  {
    var refreshed := RefreshedAll(s.stats, now);
    assert forall j :: 0 <= j < |s.stats| ==>
             refreshed[j].lastUsed == s.stats[j].lastUsed && (Available(refreshed[j], now) <==> Available(s.stats[j], now));
    assert Available(refreshed[k], now);
    var b := Chosen(s, now).value;
    if b != k { assert Precedes(s.stats, b, k); }
  }

  /** The keys that precede k. */
  function Ahead(stats: seq<KeyStats>, k: nat): set<nat>
    requires k < |stats|
  {
    set j: nat | j < |stats| && Precedes(stats, j, k)
  }

  /** Passing over an available key by a later reading uses up one of the keys ahead of it. */
  lemma PassingShrinksAhead(s: State, now: Instant, k: nat)
    requires k < |s.stats| && Available(s.stats[k], now) && Older(s.stats[k].lastUsed, Some(now))
    requires Chosen(s, now) != Some(k)
    ensures |Ahead(AfterSelect(s.stats, now), k)| < |Ahead(s.stats, k)|
  {
    hide AfterSelect, Chosen;
    SelectUses(s, now);
    ChosenExactly(s, now, k);
    var b := Chosen(s, now).value;
    var before, after := Ahead(s.stats, k), Ahead(AfterSelect(s.stats, now), k);
    assert after <= before - {b};
    SubsetSize(after, before - {b});
  }

  lemma {:induction false} PatienceIsBounded(s: State, ops: seq<Op>, k: nat)
    requires k < |s.stats| && AvailableThroughout(s, ops, k) && LaterThroughout(s, ops, k)
    requires Selections(ops) > |Ahead(s.stats, k)|
    ensures Returned(s, ops, k)
    decreases |ops|
  {
    var op := ops[0];
    var next := Step(s, op);
    if op.Select? {
      SelectUses(s, op.now);
      if Chosen(s, op.now) != Some(k) {
        PassingShrinksAhead(s, op.now, k);
        PatienceIsBounded(next, ops[1..], k);
      }
    } else {
      MarksKeepUse(s, op);
      assert Ahead(next.stats, k) == Ahead(s.stats, k);
      PatienceIsBounded(next, ops[1..], k);
    }
  }

  lemma AheadIsFewer(stats: seq<KeyStats>, k: nat)
    requires k < |stats|
    ensures |Ahead(stats, k)| < |stats|
  {
    SubsetSize(Ahead(stats, k), Indices(|stats|) - {k});
  }

  /** No starvation, from any state and under any clock: a key out of cooldown at as many selections as there are keys,
      each reading later than the key's own last use, is returned by at least one of them, whatever marks come in between. */
  lemma NoStarvation(s: State, ops: seq<Op>, k: nat)
    requires k < |s.stats| && AvailableThroughout(s, ops, k) && LaterThroughout(s, ops, k)
    requires Selections(ops) >= |s.stats|
    ensures Returned(s, ops, k)
  {
    AheadIsFewer(s.stats, k);
    PatienceIsBounded(s, ops, k);
  }

  /** A strictly increasing clock always reads later than any use. */
  lemma {:induction false} StrictClockIsLater(s: State, ops: seq<Op>, clock: Instant, k: nat)
    requires k < |s.stats| && Inv(s, clock) && StrictClock(ops, clock)
    ensures LaterThroughout(s, ops, k)
    decreases |ops|
  {
    if ops == [] {
    } else {
      StepKeepsInv(s, ops[0], clock);
      hide Step;
      StrictClockIsLater(Step(s, ops[0]), ops[1..], Reading(ops[0], clock), k);
    }
  }

  /** In particular after any history of a new rotator under such a clock. */
  lemma NoStarvationUnderStrictClock(n: nat, history: seq<Op>, ops: seq<Op>, start: Instant, k: nat)
    requires k < n && StrictClock(history, start) && StrictClock(ops, FinalClock(history, start))
    requires AvailableThroughout(Final(Init(n), history), ops, k) && Selections(ops) >= n
    ensures Returned(Final(Init(n), history), ops, k)
  {
    RunKeepsInv(Init(n), history, start);
    StrictClockIsLater(Final(Init(n), history), ops, FinalClock(history, start), k);
    NoStarvation(Final(Init(n), history), ops, k);
  }

  // ----- a clock that stands still

  function Stalled(now: Instant, m: nat): seq<Op> {
    if m == 0 then [] else [Select(now)] + Stalled(now, m - 1)
  }

  /** Key k was used at this very reading and nothing later. */
  predicate UsedJustNow(s: State, now: Instant, k: nat) {
    && k < |s.stats| && Available(s.stats[k], now) && s.stats[k].lastUsed == Some(now)
    && forall i :: 0 <= i < |s.stats| && s.stats[i].lastUsed.Some? ==> s.stats[i].lastUsed.value <= now
  }

  /** Some available key has a smaller index than k. */
  predicate Blocked(s: State, now: Instant, k: nat) {
    exists j :: 0 <= j < k && j < |s.stats| && Available(s.stats[j], now)
  }

  lemma StalledStep(s: State, now: Instant, k: nat)
    requires UsedJustNow(s, now, k)
    ensures var next := Step(s, Select(now));
            && UsedJustNow(next, now, k) && |next.stats| == |s.stats|
            && (Blocked(next, now, k) <==> Blocked(s, now, k))
            && forall i :: 0 <= i < |s.stats| ==> (Available(next.stats[i], now) <==> Available(s.stats[i], now))
  {
    SelectUses(s, now);
    var next := Step(s, Select(now));
    assert forall i :: 0 <= i < |s.stats| ==> (Available(next.stats[i], now) <==> Available(s.stats[i], now));
  }

  lemma ReturnedFirst(s: State, now: Instant, k: nat, m: nat)
    requires m > 0
    ensures Returned(s, Stalled(now, m), k) <==>
              Chosen(s, now) == Some(k) || Returned(Step(s, Select(now)), Stalled(now, m - 1), k)
  {
    hide Step, Chosen;
    var ops := Stalled(now, m);
    assert ops[0] == Select(now) && ops[1..] == Stalled(now, m - 1);
  }

  lemma BlockedKeyIsPassed(s: State, now: Instant, k: nat)
    requires UsedJustNow(s, now, k) && Blocked(s, now, k)
    ensures Chosen(s, now) != Some(k)
  {
    hide Chosen;
    var j :| 0 <= j < k && Available(s.stats[j], now);
    assert Precedes(s.stats, j, k);
    ChosenExactly(s, now, k);
  }

  lemma {:induction false} BlockedKeyStarves(s: State, now: Instant, k: nat, m: nat)
    requires UsedJustNow(s, now, k) && Blocked(s, now, k)
    ensures !Returned(s, Stalled(now, m), k)
    decreases m
  {
    hide Step, Chosen, Blocked, UsedJustNow;
    if m == 0 {
    } else {
      ReturnedFirst(s, now, k, m);
      BlockedKeyIsPassed(s, now, k);
      StalledStep(s, now, k);
      BlockedKeyStarves(Step(s, Select(now)), now, k, m - 1);
    }
  }

  /** The available keys older than the reading. */
  function Contenders(s: State, now: Instant): set<nat> {
    set j: nat | j < |s.stats| && Available(s.stats[j], now) && Older(s.stats[j].lastUsed, Some(now))
  }

  lemma PassingShrinksContenders(s: State, now: Instant, k: nat)
    requires UsedJustNow(s, now, k) && !Blocked(s, now, k) && Chosen(s, now) != Some(k)
    ensures |Contenders(Step(s, Select(now)), now)| < |Contenders(s, now)|
  {
    ChosenExactly(s, now, k);
    StalledStep(s, now, k);
    SelectUses(s, now);
    hide Chosen, AfterSelect;
    var b := Chosen(s, now).value;
    var before, after := Contenders(s, now), Contenders(Step(s, Select(now)), now);
    assert b in before && after <= before - {b};
    SubsetSize(after, before - {b});
  }

  lemma {:induction false} UnblockedKeyIsServed(s: State, now: Instant, k: nat, m: nat)
    requires UsedJustNow(s, now, k) && !Blocked(s, now, k) && m > |Contenders(s, now)|
    ensures Returned(s, Stalled(now, m), k)
    decreases m
  {
    hide Step, Chosen, Blocked, UsedJustNow, Contenders;
    ReturnedFirst(s, now, k, m);
    if Chosen(s, now) != Some(k) {
      PassingShrinksContenders(s, now, k);
      StalledStep(s, now, k);
      UnblockedKeyIsServed(Step(s, Select(now)), now, k, m - 1);
    }
  }

  /** While the clock stands at the last use of an available key, that key is never returned again if and only if an
      available key has a smaller index; otherwise it is returned within as many selections as there are keys. */
  lemma StalledClockExactly(s: State, now: Instant, k: nat)
    requires UsedJustNow(s, now, k)
    ensures Blocked(s, now, k) ==> forall m: nat :: !Returned(s, Stalled(now, m), k)
    ensures !Blocked(s, now, k) ==> Returned(s, Stalled(now, |s.stats|), k)
  {
    if Blocked(s, now, k) {
      forall m: nat ensures !Returned(s, Stalled(now, m), k) { BlockedKeyStarves(s, now, k, m); }
    } else {
      SubsetSize(Contenders(s, now), Indices(|s.stats|) - {k});
      UnblockedKeyIsServed(s, now, k, |s.stats|);
    }
  }

  /** In particular, once all keys are available and were used at the standing reading, only the first is ever returned. */
  lemma AllTiedServesOnlyTheFirst(s: State, now: Instant, k: nat, m: nat)
    requires 0 < k < |s.stats|
    requires forall i :: 0 <= i < |s.stats| ==> Available(s.stats[i], now) && s.stats[i].lastUsed == Some(now)
    ensures !Returned(s, Stalled(now, m), k)
  {
    assert Available(s.stats[0], now);
    BlockedKeyStarves(s, now, k, m);
  }
}
