/** The restart limiter of the channel health monitor. */
module Health {
  import opened Wrappers
  import opened Clock
  import opened Arithmetic

  const RESTART_COOLDOWN: int := 10 * 60 * SECOND

  const HOUR: int := 3600 * SECOND

  const MAX_RESTARTS_PER_HOUR: nat := 6

  function After(history: seq<Instant>, t: Instant): (r: seq<Instant>)
    ensures forall i :: 0 <= i < |r| ==> r[i] > t
  {
    if history == [] then []
    else if history[0] > t then [history[0]] + After(history[1..], t)
    else After(history[1..], t)
  }

  /** The limiter's record: the last accepted restart and the restarts it remembers. */
  datatype Restarts = Restarts(last: Option<Instant>, history: seq<Instant>)

  predicate CoolingDown(r: Restarts, now: Instant) {
    r.last.Some? && now - r.last.value < RESTART_COOLDOWN
  }

  predicate Accepts(r: Restarts, now: Instant) {
    !CoolingDown(r, now) && |After(r.history, now - HOUR)| < MAX_RESTARTS_PER_HOUR
  }

  function Tried(r: Restarts, now: Instant): Restarts {
    var recent := After(r.history, now - HOUR);
    if CoolingDown(r, now) then r
    else if |recent| >= MAX_RESTARTS_PER_HOUR then Restarts(r.last, recent)
    else Restarts(Some(now), recent + [now])
  }

  class ChannelHealth {
    var lastRestartAt: Option<Instant>
    var restartHistory: seq<Instant>

    function Record(): Restarts
      reads this
    {
      Restarts(lastRestartAt, restartHistory)
    }

    constructor ()
      ensures Record() == Restarts(None, [])
    {
      lastRestartAt, restartHistory := None, [];
    }

    method TryRestart(now: Instant) returns (ok: bool)
      modifies this
      ensures ok == Accepts(old(Record()), now)
      ensures Record() == Tried(old(Record()), now)
    {
      match lastRestartAt {
        case Some(last) =>
          if now - last < RESTART_COOLDOWN {
            return false;
          }
        case None =>
      }
      var oneHourAgo := now - HOUR;
      restartHistory := After(restartHistory, oneHourAgo);
      if |restartHistory| >= MAX_RESTARTS_PER_HOUR {
        return false;
      }
      lastRestartAt := Some(now);
      restartHistory := restartHistory + [now];
      return true;
    }
  }

  // ----- whole runs

  function Run(r: Restarts, calls: seq<Instant>): Restarts
    decreases |calls|
  {
    if calls == [] then r else Run(Tried(r, calls[0]), calls[1..])
  }

  /** The instants of all accepted restarts of a run. */
  function Accepted(r: Restarts, calls: seq<Instant>): seq<Instant>
    decreases |calls|
  {
    if calls == [] then []
    else (if Accepts(r, calls[0]) then [calls[0]] else []) + Accepted(Tried(r, calls[0]), calls[1..])
  }

  /** The simple limiter that knows only the last restart. */
  function CooldownOnly(last: Option<Instant>, calls: seq<Instant>): seq<Instant>
    decreases |calls|
  {
    if calls == [] then []
    else if last.Some? && calls[0] - last.value < 600_000_000_000 then CooldownOnly(last, calls[1..])
    else [calls[0]] + CooldownOnly(Some(calls[0]), calls[1..])
  }

  predicate Spaced(log: seq<Instant>) {
    forall i, j :: 0 <= i < j < |log| ==> log[j] - log[i] >= (j - i) * RESTART_COOLDOWN
  }

  /** The record summarises a full log: its last entry, and the entries of the hour that ended there. */
  predicate Summarises(r: Restarts, log: seq<Instant>) {
    && Spaced(log)
    && r.last == (if log == [] then None else Some(log[|log| - 1]))
    && r.history == (if log == [] then [] else After(log, log[|log| - 1] - 3_600_000_000_000))
  }

  lemma {:induction false} AfterAgain(s: seq<Instant>, t: Instant, u: Instant)
    requires t <= u
    ensures After(After(s, t), u) == After(s, u)
  {
    if s == [] {
    } else {
      AfterAgain(s[1..], t, u);
    }
  }

  lemma {:induction false} AfterAppend(s: seq<Instant>, x: Instant, t: Instant)
    ensures After(s + [x], t) == After(s, t) + (if x > t then [x] else [])
  {
    if s == [] {
      assert [x][1..] == [];
    } else {
      assert (s + [x])[1..] == s[1..] + [x];
      AfterAppend(s[1..], x, t);
    }
  }

  /** In a spaced log the entries after an instant are a suffix. */
  lemma {:induction false} AfterIsSuffix(log: seq<Instant>, t: Instant)
    requires Spaced(log)
    ensures |After(log, t)| <= |log| && After(log, t) == log[|log| - |After(log, t)|..]
  {
    if log == [] {
    } else {
      AfterIsSuffix(log[1..], t);
      if log[0] > t {
        AfterAll(log, t);
      }
    }
  }

  lemma {:induction false} AfterAll(log: seq<Instant>, t: Instant)
    requires forall i :: 0 <= i < |log| ==> log[i] > t
    ensures After(log, t) == log
  {
    if log == [] {
    } else {
      AfterAll(log[1..], t);
    }
  }

  lemma {:induction false} SpacedSuffix(log: seq<Instant>, n: nat)
    requires Spaced(log) && n <= |log|
    ensures Spaced(log[n..])
  {
    var s := log[n..];
    forall i, j | 0 <= i < j < |s| ensures s[j] - s[i] >= (j - i) * RESTART_COOLDOWN {
      assert log[n + j] - log[n + i] >= (n + j - (n + i)) * RESTART_COOLDOWN;
    }
  }

  /** Spaced entries inside a span shorter than k cooldowns number at most k. */
  lemma SpanHolds(log: seq<Instant>, span: int, k: nat)
    requires Spaced(log) && (log != [] ==> log[|log| - 1] - log[0] < span)
    requires span <= k * RESTART_COOLDOWN
    ensures |log| <= k
  {
    if |log| > 1 {
      assert log[|log| - 1] - log[0] >= (|log| - 1 - 0) * RESTART_COOLDOWN;
    } else {
      assert log != [] ==> 0 < span;
    }
  }

  lemma RecentIsShort(log: seq<Instant>, now: Instant)
    requires Spaced(log) && (log != [] ==> now - log[|log| - 1] >= RESTART_COOLDOWN)
    ensures |After(log, now - HOUR)| <= 5
  {
    hide After, Spaced;
    var recent := After(log, now - HOUR);
    AfterIsSuffix(log, now - HOUR);
    SpacedSuffix(log, |log| - |recent|);
    assert recent != [] ==> recent[|recent| - 1] == log[|log| - 1];
    SpanHolds(recent, HOUR - RESTART_COOLDOWN, 5);
  }

  /** Once the cooldown has passed at most five remembered restarts are left, so the hourly test never refuses. */
  lemma HourlyTestNeverRefuses(r: Restarts, log: seq<Instant>, now: Instant)
    requires Summarises(r, log) && !CoolingDown(r, now)
    ensures |After(r.history, now - HOUR)| <= 5
    ensures Accepts(r, now)
    ensures After(r.history, now - HOUR) == After(log, now - HOUR)
  {
    hide Spaced;
    if log != [] {
      hide After;
      AfterAgain(log, log[|log| - 1] - HOUR, now - HOUR);
    }
    RecentIsShort(log, now);
  }

  lemma AppendKeepsSpaced(log: seq<Instant>, now: Instant)
    requires Spaced(log) && (log != [] ==> now - log[|log| - 1] >= RESTART_COOLDOWN)
    ensures Spaced(log + [now])
  {
    var next := log + [now];
    forall i, j | 0 <= i < j < |next| ensures next[j] - next[i] >= (j - i) * RESTART_COOLDOWN {
      if j == |log| && i < |log| - 1 {
        assert log[|log| - 1] - log[i] >= (|log| - 1 - i) * RESTART_COOLDOWN;
      }
    }
  }

  lemma TryKeepsSummary(r: Restarts, log: seq<Instant>, now: Instant)
    requires Summarises(r, log)
    ensures Summarises(Tried(r, now), if Accepts(r, now) then log + [now] else log)
    ensures Accepts(r, now) <==> !CoolingDown(r, now)
    ensures Tried(r, now).last == if CoolingDown(r, now) then r.last else Some(now)
  {
    if !CoolingDown(r, now) {
      HourlyTestNeverRefuses(r, log, now);
      AppendKeepsSpaced(log, now);
      AfterAppend(log, now, now - HOUR);
    }
  }

  /** After any call sequence the record is the summary of the full log of accepted restarts. */
  lemma {:induction false} RunKeepsSummary(r: Restarts, log: seq<Instant>, calls: seq<Instant>)
    requires Summarises(r, log)
    ensures Summarises(Run(r, calls), log + Accepted(r, calls))
    decreases |calls|
  {
    hide Summarises, Tried, Accepts;
    if calls == [] {
      assert log + [] == log;
    } else {
      var now := calls[0];
      var log' := if Accepts(r, now) then log + [now] else log;
      TryKeepsSummary(r, log, now);
      RunKeepsSummary(Tried(r, now), log', calls[1..]);
      var rest := Accepted(Tried(r, now), calls[1..]);
      assert log + Accepted(r, calls) == log' + rest;
    }
  }

  /** The calls accepted are exactly those of the limiter that checks the cooldown alone. */
  lemma {:induction false} RefinesCooldown(r: Restarts, log: seq<Instant>, calls: seq<Instant>)
    requires Summarises(r, log)
    ensures Accepted(r, calls) == CooldownOnly(r.last, calls)
    decreases |calls|
  {
    hide Summarises, Tried, Accepts;
    if calls == [] {
    } else {
      var now := calls[0];
      var log' := if Accepts(r, now) then log + [now] else log;
      TryKeepsSummary(r, log, now);
      RefinesCooldown(Tried(r, now), log', calls[1..]);
    }
  }

  function CountIn(log: seq<Instant>, a: Instant, b: Instant): nat {
    if log == [] then 0 else (if a <= log[0] < b then 1 else 0) + CountIn(log[1..], a, b)
  }

  /** The entries of a spaced log in a half-open span of k cooldowns number at most k. */
  lemma {:induction false} CountBound(log: seq<Instant>, a: Instant, k: nat)
    requires Spaced(log)
    ensures CountIn(log, a, a + k * RESTART_COOLDOWN) <= k
    ensures log != [] && log[0] >= a ==>
              CountIn(log, a, a + k * RESTART_COOLDOWN) * RESTART_COOLDOWN
                <= Max(0, a + k * RESTART_COOLDOWN - log[0] + RESTART_COOLDOWN - 1)
  {
    if log == [] {
    } else {
      SpacedSuffix(log, 1);
      CountBound(log[1..], a, k);
      if |log| > 1 { assert log[1] - log[0] >= (1 - 0) * RESTART_COOLDOWN; }
    }
  }

  /** From a fresh limiter: accepted restarts are at least ten minutes apart, and any half-open hour holds at most six. */
  lemma RestartRate(calls: seq<Instant>, a: Instant)
    ensures Spaced(Accepted(Restarts(None, []), calls))
    ensures CountIn(Accepted(Restarts(None, []), calls), a, a + 3_600_000_000_000) <= 6
  {
    RunKeepsSummary(Restarts(None, []), [], calls);
    var log := Accepted(Restarts(None, []), calls);
    assert [] + log == log;
    CountBound(log, a, 6);
  }
}
