/** The session table of the agent protocol server: time-to-live, least-recently-used eviction, creation rate. */
module Acp {
  import opened Wrappers
  import opened Text
  import opened Clock
  import opened Sets

  type SessionId = string

  const RATE_WINDOW: nat := 10 * SECOND

  const MAX_MESSAGE_BYTES: nat := 2 * 1024 * 1024

  datatype Options = Options(maxSessions: nat, sessionTtl: nat, rateLimitPerWindow: nat)

  datatype Session = Session(sessionId: SessionId, sessionKey: string, createdAt: Instant, lastTouched: Instant)

  type Sessions = map<SessionId, Session>

  datatype AcpError = RateLimited | SessionNotFound | InvalidParams

  function Unexpired(options: Options, sessions: Sessions, now: Instant): Sessions {
    map id | id in sessions && Since(now, sessions[id].lastTouched) < options.sessionTtl :: sessions[id]
  }

  predicate LeastRecent(sessions: Sessions, id: SessionId) {
    id in sessions && forall other :: other in sessions ==> sessions[id].lastTouched <= sessions[other].lastTouched
  }

  /** The table after an eviction that chose the given victim; no eviction below the limit or of an empty table. */
  function Evicted(options: Options, sessions: Sessions, victim: SessionId): Sessions {
    if |sessions| >= options.maxSessions then sessions - {victim} else sessions
  }

  predicate VictimAllowed(options: Options, sessions: Sessions, victim: SessionId) {
    |sessions| >= options.maxSessions && |sessions| > 0 ==> LeastRecent(sessions, victim)
  }

  function Created(sessions: Sessions, id: SessionId, now: Instant): Sessions {
    sessions[id := Session(id, "acp:" + id, now, now)]
  }

  function Touched(sessions: Sessions, id: SessionId, now: Instant): Sessions {
    if id in sessions then sessions[id := sessions[id].(lastTouched := now)] else sessions
  }

  datatype RateWindow = RateWindow(start: Instant, count: nat)

  predicate Admits(options: Options, w: RateWindow, now: Instant) {
    Since(now, w.start) > RATE_WINDOW || w.count < options.rateLimitPerWindow
  }

  function Admitted(options: Options, w: RateWindow, now: Instant): RateWindow {
    if Since(now, w.start) > RATE_WINDOW then RateWindow(now, 1)
    else if w.count < options.rateLimitPerWindow then RateWindow(w.start, w.count + 1)
    else w
  }

  lemma {:induction false} SomeLeastRecent(sessions: Sessions, candidates: set<SessionId>) returns (id: SessionId)
    requires candidates != {} && candidates <= sessions.Keys
    ensures id in candidates
    ensures forall other :: other in candidates ==> sessions[id].lastTouched <= sessions[other].lastTouched
    decreases |candidates|
  {
    id :| id in candidates;
    if candidates != {id} {
      var best := SomeLeastRecent(sessions, candidates - {id});
      if sessions[best].lastTouched < sessions[id].lastTouched { id := best; }
    }
  }

  class AcpServer {
    const options: Options
    var sessions: Sessions
    var rateWindow: RateWindow

    constructor (options: Options, now: Instant)
      ensures this.options == options && sessions == map[] && rateWindow == RateWindow(now, 0)
    {
      this.options := options;
      sessions := map[];
      rateWindow := RateWindow(now, 0);
    }

    method CheckRateLimit(now: Instant) returns (ok: bool)
      modifies this`rateWindow
      ensures ok == Admits(options, old(rateWindow), now)
      ensures rateWindow == Admitted(options, old(rateWindow), now)
    {
      if Since(now, rateWindow.start) > RATE_WINDOW {
        rateWindow := RateWindow(now, 1);
        return true;
      } else if rateWindow.count < options.rateLimitPerWindow {
        rateWindow := rateWindow.(count := rateWindow.count + 1);
        return true;
      } else {
        return false;
      }
    }

    method EvictExpired(now: Instant)
      modifies this`sessions
      ensures sessions == Unexpired(options, old(sessions), now)
    {
      sessions := map id | id in sessions && Since(now, sessions[id].lastTouched) < options.sessionTtl :: sessions[id];
    }

    /** Ties are broken by the table's iteration order, which is arbitrary. */
    method EvictLru() returns (victim: SessionId)
      modifies this`sessions
      ensures sessions == old(sessions) - {victim}
      ensures old(sessions) != map[] ==> LeastRecent(old(sessions), victim)
    {
      victim := "";
      var todo := sessions.Keys;
      var best: Option<SessionId> := None;
      while todo != {}
        invariant todo <= sessions.Keys
        invariant best.None? ==> todo == sessions.Keys
        invariant best.Some? ==> best.value in sessions && best.value !in todo &&
                                 forall other :: other in sessions && other !in todo ==>
                                   sessions[best.value].lastTouched <= sessions[other].lastTouched
        decreases |todo|
      {
        var id :| id in todo;
        todo := todo - {id};
        if best.None? || sessions[id].lastTouched < sessions[best.value].lastTouched {
          best := Some(id);
        }
      }
      if best.Some? {
        victim := best.value;
        sessions := sessions - {victim};
      } else {
        assert sessions.Keys == {};
      }
    }

    /** The identifier is freshly generated by the caller's random source. */
    method HandleNewSession(newId: SessionId, checkedAt: Instant, evictAt: Instant, insertAt: Instant)
      returns (r: Result<SessionId, AcpError>, ghost victim: SessionId)
      modifies this
      ensures rateWindow == Admitted(options, old(rateWindow), checkedAt)
      ensures r == if Admits(options, old(rateWindow), checkedAt) then Ok(newId) else Err(RateLimited)
      ensures r.Err? ==> sessions == old(sessions)
      ensures r.Ok? ==>
                var live := Unexpired(options, old(sessions), evictAt);
                VictimAllowed(options, live, victim) &&
                sessions == Created(Evicted(options, live, victim), newId, insertAt)
      ensures r.Ok? ==> newId in sessions && sessions[newId] == Session(newId, "acp:" + newId, insertAt, insertAt)
    {
      victim := "";
      var ok := CheckRateLimit(checkedAt);
      if !ok {
        return Err(RateLimited), victim;
      }
      EvictExpired(evictAt);
      if |sessions| >= options.maxSessions {
        victim := EvictLru();
      }
      sessions := sessions[newId := Session(newId, "acp:" + newId, insertAt, insertAt)];
      return Ok(newId), victim;
    }

    method HandleLoadSession(id: SessionId, now: Instant) returns (r: Result<(), AcpError>)
      modifies this`sessions
      ensures id == "" ==> r == Err(InvalidParams) && sessions == old(sessions)
      ensures id != "" ==> (r.Ok? <==> id in old(sessions)) && sessions == Touched(old(sessions), id, now)
      ensures id != "" && r.Err? ==> r == Err(SessionNotFound)
    {
      if id == "" {
        return Err(InvalidParams);
      }
      if id in sessions {
        sessions := sessions[id := sessions[id].(lastTouched := now)];
        return Ok(());
      }
      return Err(SessionNotFound);
    }

    /** The part of a prompt before the model is called: an empty id means no session. */
    method BeginPrompt(id: SessionId, message: string, now: Instant) returns (r: Result<Option<string>, AcpError>)
      modifies this`sessions
      ensures message == "" || ByteLen(message) > 2_097_152 ==> r == Err(InvalidParams) && sessions == old(sessions)
      ensures r.Ok? <==> message != "" && ByteLen(message) <= 2_097_152 && (id == "" || id in old(sessions))
      ensures r.Ok? ==> r.value == if id == "" then None else Some(old(sessions)[id].sessionKey)
      ensures sessions == if r.Ok? && id != "" then Touched(old(sessions), id, now) else old(sessions)
    {
      if message == "" {
        return Err(InvalidParams);
      }
      if ByteLen(message) > MAX_MESSAGE_BYTES {
        return Err(InvalidParams);
      }
      if id == "" {
        return Ok(None);
      }
      if id in sessions {
        var key := sessions[id].sessionKey;
        sessions := sessions[id := sessions[id].(lastTouched := now)];
        return Ok(Some(key));
      }
      return Err(SessionNotFound);
    }

    /** The part after a successful model call: the session may have been evicted meanwhile. */
    method EndPrompt(id: SessionId, sessionKey: string, now: Instant)
      modifies this`sessions
      ensures sessions == if id != "" && id in old(sessions)
                          then old(sessions)[id := old(sessions)[id].(sessionKey := sessionKey, lastTouched := now)]
                          else old(sessions)
    {
      if id != "" {
        if id in sessions {
          sessions := sessions[id := sessions[id].(sessionKey := sessionKey, lastTouched := now)];
        }
      }
    }
  }
}

/** Whole runs of the session table with the log of every creation and touch. */
module AcpRuns {
  import opened Wrappers
  import opened Clock
  import opened Arithmetic
  import opened Sets
  import opened Acp

  datatype Event =
    | New(id: SessionId, checkedAt: Instant, evictAt: Instant, insertAt: Instant, victim: SessionId)
    | Touch(id: SessionId, at: Instant)
    | Finish(id: SessionId, sessionKey: string, at: Instant)

  datatype Use = Use(id: SessionId, at: Instant)

  datatype State = State(sessions: Sessions, rateWindow: RateWindow, log: seq<Use>)

  function Live(options: Options, s: State, e: Event): Sessions
    requires e.New?
  {
    Unexpired(options, s.sessions, e.evictAt)
  }

  function Step(options: Options, s: State, e: Event): State {
    match e
    case New(id, checkedAt, evictAt, insertAt, victim) =>
      var w := Admitted(options, s.rateWindow, checkedAt);
      if Admits(options, s.rateWindow, checkedAt)
      then State(Created(Evicted(options, Live(options, s, e), victim), id, insertAt), w, s.log + [Use(id, insertAt)])
      else s.(rateWindow := w)
    case Touch(id, at) =>
      if id in s.sessions then State(Touched(s.sessions, id, at), s.rateWindow, s.log + [Use(id, at)]) else s
    case Finish(id, key, at) =>
      if id in s.sessions
      then State(Touched(s.sessions[id := s.sessions[id].(sessionKey := key)], id, at), s.rateWindow, s.log + [Use(id, at)])
      else s
  }

  function Start(e: Event): Instant {
    if e.New? then e.checkedAt else e.at
  }

  function End(e: Event): Instant {
    if e.New? then e.insertAt else e.at
  }

  /** Clock order, a victim the eviction may choose, and an identifier never used before. */
  predicate Legal(options: Options, s: State, e: Event, from: Instant) {
    && from <= Start(e) <= End(e)
    && (e.New? ==> e.checkedAt <= e.evictAt <= e.insertAt &&
                   VictimAllowed(options, Live(options, s, e), e.victim) &&
                   forall k :: 0 <= k < |s.log| ==> s.log[k].id != e.id)
  }

  predicate Run(options: Options, s: State, events: seq<Event>, from: Instant)
    decreases |events|
  {
    events != [] ==>
      Legal(options, s, events[0], from) && Run(options, Step(options, s, events[0]), events[1..], End(events[0]))
  }

  function Final(options: Options, s: State, events: seq<Event>): State
    decreases |events|
  {
    if events == [] then s else Final(options, Step(options, s, events[0]), events[1..])
  }

  function Init(now: Instant): State {
    State(map[], RateWindow(now, 0), [])
  }

  /** t is the instant of the latest use of the session. */
  predicate LastUsed(log: seq<Use>, id: SessionId, t: Instant) {
    Use(id, t) in log && forall k :: 0 <= k < |log| && log[k].id == id ==> log[k].at <= t
  }

  predicate UsedSince(log: seq<Use>, id: SessionId, t: Instant) {
    exists k :: 0 <= k < |log| && log[k].id == id && t <= log[k].at
  }

  predicate Stamped(s: State) {
    forall id :: id in s.sessions ==> LastUsed(s.log, id, s.sessions[id].lastTouched)
  }

  predicate NoneLater(log: seq<Use>, now: Instant) {
    forall k :: 0 <= k < |log| ==> log[k].at <= now
  }

  /** The table is within its limit and every time stamp is that of the session's latest use. */
  predicate Inv(options: Options, s: State, now: Instant) {
    && (|s.sessions| <= options.maxSessions || |s.sessions| == 1)
    && Stamped(s) && NoneLater(s.log, now)
  }

  lemma UseKeepsLast(log: seq<Use>, id: SessionId, t: Instant, now: Instant, other: SessionId, u: Instant)
    requires forall k :: 0 <= k < |log| ==> log[k].at <= now
    requires now <= t && (other != id ==> LastUsed(log, other, u)) && (other == id ==> u == t)
    ensures LastUsed(log + [Use(id, t)], other, u)
  {
    var after := log + [Use(id, t)];
    assert after[|log|] == Use(id, t);
    if other != id {
      var k :| 0 <= k < |log| && log[k] == Use(other, u);
      assert after[k] == Use(other, u);
    }
  }

  lemma StepKeepsSize(options: Options, s: State, e: Event)
    requires |s.sessions| <= options.maxSessions || |s.sessions| == 1
    requires e.New? ==> VictimAllowed(options, Live(options, s, e), e.victim)
    ensures var next := Step(options, s, e);
            |next.sessions| <= options.maxSessions || |next.sessions| == 1
  {
    var next := Step(options, s, e);
    match e
    case New(id, checkedAt, evictAt, insertAt, victim) =>
      hide Created, Evicted, VictimAllowed;
      SizeAfterNew(options, s.sessions, Live(options, s, e), victim, id, insertAt);
    case Touch(id, at) => assert next.sessions.Keys == s.sessions.Keys; SameKeysSameSize(next.sessions, s.sessions);
    case Finish(id, key, at) => assert next.sessions.Keys == s.sessions.Keys; SameKeysSameSize(next.sessions, s.sessions);
  }

  /** The session an event uses, if any, gets the event's time stamp, and all others left keep theirs. */
  lemma StepStamps(options: Options, s: State, e: Event)
    ensures var next := Step(options, s, e);
            && (next.log == s.log || next.log == s.log + [Use(e.id, End(e))])
            && forall id :: id in next.sessions ==>
                 if next.log != s.log && id == e.id then next.sessions[id].lastTouched == End(e)
                 else id in s.sessions && next.sessions[id].lastTouched == s.sessions[id].lastTouched
  {
  }

  lemma StampIsLastUse(options: Options, s: State, e: Event, now: Instant, id: SessionId)
    requires Inv(options, s, now) && Legal(options, s, e, now) && id in Step(options, s, e).sessions
    ensures var next := Step(options, s, e);
            LastUsed(next.log, id, next.sessions[id].lastTouched)
  {
    StepStamps(options, s, e);
    hide LastUsed, Step, VictimAllowed, Live;
    var next := Step(options, s, e);
    if next.log != s.log { UseKeepsLast(s.log, e.id, End(e), now, id, next.sessions[id].lastTouched); }
  }

  lemma LogGrows(log: seq<Use>, use: Use, now: Instant)
    requires NoneLater(log, now) && now <= use.at
    ensures NoneLater(log, use.at) && NoneLater(log + [use], use.at)
  {
  }

  lemma StepKeepsInv(options: Options, s: State, e: Event, now: Instant)
    requires Inv(options, s, now) && Legal(options, s, e, now)
    ensures Inv(options, Step(options, s, e), End(e))
  {
    StepKeepsSize(options, s, e);
    StepStamps(options, s, e);
    assert now <= End(e);
    LogGrows(s.log, Use(e.id, End(e)), now);
    assert Stamped(Step(options, s, e)) by { StampsStay(options, s, e, now); }
    hide Step, Legal, Stamped, NoneLater;
  }

  lemma StampsStay(options: Options, s: State, e: Event, now: Instant)
    requires Inv(options, s, now) && Legal(options, s, e, now)
    ensures Stamped(Step(options, s, e))
  {
    hide Step, Legal, Inv, LastUsed;
    var next := Step(options, s, e);
    forall id | id in next.sessions ensures LastUsed(next.log, id, next.sessions[id].lastTouched) {
      StampIsLastUse(options, s, e, now, id);
    }
  }

  lemma SameKeysSameSize<K, V>(a: map<K, V>, b: map<K, V>)
    requires a.Keys == b.Keys
    ensures |a| == |b|
  {
    assert |a| == |a.Keys| && |b| == |b.Keys|;
  }

  lemma SizeAfterNew(options: Options, sessions: Sessions, live: Sessions, victim: SessionId, id: SessionId, now: Instant)
    requires live.Keys <= sessions.Keys
    requires |sessions| <= options.maxSessions || |sessions| == 1
    requires VictimAllowed(options, live, victim)
    ensures var next := Created(Evicted(options, live, victim), id, now);
            |next| <= options.maxSessions || |next| == 1
  {
    SubsetSize(live.Keys, sessions.Keys);
    var kept := Evicted(options, live, victim);
    var next := Created(kept, id, now);
    assert next.Keys == kept.Keys + {id};
    if |live| >= options.maxSessions {
      assert kept.Keys == live.Keys - {victim};
      if |live| > 0 { assert |kept.Keys| == |live| - 1; } else { assert kept.Keys == {}; }
    }
    assert |next| == |next.Keys| <= |kept.Keys| + 1;
  }

  lemma {:induction false} RunKeepsInv(options: Options, s: State, events: seq<Event>, now: Instant)
    requires Inv(options, s, now) && Run(options, s, events, now)
    ensures Inv(options, Final(options, s, events), if events == [] then now else End(events[|events| - 1]))
    decreases |events|
  {
    if events == [] {
    } else {
      hide Step, Legal, Inv;
      StepKeepsInv(options, s, events[0], now);
      RunKeepsInv(options, Step(options, s, events[0]), events[1..], End(events[0]));
    }
  }

  /** The table never holds more than maxSessions sessions (one, if the limit is zero). */
  lemma TableIsBounded(options: Options, events: seq<Event>, start: Instant)
    requires Run(options, Init(start), events, start)
    ensures |Final(options, Init(start), events).sessions| <= if options.maxSessions == 0 then 1 else options.maxSessions
  {
    RunKeepsInv(options, Init(start), events, start);
  }

  /** Whatever happened before, a session leaves the table only in an admitted creation, and then either its
      time to live has passed or maxSessions others, the new one among them, were used since its last use. */
  lemma EvictionIsDeserved(options: Options, events: seq<Event>, start: Instant, e: Event, id: SessionId)
    returns (others: set<SessionId>)
    requires options.maxSessions >= 1 && Run(options, Init(start), events, start)
    requires var s := Final(options, Init(start), events);
             Legal(options, s, e, if events == [] then start else End(events[|events| - 1])) &&
             id in s.sessions && id !in Step(options, s, e).sessions
    ensures var s := Final(options, Init(start), events);
            var t := s.sessions[id].lastTouched;
            && e.New? && LastUsed(s.log, id, t)
            && (Since(e.evictAt, t) >= options.sessionTtl ||
                (|others| >= options.maxSessions && id !in others && e.id in others &&
                 forall o :: o in others ==> UsedSince(Step(options, s, e).log, o, t)))
  {
    RunKeepsInv(options, Init(start), events, start);
    var s := Final(options, Init(start), events);
    others := WorkingSet(options, s, if events == [] then start else End(events[|events| - 1]), e, id);
  }

  lemma InLog(log: seq<Use>, id: SessionId, t: Instant)
    requires LastUsed(log, id, t)
    ensures exists k :: 0 <= k < |log| && log[k] == Use(id, t)
  {
  }

  lemma LatestUse(log: seq<Use>, u: Use, t: Instant)
    requires t <= u.at
    ensures UsedSince(log + [u], u.id, t)
  {
    assert (log + [u])[|log|] == u;
  }

  lemma EarlierUse(log: seq<Use>, u: Use, id: SessionId, at: Instant, t: Instant)
    requires LastUsed(log, id, at) && t <= at
    ensures UsedSince(log + [u], id, t)
  {
    var k :| 0 <= k < |log| && log[k] == Use(id, at);
    assert (log + [u])[k] == Use(id, at);
  }

  lemma WorkingSet(options: Options, s: State, now: Instant, e: Event, id: SessionId) returns (others: set<SessionId>)
    requires options.maxSessions >= 1 && Inv(options, s, now) && Legal(options, s, e, now)
    requires id in s.sessions && id !in Step(options, s, e).sessions
    ensures var t := s.sessions[id].lastTouched;
            && e.New?
            && (Since(e.evictAt, t) >= options.sessionTtl ||
                (|others| >= options.maxSessions && id !in others && e.id in others &&
                 forall o :: o in others ==> UsedSince(Step(options, s, e).log, o, t)))
  {
    others := {};
    hide LastUsed, UsedSince;
    var t := s.sessions[id].lastTouched;
    var live := Live(options, s, e);
    if id in live {
      var log := Step(options, s, e).log;
      assert LastUsed(s.log, id, t);
      assert e.id != id;
      assert id == e.victim && LeastRecent(live, id);
      assert e.id !in live by {
        if e.id in live { InLog(s.log, e.id, s.sessions[e.id].lastTouched); }
      }
      others := live.Keys - {id} + {e.id};
      assert |others| == |live.Keys| - 1 + 1;
      forall o | o in others ensures UsedSince(log, o, t) {
        if o == e.id {
          InLog(s.log, id, t);
          LatestUse(s.log, Use(o, e.insertAt), t);
        } else {
          assert LastUsed(s.log, o, s.sessions[o].lastTouched);
          EarlierUse(s.log, Use(e.id, e.insertAt), o, s.sessions[o].lastTouched, t);
        }
      }
    }
  }

  // ----- the creation rate

  /** The event creates a session: a use is logged. */
  predicate Creates(options: Options, s: State, e: Event) {
    e.New? && Step(options, s, e).log != s.log
  }

  function CountCreations(options: Options, s: State, events: seq<Event>, a: Instant): nat
    decreases |events|
  {
    if events == [] then 0
    else
      (if Creates(options, s, events[0]) && a <= events[0].checkedAt <= a + 10_000_000_000 then 1 else 0) +
      CountCreations(options, Step(options, s, events[0]), events[1..], a)
  }

  function RateBudget(options: Options, w: RateWindow, a: Instant, p: Instant): nat {
    var left := if w.count < options.rateLimitPerWindow then options.rateLimitPerWindow - w.count else 0;
    if p > a + RATE_WINDOW then 0
    else if w.start >= a then left
    else left + Max(1, options.rateLimitPerWindow)
  }

  lemma {:induction false} CreationsWithinBudget(options: Options, s: State, events: seq<Event>, from: Instant, a: Instant)
    requires Run(options, s, events, from) && a <= from && s.rateWindow.start <= from
    ensures CountCreations(options, s, events, a) <= RateBudget(options, s.rateWindow, a, from)
    decreases |events|
  {
    if events == [] {
    } else {
      CreationsWithinBudget(options, Step(options, s, events[0]), events[1..], End(events[0]), a);
    }
  }

  /** Any interval of one rate window admits at most one limit's worth of creations twice over. */
  lemma {:induction false} CreationsPerWindow(options: Options, s: State, events: seq<Event>, from: Instant, a: Instant)
    requires Run(options, s, events, from) && s.rateWindow.start <= from
    ensures CountCreations(options, s, events, a) <= options.rateLimitPerWindow + Max(1, options.rateLimitPerWindow)
    decreases |events|
  {
    if a <= from {
      CreationsWithinBudget(options, s, events, from, a);
    } else if events != [] {
      var e := events[0];
      if Start(e) >= a {
        RunLater(options, s, events, from, a);
        CreationsWithinBudget(options, s, events, a, a);
      } else {
        CreationsPerWindow(options, Step(options, s, e), events[1..], End(e), a);
      }
    }
  }

  lemma RunLater(options: Options, s: State, events: seq<Event>, from: Instant, later: Instant)
    requires Run(options, s, events, from) && events != [] && later <= Start(events[0]) && from <= later
    ensures Run(options, s, events, later)
  {
  }

  /** The instants at which the creations of a run were admitted, in order. */
  function Creations(options: Options, s: State, events: seq<Event>): seq<Instant>
    decreases |events|
  {
    if events == [] then []
    else
      (if Creates(options, s, events[0]) then [Start(events[0])] else []) +
      Creations(options, Step(options, s, events[0]), events[1..])
  }

  function CountSince(times: seq<Instant>, a: Instant): nat {
    if times == [] then 0 else CountSince(times[..|times| - 1], a) + (if times[|times| - 1] >= a then 1 else 0)
  }

  lemma {:induction false} CountSinceEarlier(times: seq<Instant>, a: Instant, b: Instant)
    requires b <= a
    ensures CountSince(times, a) <= CountSince(times, b)
  {
    if times == [] {
    } else {
      CountSinceEarlier(times[..|times| - 1], a, b);
    }
  }

  /** The window began with the server or with an admitted creation, and counts no creation from before it. */
  predicate WindowCounts(w: RateWindow, times: seq<Instant>, start: Instant, now: Instant) {
    && (w.start == start || w.start in times) && start <= w.start <= now
    && w.count <= CountSince(times, w.start)
    && forall i :: 0 <= i < |times| ==> times[i] <= now
  }

  lemma WindowCountsNext(options: Options, w: RateWindow, times: seq<Instant>, start: Instant, now: Instant, t: Instant)
    requires WindowCounts(w, times, start, now) && now <= t && Admits(options, w, t)
    ensures WindowCounts(Admitted(options, w, t), times + [t], start, t)
  {
    var more := times + [t];
    assert more[..|more| - 1] == times && more[|times|] == t;
    assert forall u :: u in times ==> u in more;
  }

  lemma CreatesIfAdmitted(options: Options, s: State, e: Event)
    ensures e.New? ==> (Creates(options, s, e) <==> Admits(options, s.rateWindow, e.checkedAt))
    ensures e.New? ==> Step(options, s, e).rateWindow == Admitted(options, s.rateWindow, e.checkedAt)
    ensures !e.New? ==> !Creates(options, s, e) && Step(options, s, e).rateWindow == s.rateWindow
  {
    hide Admits, Admitted, Created, Evicted, Live, Touched;
  }

  lemma StepCounts(options: Options, s: State, e: Event, times: seq<Instant>, start: Instant, now: Instant)
    requires WindowCounts(s.rateWindow, times, start, now) && now <= Start(e) <= End(e)
    ensures WindowCounts(Step(options, s, e).rateWindow, if Creates(options, s, e) then times + [Start(e)] else times,
                         start, End(e))
  {
    hide Step, Creates;
    CreatesIfAdmitted(options, s, e);
    if Creates(options, s, e) { WindowCountsNext(options, s.rateWindow, times, start, now, e.checkedAt); }
  }

  lemma {:induction false} RunCounts(options: Options, s: State, events: seq<Event>, times: seq<Instant>, start: Instant, now: Instant)
    requires WindowCounts(s.rateWindow, times, start, now) && Run(options, s, events, now)
    ensures WindowCounts(Final(options, s, events).rateWindow, times + Creations(options, s, events), start,
                         if events == [] then now else End(events[|events| - 1]))
    decreases |events|
  {
    hide WindowCounts, Step, Creates;
    if events == [] {
      assert times + [] == times;
    } else {
      var e := events[0];
      var more := if Creates(options, s, e) then times + [Start(e)] else times;
      StepCounts(options, s, e, times, start, now);
      RunCounts(options, Step(options, s, e), events[1..], more, start, End(e));
      assert more + Creations(options, Step(options, s, e), events[1..]) == times + Creations(options, s, events);
    }
  }

  /** After any run a creation is refused only if the limit's worth of creations were admitted in the ten seconds before
      it; and one that comes more than ten seconds after the server's start and after every admitted creation never is. */
  lemma RefusedOnlyAtLimit(options: Options, events: seq<Event>, start: Instant, e: Event)
    requires Run(options, Init(start), events, start) && e.New?
    requires Legal(options, Final(options, Init(start), events), e, if events == [] then start else End(events[|events| - 1]))
    requires e.id !in Step(options, Final(options, Init(start), events), e).sessions
    ensures var times := Creations(options, Init(start), events);
            var t := e.checkedAt;
            && CountSince(times, t - 10_000_000_000) >= options.rateLimitPerWindow
            && (t <= start + 10_000_000_000 || exists i :: 0 <= i < |times| && t <= times[i] + 10_000_000_000)
  {
    CreatesIfAdmitted(options, Final(options, Init(start), events), e);
    hide Creations, Run, Legal, Final, CountSince;
    RunCounts(options, Init(start), events, [], start, start);
    var times := Creations(options, Init(start), events);
    assert [] + times == times;
    var w := Final(options, Init(start), events).rateWindow;
    CountSinceEarlier(times, w.start, e.checkedAt - 10_000_000_000);
  }

  lemma NewKeepsLive(options: Options, s: State, e: Event, id: SessionId)
    requires e.New?
    ensures var next := Step(options, s, e);
            if Admits(options, s.rateWindow, e.checkedAt) then
              e.id in next.sessions && next.sessions[e.id] == Session(e.id, "acp:" + e.id, e.insertAt, e.insertAt) &&
              (id in next.sessions && id != e.id ==>
                 id in s.sessions && next.sessions[id] == s.sessions[id] &&
                 Since(e.evictAt, s.sessions[id].lastTouched) < options.sessionTtl)
            else next.sessions == s.sessions
  {
  }

  /** A refused creation leaves all sessions alone; after an admitted one, whatever happened before, the new session is
      there, and of the others only sessions whose latest use is less than their time to live ago. */
  lemma ExpiredAreGone(options: Options, events: seq<Event>, start: Instant, e: Event, id: SessionId)
    requires Run(options, Init(start), events, start) && e.New?
    requires Legal(options, Final(options, Init(start), events), e, if events == [] then start else End(events[|events| - 1]))
    ensures var s := Final(options, Init(start), events);
            var next := Step(options, s, e);
            if e.id !in next.sessions then next.sessions == s.sessions
            else
              next.sessions[e.id] == Session(e.id, "acp:" + e.id, e.insertAt, e.insertAt) &&
              (id in next.sessions && id != e.id ==>
                 id in s.sessions && next.sessions[id] == s.sessions[id] &&
                 LastUsed(s.log, id, s.sessions[id].lastTouched) &&
                 e.evictAt < s.sessions[id].lastTouched + options.sessionTtl)
  {
    RunKeepsInv(options, Init(start), events, start);
    var s := Final(options, Init(start), events);
    var from := if events == [] then start else End(events[|events| - 1]);
    hide Step, Inv, Legal, LastUsed, Run, Final;
    NewKeepsLive(options, s, e, id);
    TouchedBefore(options, s, e, from, id);
  }

  lemma TouchedBefore(options: Options, s: State, e: Event, from: Instant, id: SessionId)
    requires Inv(options, s, from) && Legal(options, s, e, from) && e.New?
    ensures id in s.sessions ==>
              LastUsed(s.log, id, s.sessions[id].lastTouched) && s.sessions[id].lastTouched <= e.evictAt
  {
    if id in s.sessions { InLog(s.log, id, s.sessions[id].lastTouched); }
  }
}
