/** The authentication rate limiter, under a clock read by the caller. */
module RateLimit {
  import opened Wrappers
  import opened Clock

  type Ip = string

  datatype Config = Config(maxAttempts: nat, windowSecs: nat, lockoutSecs: nat) {
    function Window(): nat { windowSecs * SECOND }

    function Lockout(): nat { lockoutSecs * SECOND }

    /** Failures that trigger a lock; a limit of zero acts like one. */
    function Limit(): nat { if maxAttempts == 0 then 1 else maxAttempts }
  }

  datatype Entry = Entry(count: nat, firstAttempt: Instant, lockedUntil: Option<Instant>)

  type Table = map<Ip, Entry>

  function Lookup(table: Table, ip: Ip): Option<Entry> {
    if ip in table then Some(table[ip]) else None
  }

  predicate Locked(entry: Option<Entry>, now: Instant) {
    entry.Some? && entry.value.lockedUntil.Some? && now < entry.value.lockedUntil.value
  }

  /** An address's entry after one more failure. */
  function Failed(config: Config, entry: Option<Entry>, now: Instant): Entry {
    var live := entry.Some? && Since(now, entry.value.firstAttempt) <= config.Window();
    var e := if live then entry.value else Entry(0, now, None);
    var counted := e.(count := e.count + 1);
    if counted.count >= config.maxAttempts then counted.(lockedUntil := Some(now + config.Lockout())) else counted
  }

  predicate Stale(config: Config, entry: Entry, now: Instant) {
    Since(now, entry.firstAttempt) >= config.Window() + config.Lockout()
  }

  function Cleaned(config: Config, table: Table, now: Instant): Table {
    map ip | ip in table && !Stale(config, table[ip], now) :: table[ip]
  }

  class AuthRateLimiter {
    const config: Config
    var attempts: Table

    constructor (config: Config)
      ensures this.config == config && attempts == map[]
    {
      this.config := config;
      attempts := map[];
    }

    /** The remaining time is measured with a second clock reading and is never negative. */
    method IsLocked(ip: Ip, now: Instant, later: Instant) returns (remaining: Option<nat>)
      ensures remaining.Some? <==> Locked(Lookup(attempts, ip), now)
      ensures remaining.Some? ==> remaining.value == Since(attempts[ip].lockedUntil.value, later)
    {
      if ip in attempts {
        var entry := attempts[ip];
        match entry.lockedUntil {
          case Some(lockedUntil) =>
            if now < lockedUntil {
              return Some(Since(lockedUntil, later));
            }
          case None =>
        }
      }
      return None;
    }

    method RecordFailure(ip: Ip, now: Instant)
      modifies this
      ensures attempts == old(attempts)[ip := Failed(config, Lookup(old(attempts), ip), now)]
    {
      var entry := if ip in attempts then attempts[ip] else Entry(0, now, None);
      if Since(now, entry.firstAttempt) > config.Window() {
        entry := entry.(count := 0);
        entry := entry.(firstAttempt := now);
        entry := entry.(lockedUntil := None);
      }
      entry := entry.(count := entry.count + 1);
      if entry.count >= config.maxAttempts {
        entry := entry.(lockedUntil := Some(now + config.Lockout()));
      }
      attempts := attempts[ip := entry];
    }

    method RecordSuccess(ip: Ip)
      modifies this
      ensures attempts == old(attempts) - {ip}
    {
      attempts := attempts - {ip};
    }

    method Cleanup(now: Instant)
      modifies this
      ensures attempts == Cleaned(config, old(attempts), now)
    {
      var window := (config.windowSecs + config.lockoutSecs) * SECOND;
      attempts := map ip | ip in attempts && Since(now, attempts[ip].firstAttempt) < window :: attempts[ip];
    }
  }
}

/** Authentication driven through the limiter: check the lock, verify, record the outcome. */
module Auth {
  import opened Wrappers
  import opened Clock
  import opened RateLimit

  datatype Role = Admin | Editor

  datatype AuthError = RateLimited(retryAfterSecs: nat) | AuthFailed | AuthRequired | Misconfigured

  datatype Mode =
    | NoAuth
    | TokenMode(token: Option<string>)
    | PasswordMode(hash: string)
    | TrustedProxy(identityHeader: string)
    | Tailscale

  datatype Credential =
    | BearerToken(provided: string)
    | Password(password: string)
    | ProxyIdentity(identity: string)
    | TailscaleIdentity(login: string)
    | NoCredential

  /** Password hashing is an oracle: a match, a mismatch, or an error. */
  type PasswordCheck = (string, string) -> Result<bool, ()>

  function Verify(mode: Mode, provided: Credential, check: PasswordCheck): Result<Role, AuthError> {
    match (mode, provided)
    case (NoAuth, _) => Ok(Admin)
    case (TokenMode(Some(expected)), BearerToken(token)) => if token == expected then Ok(Admin) else Err(AuthFailed)
    case (PasswordMode(hash), Password(password)) =>
      if check(password, hash) == Ok(true) then Ok(Admin) else Err(AuthFailed)
    case (TrustedProxy(_), ProxyIdentity(identity)) => if identity == "" then Err(AuthFailed) else Ok(Editor)
    case (Tailscale, TailscaleIdentity(login)) => if login == "" then Err(AuthFailed) else Ok(Admin)
    case (TokenMode(None), _) => Err(Misconfigured)
    case _ => Err(AuthRequired)
  }

  /** The credential is of the kind the mode asks for. */
  predicate RightKind(mode: Mode, provided: Credential) {
    || (mode.TokenMode? && mode.token.Some? && provided.BearerToken?)
    || (mode.PasswordMode? && provided.Password?)
    || (mode.TrustedProxy? && provided.ProxyIdentity?)
    || (mode.Tailscale? && provided.TailscaleIdentity?)
  }

  /** Of the right kind, and the configured token, a password the oracle confirms, or an identity that is not empty. */
  predicate Genuine(mode: Mode, provided: Credential, check: PasswordCheck) {
    && RightKind(mode, provided)
    && (mode.TokenMode? ==> provided.provided == mode.token.value)
    && (mode.PasswordMode? ==> check(provided.password, mode.hash) == Ok(true))
    && (mode.TrustedProxy? ==> provided.identity != "")
    && (mode.Tailscale? ==> provided.login != "")
  }

  predicate TurnedAway(r: Result<Role, AuthError>) {
    r.Err? && r.error.RateLimited?
  }

  /** One attempt on the table: the address is checked at one instant and recorded at a later one. */
  function AttemptTable(config: Config, table: Table, ip: Ip, checkedAt: Instant, recordedAt: Instant,
                        verdict: Result<Role, AuthError>): Table {
    if Locked(Lookup(table, ip), checkedAt) then table
    else if verdict.Ok? then table - {ip}
    else if verdict.error == AuthFailed then table[ip := Failed(config, Lookup(table, ip), recordedAt)]
    else table
  }

  /** A locked address is turned away unverified; otherwise the verdict stands and is recorded. */
  method Authenticate(mode: Mode, provided: Credential, check: PasswordCheck, remote: Option<Ip>,
                      limiter: AuthRateLimiter, checkedAt: Instant, measuredAt: Instant, recordedAt: Instant)
    returns (r: Result<Role, AuthError>)
    modifies limiter
    ensures remote.None? ==> limiter.attempts == old(limiter.attempts) && r == Verify(mode, provided, check)
    ensures remote.Some? ==>
              limiter.attempts == AttemptTable(limiter.config, old(limiter.attempts), remote.value,
                                               checkedAt, recordedAt, Verify(mode, provided, check))
    // who is turned away, for how long, who is admitted, and with which error the others are refused
    ensures TurnedAway(r) <==>
              remote.Some? && remote.value in old(limiter.attempts) &&
              old(limiter.attempts)[remote.value].lockedUntil.Some? &&
              checkedAt < old(limiter.attempts)[remote.value].lockedUntil.value
    ensures TurnedAway(r) ==>
              var until := old(limiter.attempts)[remote.value].lockedUntil.value;
              r.error.retryAfterSecs == if measuredAt <= until then (until - measuredAt) / 1_000_000_000 else 0
    ensures r.Ok? <==> !TurnedAway(r) && (mode.NoAuth? || Genuine(mode, provided, check))
    ensures r.Ok? ==> r.value == if mode.TrustedProxy? then Editor else Admin
    ensures r == Err(AuthFailed) <==> !TurnedAway(r) && RightKind(mode, provided) && !Genuine(mode, provided, check)
    ensures r == Err(Misconfigured) <==> !TurnedAway(r) && mode == TokenMode(None)
    ensures r == Err(AuthRequired) <==>
              !TurnedAway(r) && !mode.NoAuth? && mode != TokenMode(None) && !RightKind(mode, provided)
    // what becomes of the entries
    ensures r.Ok? && remote.Some? ==> limiter.attempts == old(limiter.attempts) - {remote.value}
    ensures r == Err(AuthFailed) && remote.Some? ==>
              limiter.attempts == old(limiter.attempts)[remote.value :=
                Failed(limiter.config, Lookup(old(limiter.attempts), remote.value), recordedAt)]
    ensures remote.None? || (r.Err? && r != Err(AuthFailed)) ==> limiter.attempts == old(limiter.attempts)
  {
    if remote.Some? {
      var remaining := limiter.IsLocked(remote.value, checkedAt, measuredAt);
      if remaining.Some? {
        return Err(RateLimited(remaining.value / SECOND));
      }
    }
    r := Verify(mode, provided, check);
    if remote.Some? {
      match r {
        case Ok(_) => limiter.RecordSuccess(remote.value);
        case Err(AuthFailed) => limiter.RecordFailure(remote.value, recordedAt);
        case Err(_) =>
      }
    }
  }
}

/** What the limiter guarantees over whole runs. */
module AuthRuns {
  import opened Wrappers
  import opened Clock
  import opened Arithmetic
  import opened RateLimit
  import opened Auth

  datatype Event =
    | Attempt(ip: Ip, checkedAt: Instant, recordedAt: Instant, verdict: Result<Role, AuthError>)
    | Cleanup(now: Instant)

  datatype Outcome = TurnedAway | Verified(verdict: Result<Role, AuthError>)

  function End(e: Event): Instant {
    if e.Attempt? then e.recordedAt else e.now
  }

  function Start(e: Event): Instant {
    if e.Attempt? then e.checkedAt else e.now
  }

  /** Sequential events under a monotone clock. */
  predicate Ordered(events: seq<Event>, from: Instant) {
    events != [] ==> from <= Start(events[0]) <= End(events[0]) && Ordered(events[1..], End(events[0]))
  }

  function Step(config: Config, table: Table, e: Event): Table {
    match e
    case Attempt(ip, checkedAt, recordedAt, verdict) => AttemptTable(config, table, ip, checkedAt, recordedAt, verdict)
    case Cleanup(now) => Cleaned(config, table, now)
  }

  function OutcomeOf(table: Table, e: Event): Outcome
    requires e.Attempt?
  {
    if Locked(Lookup(table, e.ip), e.checkedAt) then TurnedAway else Verified(e.verdict)
  }

  function Final(config: Config, table: Table, events: seq<Event>): Table
    decreases |events|
  {
    if events == [] then table else Final(config, Step(config, table, events[0]), events[1..])
  }

  /** The outcomes of the attempts of a run, in order. */
  function Outcomes(config: Config, table: Table, events: seq<Event>): seq<Outcome>
    decreases |events|
  {
    if events == [] then []
    else
      (if events[0].Attempt? then [OutcomeOf(table, events[0])] else []) +
      Outcomes(config, Step(config, table, events[0]), events[1..])
  }

  function WithoutCleanups(events: seq<Event>): seq<Event> {
    if events == [] then []
    else (if events[0].Cleanup? then [] else [events[0]]) + WithoutCleanups(events[1..])
  }

  // ----- the invariant of entries

  predicate Sound(config: Config, e: Entry, now: Instant) {
    && e.count >= 1 && e.firstAttempt <= now
    && (e.lockedUntil.Some? <==> e.count >= config.Limit())
    && (e.lockedUntil.Some? ==>
          e.firstAttempt + config.Lockout() <= e.lockedUntil.value <= now + config.Lockout() &&
          e.lockedUntil.value <= e.firstAttempt + config.Window() + config.Lockout())
  }

  predicate SoundTable(config: Config, table: Table, now: Instant) {
    forall ip :: ip in table ==> Sound(config, table[ip], now)
  }

  lemma FailureIsSound(config: Config, entry: Option<Entry>, before: Instant, now: Instant)
    requires entry.Some? ==> Sound(config, entry.value, before)
    requires before <= now
    ensures Sound(config, Failed(config, entry, now), now)
  {
  }

  lemma StepIsSound(config: Config, table: Table, before: Instant, e: Event)
    requires SoundTable(config, table, before) && before <= Start(e) <= End(e)
    ensures SoundTable(config, Step(config, table, e), End(e))
  {
    if e.Attempt? { FailureIsSound(config, Lookup(table, e.ip), before, e.recordedAt); }
  }

  /** Every table a run can reach is sound, so a lock never outlives window plus lockout. */
  lemma {:induction false} RunsAreSound(config: Config, table: Table, before: Instant, events: seq<Event>)
    requires SoundTable(config, table, before) && Ordered(events, before)
    ensures events != [] ==> SoundTable(config, Final(config, table, events), End(events[|events| - 1]))
    decreases |events|
  {
    if events == [] {
    } else {
      StepIsSound(config, table, before, events[0]);
      RunsAreSound(config, Step(config, table, events[0]), End(events[0]), events[1..]);
    }
  }

  // ----- cleanup is invisible

  /** An entry the cleaned table may have dropped: the next failure would restart it anyway. */
  predicate Agree(config: Config, cleaned: Option<Entry>, full: Option<Entry>, now: Instant) {
    cleaned == full || (cleaned.None? && full.Some? && Stale(config, full.value, now))
  }

  ghost predicate TablesAgree(config: Config, cleaned: Table, full: Table, now: Instant) {
    forall ip :: Agree(config, Lookup(cleaned, ip), Lookup(full, ip), now)
  }

  lemma AgreementAnswers(config: Config, cleaned: Option<Entry>, full: Option<Entry>, before: Instant, now: Instant)
    requires Agree(config, cleaned, full, before) && before <= now
    requires full.Some? ==> Sound(config, full.value, before)
    ensures Agree(config, cleaned, full, now)
    ensures Locked(cleaned, now) <==> Locked(full, now)
    ensures config.Lockout() > 0 ==> Failed(config, cleaned, now) == Failed(config, full, now)
  {
  }

  lemma AttemptKeepsAgreement(config: Config, cleaned: Table, full: Table, before: Instant, e: Event)
    requires config.Lockout() > 0 && e.Attempt? && before <= e.checkedAt <= e.recordedAt
    requires TablesAgree(config, cleaned, full, before) && SoundTable(config, full, before)
    ensures OutcomeOf(cleaned, e) == OutcomeOf(full, e)
    ensures TablesAgree(config, Step(config, cleaned, e), Step(config, full, e), e.recordedAt)
  {
    AgreementAnswers(config, Lookup(cleaned, e.ip), Lookup(full, e.ip), before, e.checkedAt);
    var cleaned', full' := Step(config, cleaned, e), Step(config, full, e);
    forall ip ensures Agree(config, Lookup(cleaned', ip), Lookup(full', ip), e.recordedAt) {
      hide Failed, Agree, Sound;
      assert Agree(config, Lookup(cleaned, ip), Lookup(full, ip), before);
      AgreementAnswers(config, Lookup(cleaned, ip), Lookup(full, ip), before, e.recordedAt);
      AgreeOnEqual(config, Lookup(cleaned', ip), e.recordedAt);
    }
  }

  lemma AgreeOnEqual(config: Config, entry: Option<Entry>, now: Instant)
    ensures Agree(config, entry, entry, now)
  {
  }

  lemma CleanupKeepsAgreement(config: Config, cleaned: Table, full: Table, before: Instant, now: Instant)
    requires before <= now
    requires TablesAgree(config, cleaned, full, before) && SoundTable(config, full, before)
    ensures TablesAgree(config, Cleaned(config, cleaned, now), full, now)
  {
    forall ip ensures Agree(config, Lookup(Cleaned(config, cleaned, now), ip), Lookup(full, ip), now) {
      assert Agree(config, Lookup(cleaned, ip), Lookup(full, ip), before);
    }
  }

  /** With a positive lockout the cleaned table answers like the never-cleaned one, now and after any further run. */
  lemma {:induction false} CleanupBisimulation(config: Config, cleaned: Table, full: Table, before: Instant, events: seq<Event>)
    requires config.Lockout() > 0 && Ordered(events, before)
    requires TablesAgree(config, cleaned, full, before) && SoundTable(config, full, before)
    ensures Outcomes(config, cleaned, events) == Outcomes(config, full, WithoutCleanups(events))
    decreases |events|
  {
    if events == [] {
    } else {
      hide Step, Agree, TablesAgree, Sound, SoundTable;
      var e := events[0];
      if e.Attempt? {
        AttemptKeepsAgreement(config, cleaned, full, before, e);
        StepIsSound(config, full, before, e);
        CleanupBisimulation(config, Step(config, cleaned, e), Step(config, full, e), End(e), events[1..]);
        assert WithoutCleanups(events)[0] == e && WithoutCleanups(events)[1..] == WithoutCleanups(events[1..]);
      } else {
        CleanupKeepsAgreement(config, cleaned, full, before, e.now);
        SoundLater(config, full, before, e.now);
        CleanupStep(config, cleaned, e);
        CleanupBisimulation(config, Step(config, cleaned, e), full, End(e), events[1..]);
        assert WithoutCleanups(events) == WithoutCleanups(events[1..]);
      }
    }
  }

  lemma CleanupStep(config: Config, table: Table, e: Event)
    requires e.Cleanup?
    ensures Step(config, table, e) == Cleaned(config, table, e.now)
  {
  }

  lemma SoundLater(config: Config, table: Table, before: Instant, now: Instant)
    requires SoundTable(config, table, before) && before <= now
    ensures SoundTable(config, table, now)
  {
  }

  /** Without a lockout no lock is ever in force, cleaned or not. */
  lemma NoLockoutNeverLocks(config: Config, table: Table, before: Instant, events: seq<Event>)
    requires config.Lockout() == 0 && Ordered(events, before) && SoundTable(config, table, before)
    ensures Outcomes(config, table, events) == Outcomes(config, map[], WithoutCleanups(events))
  {
    NothingTurnedAway(config, table, before, events);
    WithoutCleanupsOrdered(events, before);
    NothingTurnedAway(config, map[], before, WithoutCleanups(events));
    VerdictsIgnoreCleanups(events);
  }

  function Verdicts(events: seq<Event>): seq<Outcome> {
    if events == [] then []
    else (if events[0].Attempt? then [Verified(events[0].verdict)] else []) + Verdicts(events[1..])
  }

  lemma {:induction false} NothingTurnedAway(config: Config, table: Table, before: Instant, events: seq<Event>)
    requires config.Lockout() == 0 && Ordered(events, before) && SoundTable(config, table, before)
    ensures Outcomes(config, table, events) == Verdicts(events)
    decreases |events|
  {
    if events == [] {
    } else {
      StepIsSound(config, table, before, events[0]);
      NothingTurnedAway(config, Step(config, table, events[0]), End(events[0]), events[1..]);
    }
  }

  lemma {:induction false} VerdictsIgnoreCleanups(events: seq<Event>)
    ensures Verdicts(WithoutCleanups(events)) == Verdicts(events)
  {
    if events == [] {
    } else {
      VerdictsIgnoreCleanups(events[1..]);
      if events[0].Attempt? {
        assert WithoutCleanups(events)[1..] == WithoutCleanups(events[1..]);
      } else {
        assert WithoutCleanups(events) == WithoutCleanups(events[1..]);
        assert Verdicts(events) == Verdicts(events[1..]);
      }
    }
  }

  lemma {:induction false} WithoutCleanupsOrdered(events: seq<Event>, from: Instant)
    requires Ordered(events, from)
    ensures Ordered(WithoutCleanups(events), from)
    decreases |events|
  {
    if events == [] {
    } else {
      WithoutCleanupsOrdered(events[1..], End(events[0]));
      if events[0].Attempt? {
        assert WithoutCleanups(events)[0] == events[0] && WithoutCleanups(events)[1..] == WithoutCleanups(events[1..]);
      } else {
        assert WithoutCleanups(events) == WithoutCleanups(events[1..]);
        OrderedEarlier(WithoutCleanups(events), from, End(events[0]));
      }
    }
  }

  lemma OrderedEarlier(events: seq<Event>, from: Instant, later: Instant)
    requires Ordered(events, later) && from <= later
    ensures Ordered(events, from)
  {
  }

  /** Cleanup calls anywhere in a run change no outcome, for every configuration. */
  lemma CleanupIsInvisible(config: Config, events: seq<Event>, from: Instant)
    requires Ordered(events, from)
    ensures Outcomes(config, map[], events) == Outcomes(config, map[], WithoutCleanups(events))
  {
    if config.Lockout() > 0 {
      CleanupBisimulation(config, map[], map[], from, events);
    } else {
      NoLockoutNeverLocks(config, map[], from, events);
    }
  }

  /** Cleaning may change whether the next failure sets a lock only if the lockout is zero, and then it can. */
  lemma LockDecisionNeedsLockout(config: Config, now: Instant, entry: Entry)
    requires Sound(config, entry, now) && Stale(config, entry, now)
    ensures config.Lockout() > 0 ==> Failed(config, None, now) == Failed(config, Some(entry), now)
    ensures var (c, e) := (Config(2, 60, 0), Entry(1, 0, None));
            var t := c.Window();
            Sound(c, e, t) && Stale(c, e, t) && Failed(c, None, t).lockedUntil != Failed(c, Some(e), t).lockedUntil
  {
  }

  // ----- a lock holds until it expires

  /** Until a lock expires its address is turned away and its entry stands, whatever else happens and
      even if the window ends first. */
  lemma {:induction false} LockHolds(config: Config, table: Table, events: seq<Event>, before: Instant, ip: Ip, i: nat)
    requires Ordered(events, before) && ip in table && Sound(config, table[ip], before) && table[ip].lockedUntil.Some?
    requires forall j :: 0 <= j < |events| ==> Start(events[j]) < table[ip].lockedUntil.value
    requires i < |events|
    ensures Lookup(Final(config, table, events[..i]), ip) == Some(table[ip])
    ensures events[i].Attempt? && events[i].ip == ip ==>
              OutcomeOf(Final(config, table, events[..i]), events[i]) == TurnedAway
    decreases |events|
  {
    assert Start(events[i]) < table[ip].lockedUntil.value;
    if i == 0 {
    } else {
      assert Start(events[0]) < table[ip].lockedUntil.value;
      var next := Step(config, table, events[0]);
      assert Lookup(next, ip) == Some(table[ip]);
      assert events[..i][0] == events[0] && events[..i][1..] == events[1..][..i - 1];
      forall j | 0 <= j < |events[1..]| ensures Start(events[1..][j]) < table[ip].lockedUntil.value {
        assert Start(events[j + 1]) < table[ip].lockedUntil.value;
      }
      LockHolds(config, next, events[1..], End(events[0]), ip, i - 1);
    }
  }

  // ----- how many failures fit into one window

  /** An attempt that reaches verification, fails it, and is recorded within [a, b]. */
  predicate FailsWithin(table: Table, e: Event, ip: Ip, a: Instant, b: Instant) {
    e.Attempt? && e.ip == ip && a <= e.recordedAt <= b && OutcomeOf(table, e) == Verified(Err(AuthFailed))
  }

  function CountFailures(config: Config, table: Table, events: seq<Event>, ip: Ip, a: Instant, b: Instant): nat
    decreases |events|
  {
    if events == [] then 0
    else
      (if FailsWithin(table, events[0], ip, a, b) then 1 else 0) +
      CountFailures(config, Step(config, table, events[0]), events[1..], ip, a, b)
  }

  predicate NeverGranted(events: seq<Event>, ip: Ip) {
    forall i :: 0 <= i < |events| ==> !(events[i].Attempt? && events[i].ip == ip && events[i].verdict.Ok?)
  }

  /** The most failures a window can hold. */
  function WindowBound(config: Config): nat
    requires config.Lockout() > 0
  {
    var m := config.Limit();
    (if m == 1 then 1 else 2 * m - 2) + config.Window() / config.Lockout()
  }

  /** How often a lockout fits into a span, zero for a span that is over. */
  function Slots(span: int, l: nat): nat
    requires l > 0
  {
    if span < 0 then 0 else span / l
  }

  /** Failures still possible from instant p to the end b of the window that began at a. */
  function Budget(config: Config, entry: Option<Entry>, a: Instant, p: Instant): nat
    requires config.Lockout() > 0 && a <= p
    requires entry.Some? ==> Sound(config, entry.value, p)
  {
    var b, m, l := a + config.Window(), config.Limit(), config.Lockout();
    if p > b then 0
    else
      match entry
      case None => m + Slots(b - p, l)
      case Some(e) =>
        if e.lockedUntil.None? then
          (if e.firstAttempt >= a then m - e.count else 2 * m - 1 - e.count) + Slots(b - p, l)
        else
          var lockedAt := e.lockedUntil.value - l;
          if e.firstAttempt >= a then Slots(b - lockedAt, l)
          else m - 1 + Slots(b - (if lockedAt < p - l then p - l else lockedAt), l)
  }

  /** Waiting never increases the budget. */
  lemma BudgetShrinks(config: Config, entry: Option<Entry>, a: Instant, p: Instant, q: Instant)
    requires config.Lockout() > 0 && a <= p <= q
    requires entry.Some? ==> Sound(config, entry.value, p)
    ensures Budget(config, entry, a, q) <= Budget(config, entry, a, p)
  {
    var b, l := a + config.Window(), config.Lockout();
    if q <= b {
      DivMonotone(b - q, b - p, l);
      if entry.Some? && entry.value.lockedUntil.Some? {
        var lockedAt := entry.value.lockedUntil.value - l;
        DivMonotone(b - (if lockedAt < q - l then q - l else lockedAt), b - (if lockedAt < p - l then p - l else lockedAt), l);
      }
    }
  }

  /** A recorded failure spends one unit of the budget. */
  lemma FailureSpends(config: Config, entry: Option<Entry>, a: Instant, p: Instant, checkedAt: Instant)
    requires config.Lockout() > 0 && a <= p && checkedAt <= p <= a + config.Window()
    requires entry.Some? ==> Sound(config, entry.value, p)
    requires !Locked(entry, checkedAt)
    ensures Budget(config, Some(Failed(config, entry, p)), a, p) + 1 <= Budget(config, entry, a, p)
  {
    var b, l := a + config.Window(), config.Lockout();
    if entry.Some? && entry.value.lockedUntil.Some? {
      var lockedAt := entry.value.lockedUntil.value - l;
      DivStep(b - p, b - (if lockedAt < p - l then p - l else lockedAt), l);
      DivStep(b - p, b - lockedAt, l);
    }
  }

  /** Dropping a stale entry does not increase the budget. */
  lemma CleanupSpends(config: Config, entry: Entry, a: Instant, p: Instant)
    requires config.Lockout() > 0 && a <= p && Sound(config, entry, p) && Stale(config, entry, p)
    ensures Budget(config, None, a, p) <= Budget(config, Some(entry), a, p)
  {
    var b, l := a + config.Window(), config.Lockout();
    if p <= b { DivShift(b - p, l); }
  }

  lemma BudgetIsBounded(config: Config, entry: Option<Entry>, a: Instant, p: Instant)
    requires config.Lockout() > 0 && a <= p
    requires entry.Some? ==> Sound(config, entry.value, p)
    ensures Budget(config, entry, a, p) <= WindowBound(config)
  {
    var w, l := config.Window(), config.Lockout();
    var b := a + w;
    DivShift(w, l);
    if p <= b {
      DivMonotone(b - p, w, l);
      if entry.Some? && entry.value.lockedUntil.Some? {
        var lockedAt := entry.value.lockedUntil.value - l;
        if entry.value.firstAttempt >= a {
          DivMonotone(b - lockedAt, w, l);
        } else {
          DivMonotone(b - (if lockedAt < p - l then p - l else lockedAt), w + l, l);
        }
      }
    }
  }

  lemma EntrySound(config: Config, table: Table, ip: Ip, before: Instant, p: Instant)
    requires SoundTable(config, table, before) && before <= p
    ensures Lookup(table, ip).Some? ==> Sound(config, Lookup(table, ip).value, p)
  {
  }

  /** One event at or after the start of the window costs at least what it counts. */
  lemma EventSpends(config: Config, table: Table, before: Instant, e: Event, ip: Ip, a: Instant, p: Instant)
    requires config.Lockout() > 0 && SoundTable(config, table, before)
    requires before <= Start(e) <= End(e) && a <= p <= End(e) && before <= p
    requires !(e.Attempt? && e.ip == ip && e.verdict.Ok?)
    ensures Lookup(table, ip).Some? ==> Sound(config, Lookup(table, ip).value, p)
    ensures var next := Lookup(Step(config, table, e), ip);
            next.Some? ==> Sound(config, next.value, End(e))
    ensures var next := Lookup(Step(config, table, e), ip);
            Budget(config, next, a, End(e)) + (if FailsWithin(table, e, ip, a, a + config.Window()) then 1 else 0)
              <= Budget(config, Lookup(table, ip), a, p)
  {
    hide Budget, Failed, Sound;
    StepIsSound(config, table, before, e);
    var entry, q := Lookup(table, ip), End(e);
    EntrySound(config, table, ip, before, p);
    EntrySound(config, table, ip, before, q);
    BudgetShrinks(config, entry, a, p, q);
    var next := Lookup(Step(config, table, e), ip);
    EntrySound(config, Step(config, table, e), ip, q, q);
    if e.Cleanup? {
      if next != entry { CleanupSpends(config, entry.value, a, q); }
    } else if next != entry || FailsWithin(table, e, ip, a, a + config.Window()) {
      if q <= a + config.Window() {
        FailureSpends(config, entry, a, q, e.checkedAt);
      } else {
        BudgetSpent(config, next, a, q);
      }
    }
  }

  lemma BudgetSpent(config: Config, entry: Option<Entry>, a: Instant, q: Instant)
    requires config.Lockout() > 0 && a <= q && q > a + config.Window()
    requires entry.Some? ==> Sound(config, entry.value, q)
    ensures Budget(config, entry, a, q) == 0
  {
  }

  lemma {:induction false} CountWithinBudget(config: Config, table: Table, before: Instant, events: seq<Event>, ip: Ip,
                                             a: Instant, p: Instant)
    requires config.Lockout() > 0 && SoundTable(config, table, before) && Ordered(events, before)
    requires NeverGranted(events, ip) && a <= p && before <= p && (events != [] ==> p <= End(events[0]))
    ensures Lookup(table, ip).Some? ==> Sound(config, Lookup(table, ip).value, p)
    ensures CountFailures(config, table, events, ip, a, a + config.Window()) <= Budget(config, Lookup(table, ip), a, p)
    decreases |events|
  {
    hide Budget, Step, FailsWithin, Sound;
    EntrySound(config, table, ip, before, p);
    if events == [] {
    } else {
      var e := events[0];
      EventSpends(config, table, before, e, ip, a, p);
      StepIsSound(config, table, before, e);
      CountWithinBudget(config, Step(config, table, e), End(e), events[1..], ip, a, End(e));
    }
  }

  /** In any run without a success from the address, any interval of one window length holds at most
      WindowBound failures; the run may start from any table a run can reach. */
  lemma {:induction false} FailuresPerWindow(config: Config, table: Table, before: Instant, events: seq<Event>, ip: Ip, a: Instant)
    requires config.Lockout() > 0 && SoundTable(config, table, before) && Ordered(events, before)
    requires NeverGranted(events, ip)
    ensures CountFailures(config, table, events, ip, a, a + config.Window()) <= WindowBound(config)
    decreases |events|
  {
    if events == [] {
    } else {
      var e := events[0];
      if End(e) < a {
        StepIsSound(config, table, before, e);
        FailuresPerWindow(config, Step(config, table, e), End(e), events[1..], ip, a);
      } else {
        var p := if before < a then a else before;
        CountWithinBudget(config, table, before, events, ip, a, p);
        BudgetIsBounded(config, Lookup(table, ip), a, p);
      }
    }
  }

  // ----- the bound is reached, and needs the lockout

  function Failure(ip: Ip, t: Instant): Event {
    Attempt(ip, t, t, Err(AuthFailed))
  }

  function Failures(ip: Ip, t: Instant, n: nat): seq<Event>
    decreases n
  {
    if n == 0 then [] else [Failure(ip, t)] + Failures(ip, t, n - 1)
  }

  lemma FailureCounts(config: Config, table: Table, ip: Ip, t: Instant, more: seq<Event>, a: Instant, b: Instant)
    requires a <= t <= b && ip in table && table[ip].lockedUntil.None?
    requires table[ip].firstAttempt <= t <= table[ip].firstAttempt + config.Window()
    requires table[ip].count + 1 < config.maxAttempts
    ensures var next := table[ip := table[ip].(count := table[ip].count + 1)];
            CountFailures(config, table, [Failure(ip, t)] + more, ip, a, b) == 1 + CountFailures(config, next, more, ip, a, b)
  {
    var events := [Failure(ip, t)] + more;
    assert events[0] == Failure(ip, t) && events[1..] == more;
    var next := table[ip := table[ip].(count := table[ip].count + 1)];
    assert Step(config, table, events[0]) == next && FailsWithin(table, events[0], ip, a, b);
    hide Step, FailsWithin;
  }

  /** Failures of one address at given instants. */
  function FailuresAt(ip: Ip, times: seq<Instant>): seq<Event> {
    if times == [] then [] else [Failure(ip, times[0])] + FailuresAt(ip, times[1..])
  }

  /** No lock comes before the limit: a window of failures leaves their number and the first instant, and the failure
      that reaches the limit locks the address for exactly the lockout. */
  lemma {:induction false} FailuresFillWindow(config: Config, table: Table, ip: Ip, times: seq<Instant>)
    requires ip in table && table[ip].lockedUntil.None? && table[ip].count + |times| <= config.Limit()
    requires forall i :: 0 <= i < |times| ==>
               table[ip].firstAttempt <= times[i] <= table[ip].firstAttempt + config.windowSecs * 1_000_000_000
    ensures var n := table[ip].count + |times|;
            Final(config, table, FailuresAt(ip, times)) ==
            if times == [] then table
            else table[ip := Entry(n, table[ip].firstAttempt,
                                   if n == config.Limit() then Some(times[|times| - 1] + config.lockoutSecs * 1_000_000_000)
                                   else None)]
    decreases |times|
  {
    if times == [] {
    } else {
      var events := FailuresAt(ip, times);
      var next := Step(config, table, events[0]);
      assert events[1..] == FailuresAt(ip, times[1..]);
      assert next == table[ip := next[ip]];
      assert |times| > 1 ==> next[ip] == table[ip].(count := table[ip].count + 1);
      assert |times| == 1 ==> times[1..] == [];
      hide Step;
      if |times| > 1 { FailuresFillWindow(config, next, ip, times[1..]); }
    }
  }

  /** The first failure of an address without an entry, or after its window, opens a window at its instant. */
  lemma WindowOpens(config: Config, table: Table, ip: Ip, t: Instant)
    requires ip in table ==> t > table[ip].firstAttempt + config.windowSecs * 1_000_000_000 && !Locked(Lookup(table, ip), t)
    ensures Step(config, table, Failure(ip, t)) ==
            table[ip := Entry(1, t, if config.maxAttempts <= 1 then Some(t + config.lockoutSecs * 1_000_000_000) else None)]
  {
  }

  /** Failures at one instant inside a live window all count, up to the one that locks. */
  lemma {:induction false} BurstCounts(config: Config, table: Table, ip: Ip, t: Instant, n: nat, rest: seq<Event>,
                                       a: Instant, b: Instant)
    requires a <= t <= b && ip in table && table[ip].lockedUntil.None?
    requires table[ip].firstAttempt <= t <= table[ip].firstAttempt + config.Window()
    requires table[ip].count + n < config.maxAttempts
    ensures var next := table[ip := table[ip].(count := table[ip].count + n)];
            CountFailures(config, table, Failures(ip, t, n) + rest, ip, a, b)
              == n + CountFailures(config, next, rest, ip, a, b)
  {
    if n == 0 {
      assert Failures(ip, t, n) + rest == rest;
      assert table == table[ip := table[ip].(count := table[ip].count + n)];
    } else {
      var next := table[ip := table[ip].(count := table[ip].count + 1)];
      assert Failures(ip, t, n) + rest == [Failure(ip, t)] + (Failures(ip, t, n - 1) + rest);
      hide CountFailures;
      FailureCounts(config, table, ip, t, Failures(ip, t, n - 1) + rest, a, b);
      BurstCounts(config, next, ip, t, n - 1, rest, a, b);
      assert next[ip := next[ip].(count := next[ip].count + (n - 1))] == table[ip := table[ip].(count := table[ip].count + n)];
    }
  }

  /** One failure opens a window, maxAttempts - 2 come at its last instant, and a full burst follows it. */
  function WorstRun(config: Config, ip: Ip): seq<Event>
    requires config.maxAttempts >= 2
  {
    var w, m := config.Window(), config.maxAttempts;
    [Failure(ip, 0)] + (Failures(ip, w, m - 2) +
      ([Failure(ip, w + 1)] + (Failures(ip, w + 1, m - 2) + [Failure(ip, w + 1)])))
  }

  /** A failure, a burst and one more failure all count when the first opens or prolongs no lock. */
  lemma StepThenBurst(config: Config, table: Table, next: Table, ip: Ip, t: Instant, n: nat, rest: seq<Event>,
                      a: Instant, b: Instant)
    requires a <= b && t <= b && Step(config, table, Failure(ip, t)) == next
    requires ip in next && next[ip].lockedUntil.None? && next[ip].count + n < config.maxAttempts
    requires !Locked(Lookup(table, ip), t)
    ensures forall u :: a <= u <= b && next[ip].firstAttempt <= u <= next[ip].firstAttempt + config.Window() ==>
              CountFailures(config, table, [Failure(ip, t)] + (Failures(ip, u, n) + rest), ip, a, b) ==
              (if a <= t then 1 else 0) + n +
              CountFailures(config, next[ip := next[ip].(count := next[ip].count + n)], rest, ip, a, b)
  {
    forall u | a <= u <= b && next[ip].firstAttempt <= u <= next[ip].firstAttempt + config.Window()
      ensures CountFailures(config, table, [Failure(ip, t)] + (Failures(ip, u, n) + rest), ip, a, b) ==
              (if a <= t then 1 else 0) + n +
              CountFailures(config, next[ip := next[ip].(count := next[ip].count + n)], rest, ip, a, b)
    {
      var events := [Failure(ip, t)] + (Failures(ip, u, n) + rest);
      assert events[0] == Failure(ip, t) && events[1..] == Failures(ip, u, n) + rest;
      BurstCounts(config, next, ip, u, n, rest, a, b);
    }
  }

  /** For every limit of at least two and a lockout longer than a positive window, a run reaches the bound. */
  lemma BoundIsReached(config: Config, ip: Ip)
    requires config.maxAttempts >= 2 && config.windowSecs > 0 && config.lockoutSecs > config.windowSecs
    ensures var w := config.Window();
            CountFailures(config, map[], WorstRun(config, ip), ip, w, w + w) == WindowBound(config)
  {
    hide CountFailures;
    var w, m, b := config.Window(), config.maxAttempts, config.Window() + config.Window();
    var last := [Failure(ip, w + 1)];
    var second := [Failure(ip, w + 1)] + (Failures(ip, w + 1, m - 2) + last);
    var t1: Table := map[ip := Entry(1, 0, None)];
    StepThenBurst(config, map[], t1, ip, 0, m - 2, second, w, b);
    var t2: Table := map[ip := Entry(m - 1, 0, None)];
    assert t1[ip := t1[ip].(count := t1[ip].count + (m - 2))] == t2;
    var t3: Table := map[ip := Entry(1, w + 1, None)];
    assert Step(config, t2, Failure(ip, w + 1)) == t3;
    StepThenBurst(config, t2, t3, ip, w + 1, m - 2, last, w, b);
    LastFailureCounts(config, t3[ip := t3[ip].(count := t3[ip].count + (m - 2))], ip, w + 1, w, b);
    DivUnique(w, config.Lockout(), 0);
  }

  lemma LastFailureCounts(config: Config, table: Table, ip: Ip, t: Instant, a: Instant, b: Instant)
    requires a <= t <= b && !Locked(Lookup(table, ip), t)
    ensures CountFailures(config, table, [Failure(ip, t)], ip, a, b) == 1
  {
    assert [Failure(ip, t)][1..] == [];
  }

  /** With a zero lockout no bound exists: any number of failures at one instant is let through. */
  lemma {:induction false} NoLockoutNoBound(config: Config, table: Table, ip: Ip, t: Instant, n: nat)
    requires config.Lockout() == 0 && SoundTable(config, table, t)
    ensures CountFailures(config, table, Failures(ip, t, n), ip, t, t) == n
    decreases n
  {
    if n == 0 {
    } else {
      var events := Failures(ip, t, n);
      assert events[0] == Failure(ip, t) && events[1..] == Failures(ip, t, n - 1);
      StepIsSound(config, table, t, events[0]);
      NoLockoutNoBound(config, Step(config, table, events[0]), ip, t, n - 1);
    }
  }
}
