/** The cron service: a tick loop that starts due jobs, completions that record their outcome,
    and the operations that replace the job table. */
module Cron {
  import opened Wrappers
  import opened Text
  import opened Clock

  type JobId = string

  const TICK_WINDOW: int := 60 * SECOND

  datatype RunStatus = Running | Success | Failed | Skipped

  datatype RunLog = RunLog(startedAt: Instant, finishedAt: Option<Instant>, status: RunStatus)

  /** A parsed schedule, known by its first occurrence strictly after an instant. */
  type NextAfter = f: Instant -> Option<Instant> | forall t :: f(t).Some? ==> t < f(t).value
    witness (t: Instant) => None

  datatype Schedule = Unparsable | Parsed(after: NextAfter)

  datatype Job = Job(id: JobId, schedule: Schedule, prompt: string, enabled: bool, lastRun: Option<RunLog>)

  type Jobs = map<JobId, Job>

  ghost predicate Keyed(jobs: Jobs) {
    forall id :: id in jobs ==> jobs[id].id == id
  }

  /** The occurrence a tick fires a job for, if it fires it: within the last minute, of an enabled job that is not
      running and has not started since. */
  function Due(job: Job, now: Instant): (due: Option<Instant>)
    ensures due.Some? ==> now - TICK_WINDOW < due.value <= now && job.enabled
    ensures due.Some? && job.lastRun.Some? ==>
              job.lastRun.value.status != Running && job.lastRun.value.startedAt < due.value
  {
    if !job.enabled || job.schedule.Unparsable? then None
    else
      match job.schedule.after(now - TICK_WINDOW)
      case None => None
      case Some(next) =>
        if next > now then None
        else if job.lastRun.Some? && (job.lastRun.value.status == Running || job.lastRun.value.startedAt >= next) then None
        else Some(next)
  }

  function Started(job: Job, now: Instant): Job {
    if Due(job, now).Some? then job.(lastRun := Some(RunLog(now, None, Running))) else job
  }

  function Ticked(jobs: Jobs, now: Instant): Jobs {
    map id | id in jobs :: Started(jobs[id], now)
  }

  function Completed(jobs: Jobs, id: JobId, startedAt: Instant, finishedAt: Instant, ok: bool): Jobs {
    if id in jobs
    then jobs[id := jobs[id].(lastRun := Some(RunLog(startedAt, Some(finishedAt), if ok then Success else Failed)))]
    else jobs
  }

  /** An incoming job takes over the run log of the job it replaces. */
  function Inherit(existing: Jobs, job: Job): Job {
    if job.id in existing && existing[job.id].lastRun.Some? then job.(lastRun := existing[job.id].lastRun) else job
  }

  function Synced(existing: Jobs, incoming: seq<Job>): Jobs {
    if incoming == [] then map[]
    else
      var last := Inherit(existing, incoming[|incoming| - 1]);
      Synced(existing, incoming[..|incoming| - 1])[last.id := last]
  }

  predicate AllParse(incoming: seq<Job>) {
    forall i :: 0 <= i < |incoming| ==> incoming[i].schedule.Parsed?
  }

  /** What a single added job must satisfy. */
  predicate Acceptable(job: Job) {
    job.schedule.Parsed? && !AllWhitespace(job.prompt) && !AllWhitespace(job.id)
  }

  datatype JobError = InvalidSchedule | EmptyPrompt | EmptyId

  /** A job fires exactly if it is enabled, its schedule parses, the first occurrence after the last sixty seconds began
      has come, and its log is neither running nor begun at or after that occurrence. */
  lemma DueExactly(job: Job, now: Instant)
    ensures Due(job, now).Some? <==>
              job.enabled && job.schedule.Parsed? &&
              var next := job.schedule.after(now - 60_000_000_000);
              next.Some? && next.value <= now &&
              (job.lastRun.Some? ==> job.lastRun.value.status != Running && job.lastRun.value.startedAt < next.value)
    ensures Due(job, now).Some? ==> Due(job, now) == job.schedule.after(now - 60_000_000_000)
  {
  }

  /** What a tick does to one job: it starts it, under the condition above, and returns it, or leaves it alone. */
  ghost predicate FiredOrKept(start: Jobs, jobs: Jobs, due: seq<Job>, now: Instant, id: JobId)
    requires id in start
  {
    var job := start[id];
    var started := job.(lastRun := Some(RunLog(now, None, Running)));
    var next := if job.schedule.Parsed? then job.schedule.after(now - 60_000_000_000) else None;
    id in jobs &&
    if job.enabled && next.Some? && next.value <= now &&
       (job.lastRun.Some? ==> job.lastRun.value.status != Running && job.lastRun.value.startedAt < next.value)
    then started in due && jobs[id] == started
    else jobs[id] == job && forall i :: 0 <= i < |due| ==> due[i].id != id
  }

  /** A tick in progress: the jobs in todo are still untouched. */
  ghost predicate Ticking(start: Jobs, jobs: Jobs, todo: set<JobId>, due: seq<Job>, now: Instant) {
    && todo <= start.Keys == jobs.Keys
    && (forall id :: id in start ==> jobs[id] == if id in todo then start[id] else Started(start[id], now))
    && (forall i :: 0 <= i < |due| ==> due[i].id in start && due[i].id !in todo && Due(start[due[i].id], now).Some?)
    && (forall i, j :: 0 <= i < j < |due| ==> due[i].id != due[j].id)
    && (forall id :: id in start && id !in todo && Due(start[id], now).Some? ==> Started(start[id], now) in due)
  }

  lemma TickingStarts(start: Jobs, now: Instant)
    ensures Ticking(start, start, start.Keys, [], now)
  {
  }

  lemma TickingStep(start: Jobs, jobs: Jobs, todo: set<JobId>, due: seq<Job>, now: Instant, id: JobId)
    requires Keyed(start) && Ticking(start, jobs, todo, due, now) && id in todo
    ensures jobs[id] == start[id]
    ensures var job := Started(start[id], now);
            Ticking(start, jobs[id := job], todo - {id}, if Due(start[id], now).Some? then due + [job] else due, now)
  {
    hide Due;
  }

  lemma TickingEnds(start: Jobs, jobs: Jobs, due: seq<Job>, now: Instant)
    requires Ticking(start, jobs, {}, due, now)
    ensures jobs == Ticked(start, now)
    ensures forall i :: 0 <= i < |due| ==> due[i].id in start && Due(start[due[i].id], now).Some?
    ensures forall i, j :: 0 <= i < j < |due| ==> due[i].id != due[j].id
    ensures forall id :: id in start && Due(start[id], now).Some? ==> Started(start[id], now) in due
  {
    hide Due;
  }

  lemma TickingMeans(start: Jobs, jobs: Jobs, due: seq<Job>, now: Instant, id: JobId)
    requires Ticking(start, jobs, {}, due, now) && id in start
    ensures FiredOrKept(start, jobs, due, now, id)
  {
    DueExactly(start[id], now);
    hide Due;
  }

  class CronService {
    var jobs: Jobs

    constructor ()
      ensures jobs == map[]
    {
      jobs := map[];
    }

    /** Starts every due job exactly once and no other. */
    method Tick(now: Instant) returns (due: seq<Job>)
      requires Keyed(jobs)
      modifies this
      ensures jobs.Keys == old(jobs).Keys
      ensures forall id :: id in old(jobs) ==> FiredOrKept(old(jobs), jobs, due, now, id)
      ensures jobs == Ticked(old(jobs), now)
      ensures forall i :: 0 <= i < |due| ==> due[i].id in old(jobs) && Due(old(jobs)[due[i].id], now).Some?
      ensures forall i, j :: 0 <= i < j < |due| ==> due[i].id != due[j].id
      ensures forall id :: id in old(jobs) && Due(old(jobs)[id], now).Some? ==> Started(old(jobs)[id], now) in due
    {
      hide Due, Ticking, FiredOrKept;
      ghost var start := jobs;
      due := [];
      var todo := jobs.Keys;
      assert Ticking(start, jobs, todo, due, now) by { TickingStarts(start, now); }
      while todo != {}
        invariant Ticking(start, jobs, todo, due, now) && todo <= jobs.Keys
        decreases |todo|
      {
        var id :| id in todo;
        TickingStep(start, jobs, todo, due, now, id);
        todo := todo - {id};
        var job := jobs[id];
        var fires := Fires(job, now);
        if fires {
          job := job.(lastRun := Some(RunLog(now, None, Running)));
          jobs := jobs[id := job];
          due := due + [job];
        } else {
          assert jobs[id := jobs[id]] == jobs;
        }
      }
      TickingEnds(start, jobs, due, now);
      forall id | id in start ensures FiredOrKept(start, jobs, due, now, id) { TickingMeans(start, jobs, due, now, id); }
    }

    /** The guards of the tick body, in their order. */
    method Fires(job: Job, now: Instant) returns (fires: bool)
      ensures fires <==> Due(job, now).Some?
    {
      var windowStart := now - TICK_WINDOW;
      if !job.enabled {
        return false;
      }
      if job.schedule.Unparsable? {
        return false;
      }
      var nextRun := job.schedule.after(windowStart);
      if nextRun.None? {
        return false;
      }
      if nextRun.value > now {
        return false;
      }
      if job.lastRun.Some? && job.lastRun.value.status == Running {
        return false;
      }
      var alreadyStarted := job.lastRun.Some? && job.lastRun.value.startedAt >= nextRun.value;
      return !alreadyStarted;
    }

    method Complete(id: JobId, startedAt: Instant, finishedAt: Instant, ok: bool)
      modifies this
      ensures jobs == Completed(old(jobs), id, startedAt, finishedAt, ok)
    {
      if id in jobs {
        var stored := jobs[id];
        stored := stored.(lastRun := Some(RunLog(startedAt, Some(finishedAt), if ok then Success else Failed)));
        jobs := jobs[id := stored];
      }
    }

    /** Replaces the whole table, or nothing if any schedule does not parse. */
    method SyncJobs(incoming: seq<Job>) returns (r: Result<(), JobError>)
      modifies this
      ensures r.Ok? <==> AllParse(incoming)
      ensures jobs == if AllParse(incoming) then Synced(old(jobs), incoming) else old(jobs)
    {
      var next: Jobs := map[];
      for i := 0 to |incoming|
        invariant AllParse(incoming[..i])
        invariant next == Synced(jobs, incoming[..i])
      {
        var job := incoming[i];
        if job.id in jobs && jobs[job.id].lastRun.Some? {
          job := job.(lastRun := jobs[job.id].lastRun);
        }
        if job.schedule.Unparsable? {
          return Err(InvalidSchedule);
        }
        next := next[job.id := job];
        assert incoming[..i + 1][..i] == incoming[..i];
      }
      assert incoming[..|incoming|] == incoming;
      jobs := next;
      return Ok(());
    }

    method Add(job: Job) returns (r: Result<(), JobError>)
      modifies this
      ensures r.Ok? <==> job.schedule.Parsed? && !AllWhitespace(job.prompt) && !AllWhitespace(job.id)
      ensures jobs == if r.Ok? then old(jobs)[job.id := job] else old(jobs)
    {
      if job.schedule.Unparsable? {
        return Err(InvalidSchedule);
      }
      if Trim(job.prompt) == "" {
        return Err(EmptyPrompt);
      }
      if Trim(job.id) == "" {
        return Err(EmptyId);
      }
      jobs := jobs[job.id := job];
      return Ok(());
    }

    method Remove(id: JobId)
      modifies this
      ensures jobs == old(jobs) - {id}
    {
      jobs := jobs - {id};
    }
  }
}

/** Whole runs of the service, seen from one job. */
module CronRuns {
  import opened Wrappers
  import opened Clock
  import opened Cron

  datatype Event =
    | Tick(now: Instant)
    | Complete(id: JobId, startedAt: Instant, finishedAt: Instant, ok: bool)
    | Sync(incoming: seq<Job>)
    | Add(job: Job)
    | Remove(id: JobId)

  /** The job table, the tick times at which the active runs of the watched job were started,
      and the occurrences it was ever fired for. */
  datatype State = State(jobs: Jobs, active: seq<Instant>, fired: seq<Instant>)

  /** A completion of the watched job ends one of its active runs (the first, as they are interchangeable),
      and under a monotone clock that run began no earlier than the tick that spawned it. */
  predicate Legal(s: State, watched: JobId, e: Event) {
    e.Complete? ==> e.startedAt <= e.finishedAt && (e.id == watched ==> s.active != [] && s.active[0] <= e.startedAt)
  }

  function Step(s: State, watched: JobId, e: Event): State {
    match e
    case Tick(now) =>
      var occurrence := if watched in s.jobs then Due(s.jobs[watched], now) else None;
      if occurrence.Some?
      then State(Ticked(s.jobs, now), s.active + [now], s.fired + [occurrence.value])
      else s.(jobs := Ticked(s.jobs, now))
    case Complete(id, startedAt, finishedAt, ok) =>
      State(Completed(s.jobs, id, startedAt, finishedAt, ok),
            if id == watched && s.active != [] then s.active[1..] else s.active, s.fired)
    case Sync(incoming) => if AllParse(incoming) then s.(jobs := Synced(s.jobs, incoming)) else s
    case Add(job) => if Acceptable(job) then s.(jobs := s.jobs[job.id := job]) else s
    case Remove(id) => s.(jobs := s.jobs - {id})
  }

  function Final(s: State, watched: JobId, events: seq<Event>): State
    decreases |events|
  {
    if events == [] then s else Final(Step(s, watched, events[0]), watched, events[1..])
  }

  predicate Mentions(incoming: seq<Job>, id: JobId) {
    exists i :: 0 <= i < |incoming| && incoming[i].id == id
  }

  function LastMention(incoming: seq<Job>, id: JobId): (job: Job)
    requires Mentions(incoming, id)
    ensures job in incoming && job.id == id
  {
    var n := |incoming| - 1;
    if incoming[n].id == id then incoming[n]
    else
      assert forall i :: 0 <= i < n ==> incoming[..n][i] == incoming[i];
      LastMention(incoming[..n], id)
  }

  /** A run log that keeps the watched job from firing again too early: it is marked Running, or no run is active
      and the log starts at or after the latest fired occurrence. A job that never fired needs none. */
  predicate Guards(s: State, log: Option<RunLog>) {
    s.fired != [] ==>
      log.Some? &&
      (log.value.status == Running || (s.active == [] && log.value.startedAt >= s.fired[|s.fired| - 1]))
  }

  /** An event that brings the watched job into the table with a log of its own, overwriting or not, brings a guarding
      one. Synchronising with a table that holds the job does not: the job inherits its log. */
  predicate Safe(s: State, watched: JobId, e: Event) {
    match e
    case Add(job) => Acceptable(job) && job.id == watched ==> Guards(s, job.lastRun)
    case Sync(incoming) =>
      AllParse(incoming) && watched !in s.jobs && Mentions(incoming, watched) ==>
        Guards(s, LastMention(incoming, watched).lastRun)
    case _ => true
  }

  /** Any interleaving of legal, safe events. */
  predicate Run(s: State, watched: JobId, events: seq<Event>)
    decreases |events|
  {
    events != [] ==>
      Legal(s, watched, events[0]) && Safe(s, watched, events[0]) &&
      Run(Step(s, watched, events[0]), watched, events[1..])
  }

  predicate StrictlyIncreasing(times: seq<Instant>) {
    forall i, j :: 0 <= i < j < |times| ==> times[i] < times[j]
  }

  /** At most one run is active, and no occurrence was fired twice or out of order. */
  predicate Sound(s: State) {
    |s.active| <= 1 && StrictlyIncreasing(s.fired)
  }

  /** An active run began at or after every fired occurrence, and the stored log guards the job. */
  predicate Inv(s: State, watched: JobId) {
    && Sound(s)
    && (s.active != [] ==> s.fired != [] && s.active[0] >= s.fired[|s.fired| - 1])
    && (watched in s.jobs ==> Guards(s, s.jobs[watched].lastRun))
  }

  /** A synchronised table holds exactly the mentioned jobs, each in its last mention and with the run log it inherits. */
  lemma {:induction false} SyncedLookup(existing: Jobs, incoming: seq<Job>, id: JobId)
    ensures id in Synced(existing, incoming) <==> Mentions(incoming, id)
    ensures Mentions(incoming, id) ==>
              Synced(existing, incoming)[id] ==
              if id in existing && existing[id].lastRun.Some?
              then LastMention(incoming, id).(lastRun := existing[id].lastRun) else LastMention(incoming, id)
  {
    if incoming == [] {
    } else {
      var n := |incoming| - 1;
      var rest := incoming[..n];
      SyncedLookup(existing, rest, id);
      assert forall i :: 0 <= i < n ==> rest[i] == incoming[i];
      assert incoming[n].id == id ==> Mentions(incoming, id);
    }
  }

  lemma StepKeepsInv(s: State, watched: JobId, e: Event)
    requires Inv(s, watched) && Legal(s, watched, e) && Safe(s, watched, e)
    ensures Inv(Step(s, watched, e), watched)
  {
    if e.Sync? {
      SyncKeepsInv(s, watched, e.incoming);
    }
  }

  lemma SyncKeepsInv(s: State, watched: JobId, incoming: seq<Job>)
    requires Inv(s, watched) && Safe(s, watched, Sync(incoming))
    ensures Inv(Step(s, watched, Sync(incoming)), watched)
  {
    SyncedLookup(s.jobs, incoming, watched);
    hide Synced, LastMention, Mentions;
  }

  /** Over any interleaving in which every log brought in for the job guards it, at most one of its runs is active
      and no occurrence is fired twice or out of order. */
  lemma {:induction false} OneRunAndNoRepeat(s: State, watched: JobId, events: seq<Event>)
    requires Inv(s, watched) && Run(s, watched, events)
    ensures Sound(Final(s, watched, events))
    decreases |events|
  {
    if events == [] {
    } else {
      StepKeepsInv(s, watched, events[0]);
      OneRunAndNoRepeat(Step(s, watched, events[0]), watched, events[1..]);
    }
  }

  /** Any loaded table is a legitimate start. */
  lemma AnyTableMayStart(jobs: Jobs, watched: JobId, events: seq<Event>)
    requires Run(State(jobs, [], []), watched, events)
    ensures Sound(Final(State(jobs, [], []), watched, events))
  {
    OneRunAndNoRepeat(State(jobs, [], []), watched, events);
  }

  /** Whenever a run of the watched job is active, no tick starts another. */
  lemma ActiveRunBlocksTicks(s: State, watched: JobId, now: Instant)
    requires Inv(s, watched) && s.active != []
    ensures Step(s, watched, Tick(now)).active == s.active && Step(s, watched, Tick(now)).fired == s.fired
  {
  }

  // ----- the condition on incoming logs is exact

  function Once(at: Instant): NextAfter {
    (t: Instant) => if t < at then Some(at) else None
  }

  /** From a table whose log for the job does not guard it, one synchronisation and one tick start a second run or
      repeat an occurrence. */
  lemma UnguardedBreaks(s: State, watched: JobId) returns (events: seq<Event>)
    requires watched in s.jobs && !Guards(s, s.jobs[watched].lastRun)
    ensures Run(s, watched, events) && !Sound(Final(s, watched, events))
  {
    var log := s.jobs[watched].lastRun;
    var last := s.fired[|s.fired| - 1];
    var at := if s.active == [] then last else if log.Some? then log.value.startedAt + 1 else 0;
    var job := Job(watched, Parsed(Once(at)), "", true, None);
    var sync, tick := Sync([job]), Tick(at);
    events := [sync, tick];
    var s1 := Step(s, watched, sync);
    assert [job][0].id == watched;
    SyncedLookup(s.jobs, [job], watched);
    assert s1.jobs[watched] == job.(lastRun := log);
    var s2 := Step(s1, watched, tick);
    assert Due(s1.jobs[watched], at) == Some(at);
    assert s2.active == s.active + [at] && s2.fired == s.fired + [at];
    assert s2.fired[|s.fired| - 1] == last && s2.fired[|s.fired|] == at;
    RunOfTwo(s, watched, sync, tick);
  }

  lemma RunOfTwo(s: State, watched: JobId, first: Event, second: Event)
    ensures var s1 := Step(s, watched, first);
            && Final(s, watched, [first, second]) == Step(s1, watched, second)
            && (Run(s, watched, [first, second]) <==>
                  Legal(s, watched, first) && Safe(s, watched, first) &&
                  Legal(s1, watched, second) && Safe(s1, watched, second))
  {
    hide Step, Legal, Safe;
    var s1 := Step(s, watched, first);
    assert [first, second][1..] == [second] && [second][1..] == [];
    assert Final(s1, watched, [second]) == Final(Step(s1, watched, second), watched, []);
    assert Run(Step(s1, watched, second), watched, []);
    assert Run(s1, watched, [second]) <==> Legal(s1, watched, second) && Safe(s1, watched, second);
  }

  lemma UnsafeUnguards(s: State, watched: JobId, e: Event)
    requires !Safe(s, watched, e)
    ensures var next := Step(s, watched, e);
            watched in next.jobs && !Guards(next, next.jobs[watched].lastRun)
  {
    if e.Sync? { SyncedLookup(s.jobs, e.incoming, watched); }
  }

  /** The condition on incoming logs is exact: in any state that the invariant allows, a legal event is safe if and
      only if every safe run that follows it is sound. */
  lemma SafeExactly(s: State, watched: JobId, e: Event)
    requires Inv(s, watched) && Legal(s, watched, e)
    ensures Safe(s, watched, e) <==>
              forall events: seq<Event> :: Run(Step(s, watched, e), watched, events) ==>
                Sound(Final(Step(s, watched, e), watched, events))
  {
    hide Step, Guards, Safe, Legal, Inv, Sound, Run, Final;
    var next := Step(s, watched, e);
    if Safe(s, watched, e) {
      StepKeepsInv(s, watched, e);
      forall events: seq<Event> | Run(next, watched, events) ensures Sound(Final(next, watched, events)) {
        OneRunAndNoRepeat(next, watched, events);
      }
    } else {
      UnsafeUnguards(s, watched, e);
      var events := UnguardedBreaks(next, watched);
    }
  }

  // ----- no occurrence is missed

  /** The function yields the first occurrence, from a set of them, strictly after an instant. */
  ghost predicate Follows(after: NextAfter, occurrences: iset<Instant>) {
    forall t :: match after(t)
                case None => forall o :: o in occurrences ==> o <= t
                case Some(next) => next in occurrences && forall o :: o in occurrences && t < o ==> next <= o
  }

  /** Ticks come in order and at most sixty seconds apart, the first that soon after the given one. */
  predicate Paced(events: seq<Event>, last: Instant)
    decreases |events|
  {
    events != [] ==>
      if events[0].Tick? then last <= events[0].now <= last + 60_000_000_000 && Paced(events[1..], events[0].now)
      else Paced(events[1..], last)
  }

  /** The job is there and enabled, its log is neither running nor begun at or after the occurrence, and its schedule has
      no other occurrence in the sixty seconds up to the tick. */
  ghost predicate Ready(s: State, watched: JobId, now: Instant, occurrence: Instant, occurrences: iset<Instant>) {
    && watched in s.jobs && s.jobs[watched].enabled && s.jobs[watched].schedule.Parsed?
    && Follows(s.jobs[watched].schedule.after, occurrences) && occurrence in occurrences
    && (forall o :: o in occurrences && now - 60_000_000_000 < o <= now ==> o == occurrence)
    && (s.jobs[watched].lastRun.Some? ==>
          s.jobs[watched].lastRun.value.status != Running && s.jobs[watched].lastRun.value.startedAt < occurrence)
  }

  /** The first tick at or after the occurrence finds the job ready for it. */
  ghost predicate MetReady(s: State, watched: JobId, events: seq<Event>, occurrence: Instant, occurrences: iset<Instant>)
    decreases |events|
  {
    && events != []
    && if events[0].Tick? && occurrence <= events[0].now
       then Ready(s, watched, events[0].now, occurrence, occurrences)
       else MetReady(Step(s, watched, events[0]), watched, events[1..], occurrence, occurrences)
  }

  lemma ReadyFires(s: State, watched: JobId, now: Instant, occurrence: Instant, occurrences: iset<Instant>)
    requires Ready(s, watched, now, occurrence, occurrences) && now - 60_000_000_000 < occurrence <= now
    ensures Step(s, watched, Tick(now)).fired == s.fired + [occurrence]
    ensures Step(s, watched, Tick(now)).jobs[watched].lastRun == Some(RunLog(now, None, Running))
  {
    var next := s.jobs[watched].schedule.after(now - 60_000_000_000);
    assert next == Some(occurrence);
    DueExactly(s.jobs[watched], now);
  }

  lemma {:induction false} FiredStays(s: State, watched: JobId, events: seq<Event>, occurrence: Instant)
    requires occurrence in s.fired
    ensures occurrence in Final(s, watched, events).fired
    decreases |events|
  {
    if events == [] {
    } else {
      FiredStays(Step(s, watched, events[0]), watched, events[1..], occurrence);
    }
  }

  /** With ticks at most a minute apart, the job is fired for every occurrence after the start of the run that the first
      tick at or after it finds it ready for, whatever else happens. */
  lemma {:induction false} NoOccurrenceIsMissed(s: State, watched: JobId, events: seq<Event>, last: Instant,
                                                occurrence: Instant, occurrences: iset<Instant>)
    requires Paced(events, last) && last < occurrence && MetReady(s, watched, events, occurrence, occurrences)
    ensures occurrence in Final(s, watched, events).fired
    decreases |events|
  {
    hide Step, Ready;
    var e := events[0];
    var next := Step(s, watched, e);
    if e.Tick? && occurrence <= e.now {
      ReadyFires(s, watched, e.now, occurrence, occurrences);
      assert occurrence in next.fired;
      FiredStays(next, watched, events[1..], occurrence);
    } else {
      NoOccurrenceIsMissed(next, watched, events[1..], if e.Tick? then e.now else last, occurrence, occurrences);
    }
  }

  // ----- what a finished log says

  /** The verdict of the latest completion of the job in a run. */
  function LatestVerdict(events: seq<Event>, watched: JobId, verdict: Option<bool>): Option<bool>
    decreases |events|
  {
    if events == [] then verdict
    else LatestVerdict(events[1..], watched,
                       if events[0].Complete? && events[0].id == watched then Some(events[0].ok) else verdict)
  }

  predicate Unfinished(log: Option<RunLog>) {
    log.Some? ==> log.value.status != Success && log.value.status != Failed
  }

  /** No job comes in with a log that already claims an outcome. */
  predicate NoClaims(events: seq<Event>) {
    && (forall i :: 0 <= i < |events| && events[i].Add? ==> Unfinished(events[i].job.lastRun))
    && (forall i, j :: 0 <= i < |events| && events[i].Sync? && 0 <= j < |events[i].incoming| ==>
          Unfinished(events[i].incoming[j].lastRun))
  }

  /** A finished log agrees with the verdict. */
  predicate Tells(s: State, watched: JobId, verdict: Option<bool>) {
    watched in s.jobs && s.jobs[watched].lastRun.Some? ==>
      && (s.jobs[watched].lastRun.value.status == Success ==> verdict == Some(true))
      && (s.jobs[watched].lastRun.value.status == Failed ==> verdict == Some(false))
  }

  lemma StepTells(s: State, watched: JobId, e: Event, verdict: Option<bool>)
    requires Tells(s, watched, verdict) && NoClaims([e])
    ensures Tells(Step(s, watched, e), watched, if e.Complete? && e.id == watched then Some(e.ok) else verdict)
  {
    assert [e][0] == e;
    if e.Sync? { SyncedLookup(s.jobs, e.incoming, watched); }
  }

  /** Whatever happens, a log marked successful or failed tells how the latest completed run of the job ended, if no log
      came in with a claim of its own. */
  lemma {:induction false} LogTellsOutcome(s: State, watched: JobId, events: seq<Event>, verdict: Option<bool>)
    requires Tells(s, watched, verdict) && NoClaims(events)
    ensures Tells(Final(s, watched, events), watched, LatestVerdict(events, watched, verdict))
    decreases |events|
  {
    if events == [] {
    } else {
      var e := events[0];
      assert NoClaims([e]) && NoClaims(events[1..]);
      hide Tells, Step, NoClaims;
      StepTells(s, watched, e, verdict);
      LogTellsOutcome(Step(s, watched, e), watched, events[1..],
                      if e.Complete? && e.id == watched then Some(e.ok) else verdict);
    }
  }

  /** And right after a completion the log of a stored job is exactly that run's. */
  lemma CompletionIsRecorded(s: State, watched: JobId, startedAt: Instant, finishedAt: Instant, ok: bool)
    requires watched in s.jobs
    ensures Step(s, watched, Complete(watched, startedAt, finishedAt, ok)).jobs[watched] ==
            s.jobs[watched].(lastRun := Some(RunLog(startedAt, Some(finishedAt), if ok then Success else Failed)))
  {
  }
}
