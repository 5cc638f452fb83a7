/**
 The worker map. Worker threads, the supervisor and callers that reap finished workers act one step
 at a time, in any order; each step is one operation on the map, a channel, a flag or the limiter.
 */
module Workers {
  import opened Wrappers
  import opened Restarts

  // ----- state -----------------------------------------------------------------------------

  /** A worker thread; `Absent` is a number whose thread the system refused to start. */
  datatype Thread = Starting | Live | Quitting | Exiting | Ended | Absent

  /** Where the supervisor is; `planned` and `done` count the workers of a reconciliation. */
  datatype Supervisor =
    | Idle
    | Reconciling(planned: nat, done: nat)
    | Spawned(id: nat, planned: nat, done: nat)
    | Waiting(id: nat, planned: nat, done: nat)
    | Stopped

  /**
   `threads` is indexed by worker number, so its length is the next number. `ready` is the startup
   channel of the worker being spawned, `reaps` the sets of finished workers that some reaper has
   collected but not removed yet. `planned` and `up` record how many workers the last reconciliation
   set out to add and how many of them came up; `calls` and `attempts` are the instants at which the
   limiter was asked and said yes.
   */
  datatype Pool = Pool(
    threads: seq<Thread>, workers: set<nat>, events: seq<nat>, reaps: seq<set<nat>>, ready: Option<bool>,
    pc: Supervisor, closed: bool, blocked: bool, planned: nat, up: nat,
    guard: Guard, now: nat, calls: seq<nat>, attempts: seq<nat>)

  datatype Limits = Limits(desired: nat, window: nat, maxRestarts: nat)

  datatype Step =
    | Announce(id: nat, ok: bool)
    | Leave(id: nat)
    | End(id: nat)
    | HandleEvent
    | BeginReap
    | EndReap(k: nat)
    | Plan
    | Attempt(later: nat, starts: bool)
    | Insert
    | Ready
    | Tick(span: nat)
    | Close
    | Stop
    | EmptyMap

  // ----- steps -----------------------------------------------------------------------------

  predicate Enabled(p: Pool, step: Step) {
    match step
    case Announce(id, _) => id < |p.threads| && p.threads[id].Starting?
    case Leave(id) => id < |p.threads| && (p.threads[id].Live? || p.threads[id].Quitting?)
    case End(id) => id < |p.threads| && p.threads[id].Exiting?
    case HandleEvent => p.pc.Idle? && p.events != []
    case BeginReap => true
    case EndReap(k) => k < |p.reaps|
    case Plan => p.pc.Idle? && !p.closed
    case Attempt(_, _) => p.pc.Reconciling?
    case Insert => p.pc.Spawned?
    case Ready => p.pc.Waiting? && p.ready.Some?
    case Tick(_) => true
    case Close => true
    case Stop => p.pc.Idle? && p.closed
    case EmptyMap => p.pc.Stopped?
  }

  function SetThread(p: Pool, id: nat, t: Thread): Pool
    requires id < |p.threads|
  {
    p.(threads := p.threads[id := t])
  }

  function EndedWorkers(p: Pool): set<nat> {
    set id | id in p.workers && id < |p.threads| && p.threads[id].Ended?
  }

  /** Giving up a reconciliation: `restart_blocked` is set and the supervisor goes back to its loop. */
  function GaveUp(p: Pool): Pool {
    p.(pc := Idle, blocked := true)
  }

  /** Asking the limiter at `now`; if it agrees a worker number is used up. */
  function Attempted(p: Pool, now: nat, starts: bool): Pool
    requires p.pc.Reconciling?
  {
    var (guard, granted) := Allow(p.guard, now);
    var asked := p.(now := now, guard := guard, calls := p.calls + [now]);
    if !granted then GaveUp(asked)
    else
      var tried := asked.(attempts := p.attempts + [now]);
      if starts
      then tried.(threads := p.threads + [Starting], ready := None, pc := Spawned(|p.threads|, p.pc.planned, p.pc.done))
      else GaveUp(tried.(threads := p.threads + [Absent]))
  }

  /** The startup message of the worker being waited for: a worker that is up unblocks restarts. */
  function Heard(p: Pool): Pool
    requires p.pc.Waiting? && p.ready.Some?
  {
    if !p.ready.value then GaveUp(p.(workers := p.workers - {p.pc.id}, ready := None))
    else
      var done := p.pc.done + 1;
      p.(ready := None, blocked := false, up := p.up + 1,
         pc := if done >= p.pc.planned then Idle else Reconciling(p.pc.planned, done))
  }

  /** The start of a reconciliation: counting what is missing. */
  function PlannedFor(lim: Limits, p: Pool): Pool {
    var missing := if lim.desired > |p.workers| then lim.desired - |p.workers| else 0;
    var counted := p.(planned := missing, up := 0);
    if missing == 0 then counted.(blocked := false) else counted.(pc := Reconciling(missing, 0))
  }

  function Next(lim: Limits, p: Pool, step: Step): Pool
    requires Enabled(p, step)
  {
    match step
    case Announce(id, ok) =>
      var told := if (p.pc.Spawned? || p.pc.Waiting?) && p.pc.id == id then Some(ok) else p.ready;
      SetThread(p, id, if ok then Live else Quitting).(ready := told)
    case Leave(id) => SetThread(p, id, Exiting).(events := p.events + [id])
    case End(id) => SetThread(p, id, Ended)
    case HandleEvent => p.(workers := p.workers - {p.events[0]}, events := p.events[1..])
    case BeginReap => p.(reaps := p.reaps + [EndedWorkers(p)])
    case EndReap(k) => p.(workers := p.workers - p.reaps[k], reaps := p.reaps[..k] + p.reaps[k + 1..])
    case Plan => PlannedFor(lim, p)
    case Attempt(later, starts) => Attempted(p, p.now + later, starts)
    case Insert => p.(workers := p.workers + {p.pc.id}, pc := Waiting(p.pc.id, p.pc.planned, p.pc.done))
    case Ready => Heard(p)
    case Tick(span) => p.(now := p.now + span)
    case Close => p.(closed := true)
    case Stop => p.(pc := Stopped)
    case EmptyMap => p.(workers := {})
  }

  // ----- invariant -------------------------------------------------------------------------

  /** Workers the supervisor still means to put into the map. */
  function Planned(pc: Supervisor): int {
    match pc
    case Idle | Stopped => 0
    case Reconciling(planned, done) => planned - done
    case Spawned(_, planned, done) => planned - done
    case Waiting(_, planned, done) => planned - done - 1
  }

  /** The thread has stopped serving jobs, or never began to. */
  predicate OutOfService(t: Thread) {
    t.Quitting? || t.Exiting? || t.Ended? || t.Absent?
  }

  ghost predicate MapOk(lim: Limits, p: Pool) {
    && (forall id :: id in p.workers ==> id < |p.threads|)
    && Planned(p.pc) >= 0 && (p.pc.Reconciling? || p.pc.Spawned? ==> Planned(p.pc) > 0)
    && |p.workers| + Planned(p.pc) <= lim.desired
  }

  predicate Gone(threads: seq<Thread>, id: nat) {
    id < |threads| && (threads[id].Exiting? || threads[id].Ended?)
  }

  ghost predicate AllEnded(threads: seq<Thread>, ids: set<nat>) {
    forall id :: id in ids ==> id < |threads| && threads[id].Ended?
  }

  /** Exit events and reapers name only threads that are past serving jobs. */
  ghost predicate NamesOk(threads: seq<Thread>, events: seq<nat>, reaps: seq<set<nat>>) {
    && (forall i :: 0 <= i < |events| ==> Gone(threads, events[i]))
    && (forall k :: 0 <= k < |reaps| ==> AllEnded(threads, reaps[k]))
  }

  /** The worker being spawned has a thread, which is out of service if it said so. */
  ghost predicate SpawnOk(p: Pool) {
    p.pc.Spawned? || p.pc.Waiting? ==>
      p.pc.id < |p.threads| && (p.ready == Some(false) ==> OutOfService(p.threads[p.pc.id]))
  }

  ghost predicate LimiterOk(lim: Limits, p: Pool) {
    var start := Guard(lim.window, lim.maxRestarts, []);
    && p.guard == Final(start, p.calls) && p.attempts == Grants(start, [], p.calls)
    && Sorted(p.calls) && (forall i :: 0 <= i < |p.calls| ==> p.calls[i] <= p.now)
  }

  /**
   Outside a reconciliation restarts are blocked exactly if fewer workers came up than were planned;
   inside one, its counters say how many have come up so far, and some are still to come.
   */
  predicate FlagOk(p: Pool) {
    if p.pc.Idle? || p.pc.Stopped? then p.blocked <==> p.up < p.planned
    else p.pc.planned == p.planned && p.pc.done == p.up && p.up < p.planned
  }

  ghost predicate PoolOk(lim: Limits, p: Pool) {
    && MapOk(lim, p) && NamesOk(p.threads, p.events, p.reaps) && SpawnOk(p) && LimiterOk(lim, p)
    && |p.threads| == lim.desired + |p.attempts|
    && FlagOk(p)
  }

  function FirstWorkers(n: nat): (r: set<nat>)
    ensures |r| == n && forall id :: id in r <==> 0 <= id < n
  {
    if n == 0 then {} else FirstWorkers(n - 1) + {n - 1}
  }

  /** A pool as its constructor leaves it: every worker up. */
  function Built(lim: Limits, now: nat): (p: Pool)
    ensures PoolOk(lim, p)
  {
    Pool(seq(lim.desired, _ => Live), FirstWorkers(lim.desired), [], [], None, Idle, false, false, 0, 0,
         Guard(lim.window, lim.maxRestarts, []), now, [], [])
  }

  lemma FewerLeft(a: set<nat>, b: set<nat>)
    ensures |a - b| <= |a|
  {
    assert a == (a - b) + (a * b);
  }

  // ----- the limiter -----------------------------------------------------------------------

  lemma {:induction false} RunSnoc(g: Guard, grants: seq<nat>, times: seq<nat>, now: nat)
    ensures Final(g, times + [now]) == Allow(Final(g, times), now).0
    ensures Grants(g, grants, times + [now]) ==
            Grants(g, grants, times) + if Allow(Final(g, times), now).1 then [now] else []
    decreases |times|
  {
    var all := times + [now];
    if times == [] {
      assert all == [now] && all[1..] == [];
      assert Final(Allow(g, now).0, []) == Allow(g, now).0;
      assert grants + [] == grants;
    } else {
      var (next, granted) := Allow(g, times[0]);
      assert all[1..] == times[1..] + [now];
      RunSnoc(next, if granted then grants + [times[0]] else grants, times[1..], now);
    }
  }

  lemma AttemptKeepsLimiter(lim: Limits, p: Pool, now: nat, starts: bool)
    requires LimiterOk(lim, p) && p.pc.Reconciling? && now >= p.now
    ensures LimiterOk(lim, Attempted(p, now, starts))
    ensures |Attempted(p, now, starts).threads| - |p.threads| == |Attempted(p, now, starts).attempts| - |p.attempts|
  {
    RunSnoc(Guard(lim.window, lim.maxRestarts, []), [], p.calls, now);
    assert p.attempts + [] == p.attempts;
  }

  // ----- every step ------------------------------------------------------------------------

  /** Threads only move on: one that is past serving jobs stays so. */
  predicate Forward(a: seq<Thread>, b: seq<Thread>) {
    && |a| <= |b|
    && forall i :: 0 <= i < |a| ==>
         && (a[i].Ended? ==> b[i].Ended?)
         && (a[i].Exiting? ==> b[i].Exiting? || b[i].Ended?)
         && (OutOfService(a[i]) ==> OutOfService(b[i]))
  }

  lemma OneForward(threads: seq<Thread>, id: nat, t: Thread)
    requires id < |threads| && Forward([threads[id]], [t])
    ensures Forward(threads, threads[id := t])
  {
    assert [threads[id]][0] == threads[id] && [t][0] == t;
  }

  lemma StepForward(lim: Limits, p: Pool, step: Step)
    requires Enabled(p, step)
    ensures Forward(p.threads, Next(lim, p, step).threads)
  {
    match step
    case Announce(id, ok) => OneForward(p.threads, id, if ok then Live else Quitting);
    case Leave(id) => OneForward(p.threads, id, Exiting);
    case End(id) => OneForward(p.threads, id, Ended);
    case _ =>
  }

  lemma NamesForward(a: seq<Thread>, b: seq<Thread>, events: seq<nat>, reaps: seq<set<nat>>)
    requires NamesOk(a, events, reaps) && Forward(a, b)
    ensures NamesOk(b, events, reaps)
  {
    forall i | 0 <= i < |events| ensures Gone(b, events[i]) {
      assert Gone(a, events[i]);
    }
    forall k | 0 <= k < |reaps| ensures AllEnded(b, reaps[k]) {
      assert AllEnded(a, reaps[k]);
    }
  }

  lemma StepKeepsNames(lim: Limits, p: Pool, step: Step)
    requires NamesOk(p.threads, p.events, p.reaps) && Enabled(p, step)
    ensures var q := Next(lim, p, step); NamesOk(q.threads, q.events, q.reaps)
  {
    var q := Next(lim, p, step);
    StepForward(lim, p, step);
    NamesForward(p.threads, q.threads, p.events, p.reaps);
    if step.Leave? {
      assert Gone(q.threads, step.id);
    } else if step.BeginReap? {
      assert AllEnded(q.threads, EndedWorkers(p));
    }
  }

  lemma StepKeepsSpawn(lim: Limits, p: Pool, step: Step)
    requires SpawnOk(p) && Enabled(p, step)
    ensures SpawnOk(Next(lim, p, step))
  {
  }

  lemma ChangeKeepsMap(lim: Limits, p: Pool, q: Pool, gone: set<nat>)
    requires MapOk(lim, p) && q.workers == p.workers - gone && |q.threads| >= |p.threads|
    requires q.pc.Idle? || q.pc.Stopped? || q.pc == p.pc
    ensures MapOk(lim, q)
  {
    FewerLeft(p.workers, gone);
  }

  lemma ReturnedMap(lim: Limits, p: Pool, q: Pool)
    requires MapOk(lim, p) && p.pc.Reconciling? && q.workers == p.workers && |q.threads| >= |p.threads| && q.pc.Idle?
    ensures MapOk(lim, q)
  {
  }

  lemma SpawnedMap(lim: Limits, p: Pool, q: Pool)
    requires MapOk(lim, p) && p.pc.Reconciling? && q.workers == p.workers && |q.threads| >= |p.threads|
    requires q.pc.Spawned? && q.pc.planned == p.pc.planned && q.pc.done == p.pc.done
    ensures MapOk(lim, q)
  {
  }

  lemma AttemptKeepsMap(lim: Limits, p: Pool, now: nat, starts: bool)
    requires MapOk(lim, p) && p.pc.Reconciling?
    ensures MapOk(lim, Attempted(p, now, starts))
  {
    var q := Attempted(p, now, starts);
    if q.pc.Idle? { ReturnedMap(lim, p, q); } else { SpawnedMap(lim, p, q); }
  }

  lemma HeardKeepsMap(lim: Limits, p: Pool)
    requires MapOk(lim, p) && Enabled(p, Ready)
    ensures MapOk(lim, Next(lim, p, Ready))
  {
    var q := Heard(p);
    assert p.workers - {} == p.workers;
    if q.pc.Idle? { ChangeKeepsMap(lim, p, q, if p.ready.value then {} else {p.pc.id}); }
  }

  lemma PlanKeepsMap(lim: Limits, p: Pool)
    requires MapOk(lim, p) && Enabled(p, Plan)
    ensures MapOk(lim, Next(lim, p, Plan))
  {
  }

  lemma InsertKeepsMap(lim: Limits, p: Pool)
    requires MapOk(lim, p) && SpawnOk(p) && Enabled(p, Insert)
    ensures MapOk(lim, Next(lim, p, Insert))
  {
  }

  lemma RemovalKeepsMap(lim: Limits, p: Pool, step: Step)
    requires MapOk(lim, p) && Enabled(p, step) && (step.HandleEvent? || step.EndReap? || step.EmptyMap?)
    ensures MapOk(lim, Next(lim, p, step))
  {
    assert p.workers - p.workers == {};
    match step
    case HandleEvent => FewerLeft(p.workers, {p.events[0]});
    case EndReap(k) => FewerLeft(p.workers, p.reaps[k]);
    case EmptyMap =>
  }

  /** Steps that leave the map alone and at most stop the supervisor. */
  predicate LeavesMap(step: Step) {
    step.Announce? || step.Leave? || step.End? || step.BeginReap? || step.Tick? || step.Close? || step.Stop?
  }

  lemma OtherKeepsMap(lim: Limits, p: Pool, step: Step)
    requires MapOk(lim, p) && Enabled(p, step) && LeavesMap(step)
    ensures MapOk(lim, Next(lim, p, step))
  {
    UntouchedMap(lim, p, Next(lim, p, step));
  }

  lemma StepKeepsMap(lim: Limits, p: Pool, step: Step)
    requires MapOk(lim, p) && SpawnOk(p) && Enabled(p, step)
    ensures MapOk(lim, Next(lim, p, step))
  {
    if LeavesMap(step) {
      OtherKeepsMap(lim, p, step);
    } else {
      match step
      case Plan => PlanKeepsMap(lim, p);
      case Attempt(later, starts) => AttemptKeepsMap(lim, p, p.now + later, starts);
      case Insert => InsertKeepsMap(lim, p);
      case Ready => HeardKeepsMap(lim, p);
      case _ => RemovalKeepsMap(lim, p, step);
    }
  }

  lemma UntouchedMap(lim: Limits, p: Pool, q: Pool)
    requires MapOk(lim, p) && q.workers == p.workers && |q.threads| == |p.threads| && (q.pc == p.pc || q.pc.Stopped?)
    ensures MapOk(lim, q)
  {
  }

  lemma LimiterUntouched(lim: Limits, p: Pool, q: Pool)
    requires LimiterOk(lim, p)
    requires q.guard == p.guard && q.calls == p.calls && q.attempts == p.attempts && q.now >= p.now
    ensures LimiterOk(lim, q)
  {
  }

  lemma StepKeepsLimiter(lim: Limits, p: Pool, step: Step)
    requires LimiterOk(lim, p) && Enabled(p, step) && |p.threads| == lim.desired + |p.attempts|
    ensures var q := Next(lim, p, step); LimiterOk(lim, q) && |q.threads| == lim.desired + |q.attempts|
  {
    if step.Attempt? {
      AttemptKeepsLimiter(lim, p, p.now + step.later, step.starts);
    } else {
      LimiterUntouched(lim, p, Next(lim, p, step));
    }
  }

  lemma StepKeeps(lim: Limits, p: Pool, step: Step)
    requires PoolOk(lim, p) && Enabled(p, step)
    ensures PoolOk(lim, Next(lim, p, step))
  {
    StepKeepsNames(lim, p, step);
    StepKeepsSpawn(lim, p, step);
    StepKeepsMap(lim, p, step);
    StepKeepsLimiter(lim, p, step);
    StepKeepsFlag(lim, p, step);
  }

  lemma StepKeepsFlag(lim: Limits, p: Pool, step: Step)
    requires FlagOk(p) && Enabled(p, step)
    ensures FlagOk(Next(lim, p, step))
  {
  }

  // ----- runs ------------------------------------------------------------------------------

  ghost predicate Runs(lim: Limits, p: Pool, steps: seq<Step>)
    decreases |steps|
  {
    steps != [] ==> Enabled(p, steps[0]) && Runs(lim, Next(lim, p, steps[0]), steps[1..])
  }

  ghost function After(lim: Limits, p: Pool, steps: seq<Step>): (r: Pool)
    requires PoolOk(lim, p) && Runs(lim, p, steps)
    ensures PoolOk(lim, r)
    decreases |steps|
  {
    if steps == [] then p
    else
      StepKeeps(lim, p, steps[0]);
      After(lim, Next(lim, p, steps[0]), steps[1..])
  }

  /**
   In every interleaving the map never holds more handles than workers wanted, and every number in it
   was handed out.
   */
  lemma MapBounded(lim: Limits, now: nat, steps: seq<Step>)
    requires Runs(lim, Built(lim, now), steps)
    ensures var p := After(lim, Built(lim, now), steps);
            |p.workers| <= lim.desired && forall id :: id in p.workers ==> id < |p.threads|
  {
  }

  /** However the run goes, no closed window holds more spawn attempts than the limiter allows. */
  lemma SpawnsBounded(lim: Limits, now: nat, steps: seq<Step>, lo: nat)
    requires Runs(lim, Built(lim, now), steps)
    ensures var p := After(lim, Built(lim, now), steps);
            CountIn(p.attempts, lo, lo + lim.window) <= lim.maxRestarts && |p.threads| == lim.desired + |p.attempts|
  {
    RestartBound(lim.window, lim.maxRestarts, After(lim, Built(lim, now), steps).calls, lo);
  }

  /** A worker number is used once: a new thread gets one that no thread, handle, event or reaper has. */
  lemma NumbersAreNew(lim: Limits, p: Pool, step: Step)
    requires PoolOk(lim, p) && Enabled(p, step) && |Next(lim, p, step).threads| != |p.threads|
    ensures var id := |p.threads|;
            && |Next(lim, p, step).threads| == id + 1 && Next(lim, p, step).threads[..id] == p.threads
            && id !in p.workers && id !in p.events && forall k :: 0 <= k < |p.reaps| ==> id !in p.reaps[k]
  {
    forall k | 0 <= k < |p.reaps| ensures |p.threads| !in p.reaps[k] {
      assert AllEnded(p.threads, p.reaps[k]);
    }
    forall i | 0 <= i < |p.events| ensures p.events[i] != |p.threads| {
      assert Gone(p.threads, p.events[i]);
    }
  }

  /** Until the pool is torn down, only workers out of service are taken out of the map. */
  lemma OnlyIdleRemoved(lim: Limits, p: Pool, step: Step, id: nat)
    requires PoolOk(lim, p) && Enabled(p, step) && !step.EmptyMap?
    requires id in p.workers && id !in Next(lim, p, step).workers
    ensures id < |p.threads| && OutOfService(p.threads[id])
  {
    if step.HandleEvent? {
      assert Gone(p.threads, p.events[0]);
    } else if step.EndReap? {
      assert AllEnded(p.threads, p.reaps[step.k]);
    }
  }

  /** A worker out of service stays so. */
  lemma {:induction false} StaysOut(lim: Limits, p: Pool, steps: seq<Step>, id: nat)
    requires PoolOk(lim, p) && Runs(lim, p, steps) && id < |p.threads| && OutOfService(p.threads[id])
    ensures id < |After(lim, p, steps).threads| && OutOfService(After(lim, p, steps).threads[id])
    decreases |steps|
  {
    if steps != [] {
      StepKeeps(lim, p, steps[0]);
      StepForward(lim, p, steps[0]);
      StaysOut(lim, Next(lim, p, steps[0]), steps[1..], id);
    }
  }

  // ----- no worker is lost -----------------------------------------------------------------

  predicate Serving(t: Thread) {
    t.Starting? || t.Live?
  }

  /** The worker has a handle in the map, or is just being given one. */
  predicate Handled(p: Pool, id: nat) {
    id in p.workers || (p.pc.Spawned? && p.pc.id == id)
  }

  /** Until the pool is torn down every serving worker is handled, and every handled one that left has its event pending. */
  ghost predicate Accounted(p: Pool) {
    !p.pc.Stopped? ==>
      && (forall id :: 0 <= id < |p.threads| && Serving(p.threads[id]) ==> Handled(p, id))
      && (forall id :: Handled(p, id) && Gone(p.threads, id) ==> id in p.events)
  }

  lemma RemovalAccounts(p: Pool, q: Pool, gone: set<nat>)
    requires Accounted(p) && q.workers == p.workers - gone && q.threads == p.threads && q.pc == p.pc
    requires forall id :: id in gone ==> id < |p.threads| && OutOfService(p.threads[id])
    requires forall id :: id in p.events && id !in gone ==> id in q.events
    requires p.pc.Spawned? ==> q.events == p.events
    ensures Accounted(q)
  {
    if !q.pc.Stopped? {
      forall id | Handled(q, id) && Gone(q.threads, id) ensures id in q.events {
        assert Handled(p, id) && Gone(p.threads, id);
      }
    }
  }

  lemma ThreadAccounts(p: Pool, id: nat, t: Thread, events: seq<nat>, ready: Option<bool>)
    requires Accounted(p) && id < |p.threads| && p.events <= events
    requires Serving(t) ==> Serving(p.threads[id])
    requires t.Exiting? || t.Ended? ==> id in events || Gone(p.threads, id)
    ensures Accounted(p.(threads := p.threads[id := t], events := events, ready := ready))
  {
    var q := p.(threads := p.threads[id := t], events := events, ready := ready);
    if !q.pc.Stopped? {
      forall k | Handled(q, k) && Gone(q.threads, k) ensures k in events {
        assert Handled(p, k);
        if k != id || Gone(p.threads, id) { assert Gone(p.threads, k) && k in p.events; }
      }
    }
  }

  lemma AttemptAccounts(p: Pool, now: nat, starts: bool)
    requires Accounted(p) && p.pc.Reconciling? && forall id :: id in p.workers ==> id < |p.threads|
    ensures Accounted(Attempted(p, now, starts))
  {
    var q := Attempted(p, now, starts);
    assert forall id :: 0 <= id < |p.threads| ==> q.threads[id] == p.threads[id];
    forall id | Handled(q, id) && Gone(q.threads, id) ensures id in q.events {
      assert Handled(p, id) && Gone(p.threads, id);
    }
  }

  lemma EventAccounts(lim: Limits, p: Pool)
    requires Accounted(p) && NamesOk(p.threads, p.events, p.reaps) && Enabled(p, HandleEvent)
    ensures Accounted(Next(lim, p, HandleEvent))
  {
    assert Gone(p.threads, p.events[0]);
    assert forall id :: id in p.events ==> id == p.events[0] || id in p.events[1..];
    RemovalAccounts(p, Next(lim, p, HandleEvent), {p.events[0]});
  }

  lemma ReapAccounts(lim: Limits, p: Pool, k: nat)
    requires Accounted(p) && NamesOk(p.threads, p.events, p.reaps) && Enabled(p, EndReap(k))
    ensures Accounted(Next(lim, p, EndReap(k)))
  {
    assert AllEnded(p.threads, p.reaps[k]);
    RemovalAccounts(p, Next(lim, p, EndReap(k)), p.reaps[k]);
  }

  lemma ThreadStepAccounts(lim: Limits, p: Pool, step: Step)
    requires Accounted(p) && Enabled(p, step) && (step.Announce? || step.Leave? || step.End?)
    ensures Accounted(Next(lim, p, step))
  {
    match step
    case Announce(id, ok) =>
      ThreadAccounts(p, id, if ok then Live else Quitting, p.events, Next(lim, p, step).ready);
    case Leave(id) => ThreadAccounts(p, id, Exiting, p.events + [id], p.ready);
    case End(id) => ThreadAccounts(p, id, Ended, p.events, p.ready);
  }

  /** Steps that touch neither threads nor the map nor events. */
  lemma OtherAccounts(p: Pool, q: Pool)
    requires Accounted(p) && q.threads == p.threads && q.workers == p.workers && q.events == p.events
    requires q.pc == p.pc || q.pc.Stopped? || (p.pc.Idle? && q.pc.Reconciling?)
    ensures Accounted(q)
  {
    assert forall id :: Handled(q, id) && !q.pc.Stopped? ==> Handled(p, id);
  }

  lemma RemovalStepAccounts(lim: Limits, p: Pool, step: Step)
    requires Accounted(p) && NamesOk(p.threads, p.events, p.reaps) && Enabled(p, step)
    requires step.HandleEvent? || step.EndReap? || step.EmptyMap?
    ensures Accounted(Next(lim, p, step))
  {
    if step.HandleEvent? { EventAccounts(lim, p); }
    if step.EndReap? { ReapAccounts(lim, p, step.k); }
  }

  lemma MapStepAccounts(lim: Limits, p: Pool, step: Step)
    requires PoolOk(lim, p) && Accounted(p) && Enabled(p, step) && !LeavesMap(step) && !step.Plan?
    ensures Accounted(Next(lim, p, step))
  {
    if step.Attempt? {
      AttemptAccounts(p, p.now + step.later, step.starts);
    } else if step.Insert? {
      InsertAccounts(lim, p);
    } else if step.Ready? {
      HeardAccounts(p);
    } else {
      RemovalStepAccounts(lim, p, step);
    }
  }

  lemma StepAccounts(lim: Limits, p: Pool, step: Step)
    requires PoolOk(lim, p) && Accounted(p) && Enabled(p, step)
    ensures Accounted(Next(lim, p, step))
  {
    if step.Announce? || step.Leave? || step.End? {
      ThreadStepAccounts(lim, p, step);
    } else if LeavesMap(step) || step.Plan? {
      OtherAccounts(p, Next(lim, p, step));
    } else {
      MapStepAccounts(lim, p, step);
    }
  }

  lemma InsertAccounts(lim: Limits, p: Pool)
    requires Accounted(p) && p.pc.Spawned?
    ensures Accounted(Next(lim, p, Insert))
  {
    var q := Next(lim, p, Insert);
    assert forall id :: Handled(q, id) <==> Handled(p, id);
  }

  lemma HeardAccounts(p: Pool)
    requires Accounted(p) && SpawnOk(p) && p.pc.Waiting? && p.ready.Some?
    ensures Accounted(Heard(p))
  {
    var q := Heard(p);
    forall id | Handled(q, id) && Gone(q.threads, id) ensures id in q.events {
      assert Handled(p, id) && Gone(p.threads, id);
    }
  }

  lemma {:induction false} RunAccounts(lim: Limits, p: Pool, steps: seq<Step>)
    requires PoolOk(lim, p) && Accounted(p) && Runs(lim, p, steps)
    ensures Accounted(After(lim, p, steps))
    decreases |steps|
  {
    if steps != [] {
      StepKeeps(lim, p, steps[0]);
      StepAccounts(lim, p, steps[0]);
      RunAccounts(lim, Next(lim, p, steps[0]), steps[1..]);
    }
  }

  function ServingIds(threads: seq<Thread>): set<nat> {
    set id | 0 <= id < |threads| && Serving(threads[id])
  }

  lemma SmallerSet(a: set<nat>, b: set<nat>)
    requires a <= b
    ensures |a| <= |b|
  {
    assert b == a + (b - a);
  }

  /**
   In every interleaving, until the pool is torn down: no more workers serve than are wanted; each has a
   handle in the map or is just being given one; and a worker that has left service while in the map has
   its exit event pending, so that once the events are handled no such handle is left.
   */
  lemma NoWorkerLost(lim: Limits, now: nat, steps: seq<Step>)
    requires Runs(lim, Built(lim, now), steps) && !After(lim, Built(lim, now), steps).pc.Stopped?
    ensures var p := After(lim, Built(lim, now), steps);
            && |ServingIds(p.threads)| <= lim.desired
            && (forall id :: id in ServingIds(p.threads) ==> Handled(p, id))
            && (forall id :: id in p.workers && Gone(p.threads, id) ==> id in p.events)
  {
    var p := After(lim, Built(lim, now), steps);
    RunAccounts(lim, Built(lim, now), steps);
    SmallerSet(ServingIds(p.threads), if p.pc.Spawned? then p.workers + {p.pc.id} else p.workers);
    forall id | id in p.workers && Gone(p.threads, id) ensures id in p.events {
      assert Handled(p, id);
    }
  }

  /** A reap that nothing disturbs leaves no handle of a finished thread in the map, and takes no other out. */
  lemma ReapClears(lim: Limits, p: Pool, id: nat)
    requires PoolOk(lim, p)
    ensures var q := Next(lim, p, BeginReap);
            && Enabled(q, EndReap(|p.reaps|))
            && (id in Next(lim, q, EndReap(|p.reaps|)).workers <==> id in p.workers && !p.threads[id].Ended?)
  {
  }

  lemma FirstThen(lim: Limits, p: Pool, step: Step, rest: seq<Step>, q: Pool)
    requires PoolOk(lim, p) && Enabled(p, step) && PoolOk(lim, Next(lim, p, step))
    requires Runs(lim, Next(lim, p, step), rest) && After(lim, Next(lim, p, step), rest) == q
    ensures Runs(lim, p, [step] + rest) && After(lim, p, [step] + rest) == q
  {
    assert ([step] + rest)[1..] == rest;
  }

  /** A worker being waited for announces itself and is heard. */
  lemma AnnouncedIsHeard(lim: Limits, p: Pool)
    requires PoolOk(lim, p) && p.pc.Waiting? && p.threads[p.pc.id].Starting?
    ensures var steps := [Announce(p.pc.id, true)] + ([Ready] + []);
            && Runs(lim, p, steps)
            && var q := After(lim, p, steps);
               && q.workers == p.workers && q.threads == p.threads[p.pc.id := Live]
               && !q.blocked && q.up == p.up + 1
  {
    var told := Next(lim, p, Announce(p.pc.id, true));
    StepKeeps(lim, p, Announce(p.pc.id, true));
    StepKeeps(lim, told, Ready);
    FirstThen(lim, told, Ready, [], Next(lim, told, Ready));
    FirstThen(lim, p, Announce(p.pc.id, true), [Ready] + [], Next(lim, told, Ready));
  }

  /** A worker just spawned is put into the map, announces itself and is heard. */
  lemma SpawnedIsHeard(lim: Limits, p: Pool)
    requires PoolOk(lim, p) && p.pc.Spawned? && p.threads[p.pc.id].Starting?
    ensures var steps := [Insert] + ([Announce(p.pc.id, true)] + ([Ready] + []));
            && Runs(lim, p, steps)
            && var q := After(lim, p, steps);
               && q.workers == p.workers + {p.pc.id} && q.threads == p.threads[p.pc.id := Live]
               && !q.blocked && q.up == p.up + 1
  {
    var waiting, rest := Next(lim, p, Insert), [Announce(p.pc.id, true)] + ([Ready] + []);
    StepKeeps(lim, p, Insert);
    AnnouncedIsHeard(lim, waiting);
    FirstThen(lim, p, Insert, rest, After(lim, waiting, rest));
  }

  /**
   A restart that the limiter grants, of a thread that starts and announces itself, puts a serving worker
   with a new number into the map and unblocks restarts.
   */
  lemma GrantedComesUp(lim: Limits, p: Pool, later: nat)
    requires PoolOk(lim, p) && p.pc.Reconciling? && Allow(p.guard, p.now + later).1
    ensures var id := |p.threads|;
            var steps := [Attempt(later, true)] + ([Insert] + ([Announce(id, true)] + ([Ready] + [])));
            && Runs(lim, p, steps)
            && var q := After(lim, p, steps);
               && q.workers == p.workers + {id} && q.threads == p.threads + [Live]
               && !q.blocked && q.up == p.up + 1
  {
    var id, spawned := |p.threads|, Next(lim, p, Attempt(later, true));
    var rest := [Insert] + ([Announce(id, true)] + ([Ready] + []));
    StepKeeps(lim, p, Attempt(later, true));
    SpawnedIsHeard(lim, spawned);
    assert (p.threads + [Starting])[id := Live] == p.threads + [Live];
    FirstThen(lim, p, Attempt(later, true), rest, After(lim, spawned, rest));
  }

  // ----- the blocked flag ------------------------------------------------------------------

  /** The last reconciliation begun in a run, if any: the pool it found. */
  ghost function LastPlan(lim: Limits, p: Pool, steps: seq<Step>, found: Option<Pool>): Option<Pool>
    requires Runs(lim, p, steps)
    decreases |steps|
  {
    if steps == [] then found
    else LastPlan(lim, Next(lim, p, steps[0]), steps[1..], if steps[0].Plan? then Some(p) else found)
  }

  /** How many workers have announced to the supervisor that they are up since that reconciliation began. */
  ghost function CameUp(lim: Limits, p: Pool, steps: seq<Step>, count: nat): nat
    requires Runs(lim, p, steps)
    decreases |steps|
  {
    if steps == [] then count
    else
      var next := if steps[0].Plan? then 0 else if steps[0].Ready? && p.ready == Some(true) then count + 1 else count;
      CameUp(lim, Next(lim, p, steps[0]), steps[1..], next)
  }

  function Missing(lim: Limits, found: Option<Pool>): nat {
    if found.Some? && lim.desired > |found.value.workers| then lim.desired - |found.value.workers| else 0
  }

  lemma {:induction false} CountsRecorded(lim: Limits, p: Pool, steps: seq<Step>, found: Option<Pool>)
    requires PoolOk(lim, p) && Runs(lim, p, steps) && p.planned == Missing(lim, found)
    ensures After(lim, p, steps).planned == Missing(lim, LastPlan(lim, p, steps, found))
    ensures After(lim, p, steps).up == CameUp(lim, p, steps, p.up)
    decreases |steps|
  {
    if steps != [] {
      StepKeeps(lim, p, steps[0]);
      StepRecords(lim, p, steps[0]);
      CountsRecorded(lim, Next(lim, p, steps[0]), steps[1..], if steps[0].Plan? then Some(p) else found);
    }
  }

  lemma StepRecords(lim: Limits, p: Pool, step: Step)
    requires Enabled(p, step)
    ensures var q := Next(lim, p, step);
            && q.planned == (if step.Plan? then Missing(lim, Some(p)) else p.planned)
            && q.up == (if step.Plan? then 0 else if step.Ready? && p.ready == Some(true) then p.up + 1 else p.up)
  {
  }

  /**
   In every interleaving, whenever the supervisor is between reconciliations, restarts are blocked
   exactly if fewer workers came up in the last one than it found missing. One that finds nothing
   missing leaves them unblocked, and so does a pool that has never been reconciled.
   */
  lemma BlockedMeansShort(lim: Limits, now: nat, steps: seq<Step>)
    requires Runs(lim, Built(lim, now), steps) && After(lim, Built(lim, now), steps).pc.Idle?
    ensures After(lim, Built(lim, now), steps).blocked <==>
            CameUp(lim, Built(lim, now), steps, 0) < Missing(lim, LastPlan(lim, Built(lim, now), steps, None))
  {
    CountsRecorded(lim, Built(lim, now), steps, None);
  }

  // ----- one reconciliation on its own -----------------------------------------------------

  /** What the outside answers to the n-th attempt: the instant it is made, and whether the worker comes up. */
  datatype Answer = Answer(now: nat, up: bool)

  class PoolShared {
    const desired: nat
    const guard: RestartGuard
    var workers: set<nat>
    var nextWorkerId: nat
    var closed: bool
    var restartBlocked: bool

    constructor (desired: nat, guard: RestartGuard)
      ensures this.desired == desired && this.guard == guard && Valid()
      ensures workers == {} && nextWorkerId == 0 && !closed && !restartBlocked
    {
      this.desired, this.guard := desired, guard;
      workers, nextWorkerId, closed, restartBlocked := {}, 0, false, false;
    }

    ghost predicate Valid()
      reads this
    {
      forall id :: id in workers ==> id < nextWorkerId
    }

    /** `spawn_worker`: the number is used up even if the worker does not come up. */
    method SpawnWorker(up: bool) returns (ok: bool)
      requires Valid()
      modifies `workers, `nextWorkerId, `restartBlocked
      ensures Valid() && ok == up && nextWorkerId == old(nextWorkerId) + 1
      ensures workers == (if up then old(workers) + {old(nextWorkerId)} else old(workers))
      ensures restartBlocked == (if up then false else old(restartBlocked))
    {
      var id := nextWorkerId;
      nextWorkerId := nextWorkerId + 1;
      workers := workers + {id};
      if up {
        restartBlocked := false;
      } else {
        workers := workers - {id};
      }
      ok := up;
    }

    /**
     `reconcile_workers` with nobody else touching the map: finished handles go, missing workers are
     spawned one by one while the limiter agrees, and restarts are blocked exactly if some are still missing.
     */
    method ReconcileWorkers(finished: set<nat>, answers: nat -> Answer) returns (spawned: nat)
      requires Valid()
      modifies this, guard
      ensures Valid() && closed == old(closed)
      ensures old(closed) ==> workers == old(workers) && restartBlocked == old(restartBlocked) && spawned == 0
      ensures !old(closed) ==> (restartBlocked <==> |workers| < desired)
      ensures !old(closed) ==> |workers| == |old(workers) - finished| + spawned
      ensures spawned > 0 ==> |workers| <= desired
      ensures forall id :: id in old(workers) - finished ==> id in workers
    {
      spawned := 0;
      if closed { return; }
      workers := workers - finished;
      ghost var live := workers;
      var missing := if desired > |workers| then desired - |workers| else 0;
      if missing == 0 {
        restartBlocked := false;
        return;
      }
      while spawned < missing
        invariant 0 <= spawned <= missing && Valid() && !closed
        invariant live <= workers && |workers| == |live| + spawned
        invariant spawned > 0 ==> !restartBlocked
        decreases missing - spawned
      {
        var answer := answers(spawned);
        var granted := guard.AllowRestart(answer.now);
        if !granted {
          restartBlocked := true;
          return;
        }
        var ok := SpawnWorker(answer.up);
        if !ok {
          restartBlocked := true;
          return;
        }
        spawned := spawned + 1;
      }
    }
  }
}
