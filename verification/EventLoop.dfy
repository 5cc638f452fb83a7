/**
 The job queues behind the script engine and one turn of the loop that drains them.

 Jobs are numbered in the order they are enqueued. What a job does when it is called is given by a
 `World`: the actions it performs on the queues and the clock, and whether it fails. Instants are
 nanosecond counts; the clock never goes back because actions only let time pass.
 */
module EventLoop {
  import opened Wrappers

  const MS: nat := 1_000_000
  const U64_MAX: nat := 0xFFFF_FFFF_FFFF_FFFF

  // ----- instants --------------------------------------------------------------------------

  /** `millis_since_epoch` */
  function Millis(t: nat): nat { t / MS }

  /** `instant_checked_add`: both terms are truncated to milliseconds, and the sum must fit a `u64`. */
  function CheckedAdd(base: nat, delta: nat): Option<nat> {
    var total := Millis(base) + Millis(delta);
    if total > U64_MAX then None else Some(total * MS)
  }

  /** `millis_until_or_zero` */
  function UntilOrZero(later: nat, earlier: nat): nat {
    if Millis(later) > Millis(earlier) then Millis(later) - Millis(earlier) else 0
  }

  // ----- jobs and queues -------------------------------------------------------------------

  datatype Kind = Promise | Async | Timeout(delay: nat) | Generic | Other

  datatype Act = Enqueue(kind: Kind) | Cancel(id: nat) | Pass(span: nat) | Settle

  datatype Call = Call(acts: seq<Act>, failed: bool)

  /** What each job does when it is called. */
  type World = nat -> Call

  /** A generic job; `fails` marks the ones the queue builds itself to report an error. */
  datatype Task = Task(id: nat, fails: bool)

  /** The timers due at one instant, in the order they were added. */
  datatype Bucket = Bucket(at: nat, jobs: seq<nat>)

  datatype Timer = Timer(at: nat, id: nat)

  /** The fields of the queue; `timeoutJobs` lists its ordered map by increasing instant. */
  datatype Queues = Queues(asyncJobs: seq<nat>, promiseJobs: seq<nat>, timeoutJobs: seq<Bucket>,
                           genericJobs: seq<Task>, deadline: Option<nat>)

  /** What was enqueued, and when. */
  datatype Asked = Asked(kind: Kind, at: nat)

  /**
   The engine around the queue: the clock, the main promise, cancelled timers, the next job number, and
   for each number given out what was enqueued under it.
   */
  datatype Context = Context(now: nat, settled: bool, cancelled: set<nat>, nextId: nat, asked: seq<Asked>)

  /** What has left the queues so far. `firedAt` holds the instants at which `fired` were called. */
  datatype History = History(fired: seq<Timer>, firedAt: seq<nat>, promises: seq<nat>, generics: seq<nat>,
                             removed: seq<nat>, finished: seq<nat>, dropped: seq<nat>)

  datatype Exec = Exec(q: Queues, c: Context, h: History)

  /** `entry(at).or_default().push(id)` */
  function Insert(bs: seq<Bucket>, at: nat, id: nat): seq<Bucket> {
    if bs == [] || at < bs[0].at then [Bucket(at, [id])] + bs
    else if at == bs[0].at then [Bucket(at, bs[0].jobs + [id])] + bs[1..]
    else [bs[0]] + Insert(bs[1..], at, id)
  }

  /** `enqueue_job` */
  function Enqueued(x: Exec, kind: Kind): Exec {
    var id := x.c.nextId;
    var q := match kind
      case Promise => x.q.(promiseJobs := x.q.promiseJobs + [id])
      case Async => x.q.(asyncJobs := x.q.asyncJobs + [id])
      case Timeout(delay) =>
        (match CheckedAdd(x.c.now, delay)
         case Some(at) => x.q.(timeoutJobs := Insert(x.q.timeoutJobs, at, id))
         case None => x.q.(genericJobs := x.q.genericJobs + [Task(id, true)]))
      case Generic => x.q.(genericJobs := x.q.genericJobs + [Task(id, false)])
      case Other => x.q.(genericJobs := x.q.genericJobs + [Task(id, true)]);
    x.(q := q, c := x.c.(nextId := id + 1, asked := x.c.asked + [Asked(kind, x.c.now)]))
  }

  function Later(x: Exec, span: nat): Exec {
    x.(c := x.c.(now := x.c.now + span))
  }

  function Apply(x: Exec, a: Act): Exec {
    match a
    case Enqueue(kind) => Enqueued(x, kind)
    case Cancel(id) => x.(c := x.c.(cancelled := x.c.cancelled + {id}))
    case Pass(span) => Later(x, span)
    case Settle => x.(c := x.c.(settled := true))
  }

  function ApplyAll(x: Exec, acts: seq<Act>): Exec
    decreases |acts|
  {
    if acts == [] then x else ApplyAll(Apply(x, acts[0]), acts[1..])
  }

  // ----- draining --------------------------------------------------------------------------

  function Keep(jobs: seq<nat>, cancelled: set<nat>): seq<nat> {
    if jobs == [] then []
    else if jobs[0] in cancelled then Keep(jobs[1..], cancelled)
    else [jobs[0]] + Keep(jobs[1..], cancelled)
  }

  function Lost(jobs: seq<nat>, cancelled: set<nat>): seq<nat> {
    if jobs == [] then []
    else if jobs[0] in cancelled then [jobs[0]] + Lost(jobs[1..], cancelled)
    else Lost(jobs[1..], cancelled)
  }

  /** Dropping cancelled timers, and the instants left without any. */
  function Retain(bs: seq<Bucket>, cancelled: set<nat>): seq<Bucket> {
    if bs == [] then []
    else
      var jobs := Keep(bs[0].jobs, cancelled);
      if jobs == [] then Retain(bs[1..], cancelled) else [Bucket(bs[0].at, jobs)] + Retain(bs[1..], cancelled)
  }

  function Removed(bs: seq<Bucket>, cancelled: set<nat>): seq<nat> {
    if bs == [] then [] else Lost(bs[0].jobs, cancelled) + Removed(bs[1..], cancelled)
  }

  function Timers(at: nat, jobs: seq<nat>): seq<Timer> {
    if jobs == [] then [] else [Timer(at, jobs[0])] + Timers(at, jobs[1..])
  }

  /** All timers in firing order. */
  function Flat(bs: seq<Bucket>): seq<Timer> {
    if bs == [] then [] else Timers(bs[0].at, bs[0].jobs) + Flat(bs[1..])
  }

  /** The timers taken from the front because they are due. */
  function Due(bs: seq<Bucket>, now: nat): seq<Timer> {
    if bs == [] || bs[0].at > now then [] else Timers(bs[0].at, bs[0].jobs) + Due(bs[1..], now)
  }

  function NotDue(bs: seq<Bucket>, now: nat): seq<Bucket> {
    if bs == [] || bs[0].at > now then bs else NotDue(bs[1..], now)
  }

  function TimerIds(ts: seq<Timer>): seq<nat> {
    seq(|ts|, i requires 0 <= i < |ts| => ts[i].id)
  }

  /** Calling the timers of a batch until one fails. */
  function RunTimers(w: World, x: Exec, batch: seq<Timer>): (Exec, bool)
    decreases |batch|
  {
    if batch == [] then (x, true)
    else
      var t := batch[0];
      var called := x.(h := x.h.(fired := x.h.fired + [t], firedAt := x.h.firedAt + [x.c.now]));
      var y := ApplyAll(called, w(t.id).acts);
      if w(t.id).failed then (y.(h := y.h.(dropped := y.h.dropped + TimerIds(batch[1..]))), false)
      else RunTimers(w, y, batch[1..])
  }

  /** The queue once cancelled and due timers are taken out. */
  function TimersTaken(x: Exec): Exec {
    var kept := Retain(x.q.timeoutJobs, x.c.cancelled);
    x.(q := x.q.(timeoutJobs := NotDue(kept, x.c.now)),
       h := x.h.(removed := x.h.removed + Removed(x.q.timeoutJobs, x.c.cancelled)))
  }

  /** `drain_timeout_jobs` */
  function DrainTimers(w: World, x: Exec): (Exec, bool) {
    RunTimers(w, TimersTaken(x), Due(Retain(x.q.timeoutJobs, x.c.cancelled), x.c.now))
  }

  /** At most one generic job. */
  function DrainGeneric(w: World, x: Exec): (Exec, bool) {
    if x.q.genericJobs == [] then (x, true)
    else
      var task := x.q.genericJobs[0];
      var called := x.(q := x.q.(genericJobs := x.q.genericJobs[1..]), h := x.h.(generics := x.h.generics + [task.id]));
      if task.fails then (called, false) else (ApplyAll(called, w(task.id).acts), !w(task.id).failed)
  }

  function RunPromises(w: World, x: Exec, batch: seq<nat>): (Exec, bool)
    decreases |batch|
  {
    if batch == [] then (x, true)
    else
      var id := batch[0];
      var y := ApplyAll(x.(h := x.h.(promises := x.h.promises + [id])), w(id).acts);
      if w(id).failed then (y.(h := y.h.(dropped := y.h.dropped + batch[1..])), false)
      else RunPromises(w, y, batch[1..])
  }

  /** The promise jobs queued at this point; later ones wait for the next turn. */
  function DrainPromises(w: World, x: Exec): (Exec, bool) {
    RunPromises(w, x.(q := x.q.(promiseJobs := [])), x.q.promiseJobs)
  }

  /** `drain_jobs` */
  function DrainJobs(w: World, x: Exec): (Exec, bool) {
    var (a, okA) := DrainTimers(w, x);
    if !okA then (a, false)
    else
      var (b, okB) := DrainGeneric(w, a);
      if !okB then (b, false) else DrainPromises(w, b)
  }

  // ----- waiting ---------------------------------------------------------------------------

  datatype Waiting = NoWait | Sleep(millis: nat) | Poll(limit: Option<nat>)

  function Min(a: nat, b: nat): nat { if a < b then a else b }

  /** `wait_budget` in milliseconds */
  function WaitBudget(q: Queues, now: nat): Option<nat> {
    if q.timeoutJobs == [] then
      match q.deadline
      case None => None
      case Some(deadline) => Some(UntilOrZero(deadline, now))
    else
      var untilTimer := UntilOrZero(q.timeoutJobs[0].at, now);
      match q.deadline
      case None => Some(untilTimer)
      case Some(deadline) => Some(Min(untilTimer, UntilOrZero(deadline, now)))
  }

  predicate HasDue(q: Queues, now: nat) {
    q.timeoutJobs != [] && q.timeoutJobs[0].at <= now
  }

  /** How long a turn waits, given the futures in flight. */
  function WaitFor(q: Queues, now: nat, group: seq<nat>): Waiting {
    if q.promiseJobs != [] || q.genericJobs != [] || HasDue(q, now) then NoWait
    else if group != [] then
      match WaitBudget(q, now)
      case None => Poll(None)
      case Some(budget) => if budget == 0 then NoWait else Poll(Some(budget))
    else if q.timeoutJobs == [] then NoWait
    else
      var untilTimer := UntilOrZero(q.timeoutJobs[0].at, now);
      var millis := match q.deadline
        case None => untilTimer
        case Some(deadline) => Min(untilTimer, if deadline <= now then 0 else UntilOrZero(deadline, now));
      if millis == 0 then NoWait else Sleep(millis)
  }

  // ----- one turn --------------------------------------------------------------------------

  /** What a wait on the futures in flight brought. */
  datatype Awaited = Nothing | Finished(id: nat) | Broken(id: nat)

  /**
   What the outside does in one turn: what converting the main result runs, how time passes before
   each look at the clock, what polled futures do and which one ends, and how late a sleep wakes.
   */
  datatype Turn = Turn(stopActs: seq<Act>, beforeCheck: nat, beforeWait: nat, polled: seq<Act>,
                       awaited: Awaited, late: nat, beforeRecheck: nat, beforeDrain: nat)

  /** The loop: the futures in flight, their count, whether it has stopped watching, and the replies made. */
  datatype Loop = Loop(x: Exec, group: seq<nat>, inFlight: nat, stopped: bool, replies: nat)

  /** `QueueSnapshot`, which leaves async jobs out */
  datatype Snapshot = Snapshot(inFlight: nat, promises: nat, timeouts: nat, generics: nat)

  function SnapshotOf(l: Loop): Snapshot {
    Snapshot(l.inFlight, |l.x.q.promiseJobs|, TimerCount(l.x.q.timeoutJobs), |l.x.q.genericJobs|)
  }

  function TimerCount(bs: seq<Bucket>): nat {
    if bs == [] then 0 else |bs[0].jobs| + TimerCount(bs[1..])
  }

  /** Where the loop returned. */
  datatype Exit = Complete | DeadlineExceeded(snapshot: Snapshot, rechecked: bool) | Failed

  datatype Step = Continue(l: Loop) | Done(l: Loop, exit: Exit)

  predicate Expired(x: Exec) {
    x.q.deadline.Some? && x.c.now >= x.q.deadline.value
  }

  /** Replying once the watched promise has settled. */
  function Stopping(l: Loop, t: Turn, watch: bool): Loop {
    if !l.stopped && watch && l.x.c.settled
    then l.(x := ApplyAll(l.x, t.stopActs), stopped := true, replies := l.replies + 1)
    else l
  }

  function Started(l: Loop): Loop {
    l.(x := l.x.(q := l.x.q.(asyncJobs := [])), group := l.group + l.x.q.asyncJobs, inFlight := l.inFlight + |l.x.q.asyncJobs|)
  }

  predicate Quiet(l: Loop) {
    l.group == [] && l.x.q.promiseJobs == [] && l.x.q.timeoutJobs == [] && l.x.q.genericJobs == []
  }

  function Without(group: seq<nat>, id: nat): seq<nat> {
    if group == [] then [] else if group[0] == id then group[1..] else [group[0]] + Without(group[1..], id)
  }

  /** A future leaves the group; the count goes down only if it ended well. */
  function Ended(l: Loop, id: nat, well: bool): Loop {
    l.(group := Without(l.group, id), inFlight := if well && l.inFlight > 0 then l.inFlight - 1 else l.inFlight,
       x := l.x.(h := l.x.h.(finished := l.x.h.finished + [id])))
  }

  /** Time until an instant, and a bit later. */
  function WakeAt(x: Exec, instant: nat, late: nat): Exec {
    x.(c := x.c.(now := (if x.c.now < instant then instant else x.c.now) + late))
  }

  /** How a wait on the futures in flight ends. */
  function PollEnds(l: Loop, t: Turn, limit: Option<nat>, began: nat): Loop {
    match t.awaited
    case Nothing => if limit.Some? then l.(x := WakeAt(l.x, began + limit.value * MS, t.late)) else l
    case Finished(id) => Ended(l, id, true)
    case Broken(id) => Ended(l, id, false)
  }

  function Polled(l: Loop, t: Turn, limit: Option<nat>): Loop {
    PollEnds(l.(x := ApplyAll(l.x, t.polled)), t, limit, l.x.c.now)
  }

  function Waited(l: Loop, t: Turn): Loop {
    match WaitFor(l.x.q, l.x.c.now, l.group)
    case NoWait => l
    case Sleep(millis) => l.(x := WakeAt(l.x, l.x.c.now + millis * MS, t.late))
    case Poll(limit) => Polled(l, t, limit)
  }

  predicate Polls(l: Loop) {
    WaitFor(l.x.q, l.x.c.now, l.group).Poll?
  }

  /** The loop at the first check of the deadline, ready to wait, after waiting, and at the second check. */
  function AtCheck(l: Loop, t: Turn, watch: bool): Loop {
    var l1 := Stopping(l, t, watch);
    l1.(x := Later(l1.x, t.beforeCheck))
  }

  function AtWait(l: Loop, t: Turn): Loop {
    var l1 := Started(l);
    l1.(x := Later(l1.x, t.beforeWait))
  }

  function AtRecheck(l: Loop, t: Turn): Loop {
    var l1 := Waited(l, t);
    l1.(x := Later(l1.x, t.beforeRecheck))
  }

  function Drained(w: World, l: Loop, t: Turn): Step {
    var (x, ok) := DrainJobs(w, Later(l.x, t.beforeDrain));
    if ok then Continue(l.(x := x)) else Done(l.(x := x), Failed)
  }

  /** The second half of a turn: waiting, checking the deadline again, draining. */
  function WaitAndDrain(w: World, ready: Loop, t: Turn): Step {
    if Polls(ready) && t.awaited.Broken? then Done(Waited(ready, t), Failed)
    else
      var rechecked := AtRecheck(ready, t);
      if Expired(rechecked.x) then Done(rechecked, DeadlineExceeded(SnapshotOf(rechecked), true))
      else Drained(w, rechecked, t)
  }

  /** One turn of `run_jobs_async_until_then_to_quiescence` */
  function Turned(w: World, l: Loop, t: Turn, watch: bool): Step {
    var checked := AtCheck(l, t, watch);
    if Expired(checked.x) then Done(checked, DeadlineExceeded(SnapshotOf(checked), false))
    else if Quiet(Started(checked)) then Done(Started(checked), Complete)
    else WaitAndDrain(w, AtWait(checked, t), t)
  }

  /** What the outside can do: it ends only futures in flight, and an unlimited wait ends with one. */
  predicate Possible(l: Loop, t: Turn, watch: bool) {
    var ready := AtWait(AtCheck(l, t, watch), t);
    Polls(ready) ==>
      && (t.awaited.Nothing? ==> WaitFor(ready.x.q, ready.x.c.now, ready.group).limit.Some?)
      && (t.awaited.Finished? || t.awaited.Broken? ==> t.awaited.id in ready.group)
  }

  /** A run of turns, as long as the loop does not return. */
  function Run(w: World, l: Loop, turns: seq<Turn>, watch: bool): Step
    decreases |turns|
  {
    if turns == [] then Continue(l)
    else
      match Turned(w, l, turns[0], watch)
      case Done(l', exit) => Done(l', exit)
      case Continue(l') => Run(w, l', turns[1..], watch)
  }

  predicate AllPossible(w: World, l: Loop, turns: seq<Turn>, watch: bool)
    decreases |turns|
  {
    turns != [] ==>
      Possible(l, turns[0], watch) &&
      (Turned(w, l, turns[0], watch).Continue? ==> AllPossible(w, Turned(w, l, turns[0], watch).l, turns[1..], watch))
  }
}
