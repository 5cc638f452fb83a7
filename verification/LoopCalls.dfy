/** Jobs are called as they were enqueued: by their kind, after their delay, unless cancelled, until one fails. */
module LoopCalls {
  import opened Wrappers
  import opened EventLoop
  import opened LoopSafety
  import opened LoopRuns

  // ----- what was asked for ----------------------------------------------------------------

  /** The millisecond at which a timer enqueued so is due. */
  function DueMillis(a: Asked): nat
    requires a.kind.Timeout?
  {
    a.at / MS + a.kind.delay / MS
  }

  /** A timer of the map was enqueued as one, and stands at the instant its delay leads to. */
  predicate Timely(asked: seq<Asked>, t: Timer) {
    t.id < |asked| && asked[t.id].kind.Timeout? && DueMillis(asked[t.id]) <= U64_MAX && t.at == DueMillis(asked[t.id]) * MS
  }

  predicate IsPromise(asked: seq<Asked>, id: nat) {
    id < |asked| && asked[id].kind.Promise?
  }

  predicate IsAsync(asked: seq<Asked>, id: nat) {
    id < |asked| && asked[id].kind.Async?
  }

  /** The queue cannot serve what was asked for: an unknown kind, or a timer past the end of time. */
  predicate Hopeless(a: Asked) {
    a.kind.Other? || (a.kind.Timeout? && DueMillis(a) > U64_MAX)
  }

  predicate IsGeneric(asked: seq<Asked>, id: nat) {
    id < |asked| && (asked[id].kind.Generic? || Hopeless(asked[id]))
  }

  /** A generic job fails by itself exactly if what was asked for is hopeless. */
  predicate TaskFits(asked: seq<Asked>, t: Task) {
    IsGeneric(asked, t.id) && (t.fails <==> Hopeless(asked[t.id]))
  }

  ghost predicate TimersFit(asked: seq<Asked>, ts: seq<Timer>) {
    forall t :: t in ts ==> Timely(asked, t)
  }

  ghost predicate PromisesFit(asked: seq<Asked>, ids: seq<nat>) {
    forall id :: id in ids ==> IsPromise(asked, id)
  }

  ghost predicate AsyncsFit(asked: seq<Asked>, ids: seq<nat>) {
    forall id :: id in ids ==> IsAsync(asked, id)
  }

  ghost predicate GenericsFit(asked: seq<Asked>, ids: seq<nat>) {
    forall id :: id in ids ==> IsGeneric(asked, id)
  }

  ghost predicate TasksFit(asked: seq<Asked>, ts: seq<Task>) {
    forall t :: t in ts ==> TaskFits(asked, t)
  }

  /** Every job is where its kind belongs, with the timers and promise jobs of a batch and the futures in flight. */
  ghost predicate Sorts(x: Exec, timers: seq<Timer>, promises: seq<nat>, group: seq<nat>) {
    && |x.c.asked| == x.c.nextId
    && TimersFit(x.c.asked, x.h.fired) && TimersFit(x.c.asked, timers) && TimersFit(x.c.asked, Flat(x.q.timeoutJobs))
    && PromisesFit(x.c.asked, x.h.promises) && PromisesFit(x.c.asked, promises) && PromisesFit(x.c.asked, x.q.promiseJobs)
    && AsyncsFit(x.c.asked, x.h.finished) && AsyncsFit(x.c.asked, group) && AsyncsFit(x.c.asked, x.q.asyncJobs)
    && GenericsFit(x.c.asked, x.h.generics) && TasksFit(x.c.asked, x.q.genericJobs)
  }

  lemma {:induction false} InsertMembers(bs: seq<Bucket>, at: nat, id: nat, t: Timer)
    ensures t in Flat(Insert(bs, at, id)) <==> t in Flat(bs) || t == Timer(at, id)
  {
    var r := Insert(bs, at, id);
    if bs == [] || at < bs[0].at {
      assert r[1..] == bs && Timers(at, [id]) == [Timer(at, id)];
    } else if at == bs[0].at {
      assert r[1..] == bs[1..];
      TimersAppend(at, bs[0].jobs, [id]);
      assert Timers(at, [id]) == [Timer(at, id)];
    } else {
      assert r[1..] == Insert(bs[1..], at, id);
      InsertMembers(bs[1..], at, id, t);
    }
  }

  /** A timer is put at the millisecond its delay leads to, or becomes a failing generic job if that is past the end. */
  lemma EnqueueTimer(x: Exec, delay: nat)
    requires |x.c.asked| == x.c.nextId
    ensures var y, id, due := Enqueued(x, Timeout(delay)), x.c.nextId, x.c.now / MS + delay / MS;
            && y.c.asked[id] == Asked(Timeout(delay), x.c.now)
            && (due <= U64_MAX ==>
                  y.q.genericJobs == x.q.genericJobs &&
                  forall t :: t in Flat(y.q.timeoutJobs) <==> t in Flat(x.q.timeoutJobs) || t == Timer(due * MS, id))
            && (due > U64_MAX ==>
                  y.q.timeoutJobs == x.q.timeoutJobs && y.q.genericJobs == x.q.genericJobs + [Task(id, true)])
  {
    var due, id := x.c.now / MS + delay / MS, x.c.nextId;
    if due <= U64_MAX {
      forall t
        ensures t in Flat(Insert(x.q.timeoutJobs, due * MS, id)) <==> t in Flat(x.q.timeoutJobs) || t == Timer(due * MS, id)
      {
        InsertMembers(x.q.timeoutJobs, due * MS, id, t);
      }
    }
  }

  /** What fits goes on fitting when more is asked for. */
  lemma FitLater(x: Exec, y: Exec, timers: seq<Timer>, promises: seq<nat>, group: seq<nat>)
    requires Sorts(x, timers, promises, group) && x.c.asked <= y.c.asked && |y.c.asked| == y.c.nextId
    requires y.h == x.h && y.q == x.q
    ensures Sorts(y, timers, promises, group)
  {
  }

  lemma EnqueueSorts(x: Exec, kind: Kind, timers: seq<Timer>, promises: seq<nat>, group: seq<nat>)
    requires Sorts(x, timers, promises, group)
    ensures Sorts(Enqueued(x, kind), timers, promises, group)
  {
    var y := Enqueued(x, kind);
    FitLater(x, y.(q := x.q), timers, promises, group);
    assert y.c.asked[x.c.nextId] == Asked(kind, x.c.now);
    if kind.Timeout? { EnqueueTimer(x, kind.delay); }
  }

  lemma {:induction false} ApplyAllSorts(x: Exec, acts: seq<Act>, timers: seq<Timer>, promises: seq<nat>, group: seq<nat>)
    requires Sorts(x, timers, promises, group)
    ensures Sorts(ApplyAll(x, acts), timers, promises, group)
    decreases |acts|
  {
    if acts != [] {
      if acts[0].Enqueue? { EnqueueSorts(x, acts[0].kind, timers, promises, group); }
      ApplyAllSorts(Apply(x, acts[0]), acts[1..], timers, promises, group);
    }
  }

  // ----- drains ----------------------------------------------------------------------------

  lemma {:induction false} RunTimersSorts(w: World, x: Exec, batch: seq<Timer>, promises: seq<nat>, group: seq<nat>)
    requires Sorts(x, batch, promises, group)
    ensures Sorts(RunTimers(w, x, batch).0, [], promises, group)
    decreases |batch|
  {
    if batch != [] {
      var called := TimerCalled(x, batch[0]);
      assert Sorts(called, batch[1..], promises, group);
      ApplyAllSorts(called, w(batch[0].id).acts, batch[1..], promises, group);
      var y := ApplyAll(called, w(batch[0].id).acts);
      if !w(batch[0].id).failed { RunTimersSorts(w, y, batch[1..], promises, group); }
    }
  }

  lemma {:induction false} RunPromisesSorts(w: World, x: Exec, batch: seq<nat>, group: seq<nat>)
    requires Sorts(x, [], batch, group)
    ensures Sorts(RunPromises(w, x, batch).0, [], [], group)
    decreases |batch|
  {
    if batch != [] {
      var called := x.(h := x.h.(promises := x.h.promises + [batch[0]]));
      assert Sorts(called, [], batch[1..], group);
      ApplyAllSorts(called, w(batch[0]).acts, [], batch[1..], group);
      var y := ApplyAll(called, w(batch[0]).acts);
      if !w(batch[0]).failed { RunPromisesSorts(w, y, batch[1..], group); }
    }
  }

  lemma {:induction false} KeptTimers(ts: seq<Timer>, cancelled: set<nat>, t: Timer)
    ensures t in KeepTimers(ts, cancelled) <==> t in ts && t.id !in cancelled
  {
    if ts != [] {
      KeptTimers(ts[1..], cancelled, t);
      assert ts == [ts[0]] + ts[1..];
    }
  }

  /** The timers taken, and those left, were in the map and not cancelled. */
  lemma TakenTimers(x: Exec, t: Timer)
    requires Ordered(x.q.timeoutJobs, -1)
    ensures t in Due(Retain(x.q.timeoutJobs, x.c.cancelled), x.c.now) || t in Flat(TimersTaken(x).q.timeoutJobs)
       <==> t in Flat(x.q.timeoutJobs) && t.id !in x.c.cancelled
  {
    var kept := Retain(x.q.timeoutJobs, x.c.cancelled);
    RetainFlat(x.q.timeoutJobs, x.c.cancelled);
    RetainOrdered(x.q.timeoutJobs, x.c.cancelled, -1);
    DueSplit(kept, x.c.now, -1);
    KeptTimers(Flat(x.q.timeoutJobs), x.c.cancelled, t);
  }

  lemma DrainTimersSorts(w: World, x: Exec, group: seq<nat>)
    requires Inv(x, [], [], group) && Sorts(x, [], [], group)
    ensures Sorts(DrainTimers(w, x).0, [], [], group)
  {
    var due := Due(Retain(x.q.timeoutJobs, x.c.cancelled), x.c.now);
    forall t ensures (t in due || t in Flat(TimersTaken(x).q.timeoutJobs)) ==> t in Flat(x.q.timeoutJobs) {
      TakenTimers(x, t);
    }
    RunTimersSorts(w, TimersTaken(x), due, [], group);
  }

  lemma DrainGenericSorts(w: World, x: Exec, group: seq<nat>)
    requires Sorts(x, [], [], group)
    ensures Sorts(DrainGeneric(w, x).0, [], [], group)
  {
    if x.q.genericJobs != [] {
      var task, rest := x.q.genericJobs[0], x.q.genericJobs[1..];
      var called := x.(q := x.q.(genericJobs := rest), h := x.h.(generics := x.h.generics + [task.id]));
      assert TaskFits(x.c.asked, task);
      assert Sorts(called, [], [], group);
      ApplyAllSorts(called, w(task.id).acts, [], [], group);
    }
  }

  lemma DrainPromisesSorts(w: World, x: Exec, group: seq<nat>)
    requires Sorts(x, [], [], group)
    ensures Sorts(DrainPromises(w, x).0, [], [], group)
  {
    RunPromisesSorts(w, x.(q := x.q.(promiseJobs := [])), x.q.promiseJobs, group);
  }

  lemma DrainJobsSorts(w: World, x: Exec, group: seq<nat>)
    requires Inv(x, [], [], group) && Sorts(x, [], [], group)
    ensures Sorts(DrainJobs(w, x).0, [], [], group)
  {
    var (a, okA) := DrainTimers(w, x);
    DrainTimersSorts(w, x, group);
    if okA {
      var (b, okB) := DrainGeneric(w, a);
      DrainGenericSorts(w, a, group);
      if okB { DrainPromisesSorts(w, b, group); }
    }
  }

  // ----- turns and runs --------------------------------------------------------------------

  ghost predicate LoopSorts(l: Loop) {
    Sorts(l.x, [], [], l.group)
  }

  lemma {:induction false} WithoutMembers(group: seq<nat>, id: nat)
    ensures forall k :: k in Without(group, id) ==> k in group
  {
    if group != [] && group[0] != id { WithoutMembers(group[1..], id); }
  }

  lemma EndedSorts(l: Loop, id: nat, well: bool)
    requires LoopSorts(l) && id in l.group
    ensures LoopSorts(Ended(l, id, well))
  {
    WithoutMembers(l.group, id);
  }

  lemma WaitedSorts(l: Loop, t: Turn)
    requires LoopSorts(l)
    requires Polls(l) && (t.awaited.Finished? || t.awaited.Broken?) ==> t.awaited.id in l.group
    ensures LoopSorts(Waited(l, t))
  {
    match WaitFor(l.x.q, l.x.c.now, l.group)
    case NoWait =>
    case Sleep(_) =>
    case Poll(limit) =>
      ApplyAllSorts(l.x, t.polled, [], [], l.group);
      var l1 := l.(x := ApplyAll(l.x, t.polled));
      match t.awaited
      case Nothing =>
      case Finished(id) => EndedSorts(l1, id, true);
      case Broken(id) => EndedSorts(l1, id, false);
  }

  lemma TurnSorts(w: World, l: Loop, t: Turn, watch: bool)
    requires LoopInv(l) && LoopSorts(l) && Possible(l, t, watch)
    ensures LoopSorts(Turned(w, l, t, watch).l)
  {
    var checked := AtCheck(l, t, watch);
    CheckKeeps(l, t, watch);
    ApplyAllSorts(l.x, t.stopActs, [], [], l.group);
    assert LoopSorts(checked);
    if !Expired(checked.x) {
      StartedKeeps(checked);
      assert LoopSorts(Started(checked));
      if !Quiet(Started(checked)) {
        var ready := AtWait(checked, t);
        LaterLoop(Started(checked), t.beforeWait);
        WaitAndDrainSorts(w, ready, t);
      }
    }
  }

  lemma WaitAndDrainSorts(w: World, ready: Loop, t: Turn)
    requires LoopInv(ready) && LoopSorts(ready)
    requires Polls(ready) && (t.awaited.Finished? || t.awaited.Broken?) ==> t.awaited.id in ready.group
    ensures LoopSorts(WaitAndDrain(w, ready, t).l)
  {
    WaitedSorts(ready, t);
    WaitedKeeps(ready, t);
    if !(Polls(ready) && t.awaited.Broken?) {
      var rechecked := AtRecheck(ready, t);
      LaterLoop(Waited(ready, t), t.beforeRecheck);
      if !Expired(rechecked.x) {
        LaterLoop(rechecked, t.beforeDrain);
        DrainJobsSorts(w, Later(rechecked.x, t.beforeDrain), rechecked.group);
      }
    }
  }

  lemma {:induction false} RunSorts(w: World, l: Loop, turns: seq<Turn>, watch: bool)
    requires LoopInv(l) && LoopSorts(l) && AllPossible(w, l, turns, watch)
    ensures LoopSorts(Run(w, l, turns, watch).l)
    decreases |turns|
  {
    if turns != [] {
      TurnSorts(w, l, turns[0], watch);
      TurnKeeps(w, l, turns[0], watch);
      var r := Turned(w, l, turns[0], watch);
      if r.Continue? { RunSorts(w, r.l, turns[1..], watch); }
    }
  }

  lemma EnteredSorts(now: nat, deadline: Option<nat>, acts: seq<Act>)
    ensures LoopSorts(Entered(now, deadline, acts))
  {
    ApplyAllSorts(Idle(now, deadline), acts, [], [], []);
  }

  /**
   In every reachable state every job is where its kind belongs: promise jobs, async jobs and timers
   have gone nowhere but to their own queue, and a generic job fails by itself exactly if the queue
   could not serve what was enqueued.
   */
  lemma CalledAsAsked(w: World, now: nat, deadline: Option<nat>, acts: seq<Act>, turns: seq<Turn>, watch: bool)
    requires AllPossible(w, Entered(now, deadline, acts), turns, watch)
    ensures LoopSorts(Run(w, Entered(now, deadline, acts), turns, watch).l)
  {
    EnteredInv(now, deadline, acts);
    EnteredSorts(now, deadline, acts);
    RunSorts(w, Entered(now, deadline, acts), turns, watch);
  }

  /**
   Over a whole run no timer is called before its delay has passed since it was enqueued, counted in
   whole milliseconds, and a timer still queued is due exactly from then on.
   */
  lemma DelaysPass(w: World, now: nat, deadline: Option<nat>, acts: seq<Act>, turns: seq<Turn>, watch: bool, n: nat)
    requires AllPossible(w, Entered(now, deadline, acts), turns, watch)
    ensures var x := Run(w, Entered(now, deadline, acts), turns, watch).l.x;
            && |x.h.firedAt| == |x.h.fired|
            && (forall i :: 0 <= i < |x.h.fired| ==>
                  && x.h.fired[i].id < |x.c.asked| && x.c.asked[x.h.fired[i].id].kind.Timeout?
                  && var a := x.c.asked[x.h.fired[i].id];
                     x.h.firedAt[i] / MS >= a.at / MS + a.kind.delay / MS)
            && (forall t :: t in Flat(x.q.timeoutJobs) ==>
                  && t.id < |x.c.asked| && x.c.asked[t.id].kind.Timeout?
                  && var a := x.c.asked[t.id];
                     (t.at <= n <==> n / MS >= a.at / MS + a.kind.delay / MS))
  {
    CalledAsAsked(w, now, deadline, acts, turns, watch);
    TimersFireInOrder(w, now, deadline, acts, turns, watch);
    var x := Run(w, Entered(now, deadline, acts), turns, watch).l.x;
    forall i | 0 <= i < |x.h.fired| ensures Timely(x.c.asked, x.h.fired[i]) && x.h.fired[i].at <= x.h.firedAt[i] {
      assert x.h.fired[i] in x.h.fired;
    }
  }

  // ----- what a turn calls -----------------------------------------------------------------

  /** Nothing has been called, and the queues have only grown. */
  ghost predicate Adds(x: Exec, y: Exec) {
    && y.h == x.h && x.c.cancelled <= y.c.cancelled && x.c.now <= y.c.now && x.c.asked <= y.c.asked
    && x.q.promiseJobs <= y.q.promiseJobs && x.q.genericJobs <= y.q.genericJobs
    && (forall t :: t in Flat(x.q.timeoutJobs) ==> t in Flat(y.q.timeoutJobs))
  }

  lemma EnqueueAdds(x: Exec, kind: Kind)
    ensures Adds(x, Enqueued(x, kind))
  {
    if kind.Timeout? && CheckedAdd(x.c.now, kind.delay).Some? {
      forall t | t in Flat(x.q.timeoutJobs) ensures t in Flat(Enqueued(x, kind).q.timeoutJobs) {
        InsertMembers(x.q.timeoutJobs, CheckedAdd(x.c.now, kind.delay).value, x.c.nextId, t);
      }
    }
  }

  lemma {:induction false} ApplyAllAdds(x: Exec, acts: seq<Act>)
    ensures Adds(x, ApplyAll(x, acts))
    decreases |acts|
  {
    if acts != [] {
      if acts[0].Enqueue? { EnqueueAdds(x, acts[0].kind); }
      ApplyAllAdds(Apply(x, acts[0]), acts[1..]);
    }
  }

  /** As `Adds`, but timers may have been called. */
  ghost predicate AddsAround(x: Exec, y: Exec) {
    && y.h.promises == x.h.promises && y.h.generics == x.h.generics && x.c.cancelled <= y.c.cancelled
    && x.c.asked <= y.c.asked && y.h.removed == x.h.removed
    && x.q.promiseJobs <= y.q.promiseJobs && x.q.genericJobs <= y.q.genericJobs
  }

  lemma {:induction false} RunTimersCalls(w: World, x: Exec, batch: seq<Timer>)
    ensures AddsAround(x, RunTimers(w, x, batch).0)
    ensures forall t :: t in RunTimers(w, x, batch).0.h.fired ==> t in x.h.fired || t in batch
    decreases |batch|
  {
    if batch != [] {
      var called := TimerCalled(x, batch[0]);
      ApplyAllAdds(called, w(batch[0].id).acts);
      if !w(batch[0].id).failed { RunTimersCalls(w, ApplyAll(called, w(batch[0].id).acts), batch[1..]); }
    }
  }

  lemma {:induction false} RunPromisesCalls(w: World, x: Exec, batch: seq<nat>)
    ensures var y := RunPromises(w, x, batch).0;
            && y.h.fired == x.h.fired && y.h.generics == x.h.generics && y.h.removed == x.h.removed
            && x.c.cancelled <= y.c.cancelled && x.c.asked <= y.c.asked
    decreases |batch|
  {
    if batch != [] {
      var called := x.(h := x.h.(promises := x.h.promises + [batch[0]]));
      ApplyAllAdds(called, w(batch[0]).acts);
      if !w(batch[0]).failed { RunPromisesCalls(w, ApplyAll(called, w(batch[0]).acts), batch[1..]); }
    }
  }

  lemma {:induction false} LostMembers(jobs: seq<nat>, cancelled: set<nat>)
    ensures forall id :: id in Lost(jobs, cancelled) ==> id in cancelled
  {
    if jobs != [] { LostMembers(jobs[1..], cancelled); }
  }

  lemma {:induction false} RemovedMembers(bs: seq<Bucket>, cancelled: set<nat>)
    ensures forall id :: id in Removed(bs, cancelled) ==> id in cancelled
  {
    if bs != [] {
      LostMembers(bs[0].jobs, cancelled);
      RemovedMembers(bs[1..], cancelled);
    }
  }

  lemma DrainTimersCalls(w: World, x: Exec)
    requires Ordered(x.q.timeoutJobs, -1)
    ensures var (y, ok) := DrainTimers(w, x);
            && AddsAround(x.(h := x.h.(removed := y.h.removed)), y)
            && (forall t :: t in y.h.fired ==> t in x.h.fired || t.id !in x.c.cancelled)
            && (forall id :: id in y.h.removed ==> id in x.h.removed || id in x.c.cancelled)
            && (ok ==> forall t :: t in Flat(x.q.timeoutJobs) && t.at <= x.c.now && t.id !in x.c.cancelled ==> t in y.h.fired)
  {
    var kept := Retain(x.q.timeoutJobs, x.c.cancelled);
    var due := Due(kept, x.c.now);
    forall t ensures t in due || t in Flat(TimersTaken(x).q.timeoutJobs)
                <==> t in Flat(x.q.timeoutJobs) && t.id !in x.c.cancelled {
      TakenTimers(x, t);
    }
    RetainOrdered(x.q.timeoutJobs, x.c.cancelled, -1);
    NoneLeftDue(kept, x.c.now, -1);
    RemovedMembers(x.q.timeoutJobs, x.c.cancelled);
    RunTimersCalls(w, TimersTaken(x), due);
    RunTimersAdvances(w, TimersTaken(x), due);
  }

  lemma DrainGenericCalls(w: World, x: Exec)
    ensures var y := DrainGeneric(w, x).0;
            && y.h.fired == x.h.fired && y.h.promises == x.h.promises && y.h.removed == x.h.removed
            && x.c.cancelled <= y.c.cancelled && x.q.promiseJobs <= y.q.promiseJobs
            && y.h.generics == x.h.generics + if x.q.genericJobs == [] then [] else [x.q.genericJobs[0].id]
  {
    if x.q.genericJobs != [] {
      var task := x.q.genericJobs[0];
      ApplyAllAdds(x.(q := x.q.(genericJobs := x.q.genericJobs[1..]), h := x.h.(generics := x.h.generics + [task.id])),
                   w(task.id).acts);
    }
  }

  /** What a drain calls: every timer due and not cancelled, at most one generic job, every promise job queued. */
  ghost predicate Serves(x: Exec, y: Exec) {
    && (forall t :: t in Flat(x.q.timeoutJobs) && t.at <= x.c.now ==> t in y.h.fired || t.id in y.c.cancelled)
    && |y.h.generics| <= |x.h.generics| + 1
    && (x.q.genericJobs != [] ==> y.h.generics == x.h.generics + [x.q.genericJobs[0].id])
    && x.h.promises + x.q.promiseJobs <= y.h.promises
  }

  lemma DrainJobsCalls(w: World, x: Exec)
    requires Ordered(x.q.timeoutJobs, -1)
    ensures var (y, ok) := DrainJobs(w, x);
            && x.c.cancelled <= y.c.cancelled
            && (forall t :: t in y.h.fired ==> t in x.h.fired || t.id !in x.c.cancelled)
            && (forall id :: id in y.h.removed ==> id in x.h.removed || id in x.c.cancelled)
            && (ok ==> Serves(x, y))
  {
    var (a, okA) := DrainTimers(w, x);
    DrainTimersCalls(w, x);
    if okA {
      var (b, okB) := DrainGeneric(w, a);
      DrainGenericCalls(w, a);
      if okB {
        var c := b.(q := b.q.(promiseJobs := []));
        RunPromisesCalls(w, c, b.q.promiseJobs);
        RunPromisesAdvances(w, c, b.q.promiseJobs);
      }
    }
  }

  lemma ServesEarlier(x: Exec, y: Exec, z: Exec)
    requires Adds(x, y) && Serves(y, z) && y.c.cancelled <= z.c.cancelled
    ensures Serves(x, z)
  {
  }

  lemma WaitedAdds(l: Loop, t: Turn)
    ensures Adds(l.x, Waited(l, t).x.(h := l.x.h)) && Waited(l, t).x.h == l.x.h.(finished := Waited(l, t).x.h.finished)
  {
    ApplyAllAdds(l.x, t.polled);
  }

  lemma AddsOn(x: Exec, y: Exec, z: Exec)
    requires Adds(x, y) && Adds(y, z)
    ensures Adds(x, z)
  {
  }

  /** The loop as it begins to drain; the queues have only grown since the turn began. */
  function AtDrain(l: Loop, t: Turn, watch: bool): Loop {
    var rechecked := AtRecheck(AtWait(AtCheck(l, t, watch), t), t);
    rechecked.(x := Later(rechecked.x, t.beforeDrain))
  }

  lemma AtDrainAdds(l: Loop, t: Turn, watch: bool)
    ensures var x := AtDrain(l, t, watch).x;
            Adds(l.x, x.(h := l.x.h)) && x.h == l.x.h.(finished := x.h.finished)
  {
    ApplyAllAdds(l.x, t.stopActs);
    var ready := AtWait(AtCheck(l, t, watch), t);
    assert Adds(l.x, ready.x);
    WaitedAdds(ready, t);
    AddsOn(l.x, ready.x, Waited(ready, t).x.(h := ready.x.h));
  }

  lemma AtDrainOrdered(w: World, l: Loop, t: Turn, watch: bool)
    requires LoopInv(l) && Possible(l, t, watch)
    ensures Ordered(AtDrain(l, t, watch).x.q.timeoutJobs, -1)
  {
    var checked := AtCheck(l, t, watch);
    CheckKeeps(l, t, watch);
    StartedKeeps(checked);
    LaterLoop(Started(checked), t.beforeWait);
    WaitedKeeps(AtWait(checked, t), t);
  }

  /** The turn comes to wait for futures in flight, and one of them breaks. */
  predicate Breaks(l: Loop, t: Turn, watch: bool) {
    var checked := AtCheck(l, t, watch);
    !Expired(checked.x) && !Quiet(Started(checked)) && Polls(AtWait(checked, t)) && t.awaited.Broken?
  }

  /** Nothing has been called or removed. */
  predicate Uncalled(x: Exec, y: Exec) {
    y.h == x.h.(finished := y.h.finished) && x.c.cancelled <= y.c.cancelled && x.c.asked <= y.c.asked
  }

  /** The turn ends with its drain, which it enters with no future broken. */
  predicate EndsWithDrain(w: World, l: Loop, t: Turn, watch: bool) {
    var r, (x, ok) := Turned(w, l, t, watch), DrainJobs(w, AtDrain(l, t, watch).x);
    && r.l.x == x && !(Polls(AtWait(AtCheck(l, t, watch), t)) && t.awaited.Broken?)
    && if ok then r.Continue? else r.Done? && r.exit.Failed?
  }

  lemma CheckUncalled(l: Loop, t: Turn, watch: bool)
    ensures Uncalled(l.x, AtCheck(l, t, watch).x)
  {
    ApplyAllAdds(l.x, t.stopActs);
  }

  lemma WaitUncalled(x: Exec, ready: Loop, t: Turn)
    requires Uncalled(x, ready.x)
    ensures Uncalled(x, Waited(ready, t).x) && Uncalled(x, AtRecheck(ready, t).x)
  {
    WaitedAdds(ready, t);
  }

  /** A turn that does not come to its drain calls nothing, and fails only if a future breaks. */
  lemma EarlyExits(w: World, l: Loop, t: Turn, watch: bool)
    ensures var r := Turned(w, l, t, watch);
            || EndsWithDrain(w, l, t, watch)
            || (r.Done? && Uncalled(l.x, r.l.x) && (r.exit.Failed? <==> Breaks(l, t, watch)))
    ensures EndsWithDrain(w, l, t, watch) ==> !Breaks(l, t, watch)
  {
    var checked := AtCheck(l, t, watch);
    CheckUncalled(l, t, watch);
    if !Expired(checked.x) && !Quiet(Started(checked)) {
      var ready := AtWait(checked, t);
      assert Uncalled(l.x, ready.x);
      WaitUncalled(l.x, ready, t);
    }
  }

  /** Timers called or removed meanwhile: none cancelled before is called, and only cancelled ones are removed. */
  ghost predicate Heeds(x: Exec, y: Exec) {
    && x.c.cancelled <= y.c.cancelled
    && (forall id :: id in y.h.removed ==> id in x.h.removed || id in y.c.cancelled)
    && (forall timer :: timer in y.h.fired ==> timer in x.h.fired || timer.id !in x.c.cancelled)
  }

  lemma DrainServes(w: World, x: Exec, d: Exec)
    requires Ordered(d.q.timeoutJobs, -1) && Adds(x, d.(h := x.h)) && d.h == x.h.(finished := d.h.finished)
    ensures var (y, ok) := DrainJobs(w, d);
            Heeds(x, y) && (ok ==> Serves(x, y))
  {
    DrainJobsCalls(w, d);
    var (y, ok) := DrainJobs(w, d);
    if ok {
      assert Serves(d.(h := x.h), y);
      ServesEarlier(x, d.(h := x.h), y);
    }
  }

  /**
   A turn that does not return leaves nothing waiting that was ready when it began: it calls every timer
   due and not cancelled meanwhile, the first generic job and no second one, and every promise job queued.
   No timer cancelled before it is called in it.
   */
  lemma TurnServes(w: World, l: Loop, t: Turn, watch: bool)
    requires LoopInv(l) && Possible(l, t, watch)
    ensures var r := Turned(w, l, t, watch);
            Heeds(l.x, r.l.x) && (r.Continue? ==> Serves(l.x, r.l.x))
  {
    EarlyExits(w, l, t, watch);
    if EndsWithDrain(w, l, t, watch) {
      AtDrainAdds(l, t, watch);
      AtDrainOrdered(w, l, t, watch);
      DrainServes(w, l.x, AtDrain(l, t, watch).x);
    }
  }

  predicate RemovedOk(x: Exec) {
    forall id :: id in x.h.removed ==> id in x.c.cancelled
  }

  lemma TurnRemoves(w: World, l: Loop, t: Turn, watch: bool)
    requires LoopInv(l) && Possible(l, t, watch) && RemovedOk(l.x)
    ensures RemovedOk(Turned(w, l, t, watch).l.x)
  {
    TurnServes(w, l, t, watch);
  }

  /** Over a whole run only cancelled timers are removed without being called. */
  lemma {:induction false} RemovedWereCancelled(w: World, l: Loop, turns: seq<Turn>, watch: bool)
    requires LoopInv(l) && AllPossible(w, l, turns, watch) && RemovedOk(l.x)
    ensures RemovedOk(Run(w, l, turns, watch).l.x)
    decreases |turns|
  {
    if turns != [] {
      TurnRemoves(w, l, turns[0], watch);
      TurnKeeps(w, l, turns[0], watch);
      var r := Turned(w, l, turns[0], watch);
      if r.Continue? { RemovedWereCancelled(w, r.l, turns[1..], watch); }
    }
  }

  /** A timer cancelled before it was called is never called, whatever happens afterwards. */
  lemma {:induction false} CancelledNeverFires(w: World, l: Loop, turns: seq<Turn>, watch: bool, id: nat)
    requires LoopInv(l) && AllPossible(w, l, turns, watch)
    requires id in l.x.c.cancelled && forall t :: t in l.x.h.fired ==> t.id != id
    ensures forall t :: t in Run(w, l, turns, watch).l.x.h.fired ==> t.id != id
    decreases |turns|
  {
    if turns != [] {
      TurnServes(w, l, turns[0], watch);
      TurnKeeps(w, l, turns[0], watch);
      var r := Turned(w, l, turns[0], watch);
      if r.Continue? { CancelledNeverFires(w, r.l, turns[1..], watch, id); }
    }
  }

  // ----- failures --------------------------------------------------------------------------

  /** No job called so far has failed. */
  ghost predicate NoneFailed(w: World, x: Exec) {
    && (forall t :: t in x.h.fired ==> !w(t.id).failed)
    && (forall id :: id in x.h.promises ==> !w(id).failed)
    && (forall id :: id in x.h.generics ==> !w(id).failed && id < |x.c.asked| && !Hopeless(x.c.asked[id]))
  }

  lemma NoneFailedLater(w: World, x: Exec, y: Exec)
    requires NoneFailed(w, x) && x.c.asked <= y.c.asked
    requires y.h.fired == x.h.fired && y.h.promises == x.h.promises && y.h.generics == x.h.generics
    ensures NoneFailed(w, y)
  {
  }

  lemma {:induction false} RunTimersFails(w: World, x: Exec, batch: seq<Timer>)
    requires NoneFailed(w, x)
    ensures RunTimers(w, x, batch).1 <==> NoneFailed(w, RunTimers(w, x, batch).0)
    decreases |batch|
  {
    if batch != [] {
      var called := TimerCalled(x, batch[0]);
      var y := ApplyAll(called, w(batch[0].id).acts);
      ApplyAllAdds(called, w(batch[0].id).acts);
      assert batch[0] in y.h.fired;
      if !w(batch[0].id).failed {
        NoneFailedLater(w, called, y);
        RunTimersFails(w, y, batch[1..]);
      }
    }
  }

  lemma {:induction false} RunPromisesFails(w: World, x: Exec, batch: seq<nat>)
    requires NoneFailed(w, x)
    ensures RunPromises(w, x, batch).1 <==> NoneFailed(w, RunPromises(w, x, batch).0)
    decreases |batch|
  {
    if batch != [] {
      var called := x.(h := x.h.(promises := x.h.promises + [batch[0]]));
      var y := ApplyAll(called, w(batch[0]).acts);
      ApplyAllAdds(called, w(batch[0]).acts);
      assert batch[0] in y.h.promises;
      if !w(batch[0]).failed {
        NoneFailedLater(w, called, y);
        RunPromisesFails(w, y, batch[1..]);
      }
    }
  }

  lemma DrainGenericFails(w: World, x: Exec)
    requires NoneFailed(w, x) && TasksFit(x.c.asked, x.q.genericJobs)
    ensures DrainGeneric(w, x).1 <==> NoneFailed(w, DrainGeneric(w, x).0)
  {
    if x.q.genericJobs != [] {
      var task := x.q.genericJobs[0];
      var called := x.(q := x.q.(genericJobs := x.q.genericJobs[1..]), h := x.h.(generics := x.h.generics + [task.id]));
      assert TaskFits(x.c.asked, task);
      ApplyAllAdds(called, w(task.id).acts);
      assert task.id in called.h.generics;
    }
  }

  lemma DrainJobsFails(w: World, x: Exec, group: seq<nat>)
    requires Inv(x, [], [], group) && Sorts(x, [], [], group) && NoneFailed(w, x)
    ensures DrainJobs(w, x).1 <==> NoneFailed(w, DrainJobs(w, x).0)
  {
    var (a, okA) := DrainTimers(w, x);
    NoneFailedLater(w, x, TimersTaken(x));
    RunTimersFails(w, TimersTaken(x), Due(Retain(x.q.timeoutJobs, x.c.cancelled), x.c.now));
    DrainTimersSorts(w, x, group);
    if okA {
      var (b, okB) := DrainGeneric(w, a);
      DrainGenericFails(w, a);
      if okB {
        var c := b.(q := b.q.(promiseJobs := []));
        NoneFailedLater(w, b, c);
        RunPromisesFails(w, c, b.q.promiseJobs);
      }
    }
  }

  lemma AtDrainSorts(l: Loop, t: Turn, watch: bool)
    requires LoopInv(l) && LoopSorts(l) && Possible(l, t, watch)
    requires !(Polls(AtWait(AtCheck(l, t, watch), t)) && t.awaited.Broken?)
    ensures var d := AtDrain(l, t, watch);
            Inv(d.x, [], [], d.group) && Sorts(d.x, [], [], d.group)
  {
    var checked := AtCheck(l, t, watch);
    var ready := AtWait(checked, t);
    CheckKeeps(l, t, watch);
    ApplyAllSorts(l.x, t.stopActs, [], [], l.group);
    StartedKeeps(checked);
    assert LoopSorts(checked) && LoopSorts(Started(checked));
    LaterLoop(Started(checked), t.beforeWait);
    WaitedKeeps(ready, t);
    WaitedSorts(ready, t);
    LaterLoop(Waited(ready, t), t.beforeRecheck);
    LaterLoop(AtRecheck(ready, t), t.beforeDrain);
  }

  lemma TurnFails(w: World, l: Loop, t: Turn, watch: bool)
    requires LoopInv(l) && LoopSorts(l) && Possible(l, t, watch) && NoneFailed(w, l.x)
    ensures var r := Turned(w, l, t, watch);
            && (r.Done? && r.exit.Failed? <==> !NoneFailed(w, r.l.x) || Breaks(l, t, watch))
            && (r.Continue? ==> NoneFailed(w, r.l.x))
  {
    var r, d := Turned(w, l, t, watch), AtDrain(l, t, watch);
    EarlyExits(w, l, t, watch);
    if EndsWithDrain(w, l, t, watch) {
      AtDrainAdds(l, t, watch);
      NoneFailedLater(w, l.x, d.x);
      AtDrainSorts(l, t, watch);
      DrainJobsFails(w, d.x, d.group);
    } else {
      NoneFailedLater(w, l.x, r.l.x);
    }
  }

  /** The run comes to such a turn. */
  predicate BreaksIn(w: World, l: Loop, turns: seq<Turn>, watch: bool)
    decreases |turns|
  {
    turns != [] &&
      (Breaks(l, turns[0], watch) ||
       (Turned(w, l, turns[0], watch).Continue? && BreaksIn(w, Turned(w, l, turns[0], watch).l, turns[1..], watch)))
  }

  lemma {:induction false} RunFails(w: World, l: Loop, turns: seq<Turn>, watch: bool)
    requires LoopInv(l) && LoopSorts(l) && AllPossible(w, l, turns, watch) && NoneFailed(w, l.x)
    ensures var r := Run(w, l, turns, watch);
            r.Done? && r.exit.Failed? <==> !NoneFailed(w, r.l.x) || BreaksIn(w, l, turns, watch)
    decreases |turns|
  {
    if turns != [] {
      TurnFails(w, l, turns[0], watch);
      TurnSorts(w, l, turns[0], watch);
      TurnKeeps(w, l, turns[0], watch);
      var r := Turned(w, l, turns[0], watch);
      if r.Continue? { RunFails(w, r.l, turns[1..], watch); }
    }
  }

  /**
   A run fails exactly if some job it called failed, or was one the queue could not serve, or a future
   in flight broke; otherwise no job called has failed.
   */
  lemma FailsExactly(w: World, now: nat, deadline: Option<nat>, acts: seq<Act>, turns: seq<Turn>, watch: bool)
    requires AllPossible(w, Entered(now, deadline, acts), turns, watch)
    ensures var l := Entered(now, deadline, acts);
            var r := Run(w, l, turns, watch);
            r.Done? && r.exit.Failed? <==> !NoneFailed(w, r.l.x) || BreaksIn(w, l, turns, watch)
  {
    EnteredInv(now, deadline, acts);
    EnteredSorts(now, deadline, acts);
    ApplyAllAdds(Idle(now, deadline), acts);
    RunFails(w, Entered(now, deadline, acts), turns, watch);
  }
}
