/** Whole runs of the event loop: what holds in every reachable state and at every exit. */
module LoopRuns {
  import opened Wrappers
  import opened EventLoop
  import opened LoopSafety

  // ----- what actions leave alone ----------------------------------------------------------

  /** Actions never touch the history or the deadline, and time and settlement only go forward. */
  predicate Follows(x: Exec, y: Exec) {
    && y.h == x.h
    && y.q.deadline == x.q.deadline
    && y.c.now >= x.c.now
    && y.c.nextId >= x.c.nextId
    && (x.c.settled ==> y.c.settled)
  }

  lemma {:induction false} ApplyAllFollows(x: Exec, acts: seq<Act>)
    ensures Follows(x, ApplyAll(x, acts))
    decreases |acts|
  {
    if acts != [] {
      assert Follows(x, Apply(x, acts[0]));
      ApplyAllFollows(Apply(x, acts[0]), acts[1..]);
    }
  }

  /** As `Follows`, but jobs may have been called. */
  predicate Advances(x: Exec, y: Exec) {
    && y.q.deadline == x.q.deadline
    && y.c.now >= x.c.now
    && y.c.nextId >= x.c.nextId
    && (x.c.settled ==> y.c.settled)
    && Grows(x.h, y.h)
  }

  predicate Grows(h: History, k: History) {
    && h.fired <= k.fired && h.promises <= k.promises && h.generics <= k.generics
    && h.removed <= k.removed && h.finished <= k.finished && h.dropped <= k.dropped
  }

  lemma {:induction false} RunTimersAdvances(w: World, x: Exec, batch: seq<Timer>)
    ensures Advances(x, RunTimers(w, x, batch).0)
    ensures RunTimers(w, x, batch).1 ==>
              RunTimers(w, x, batch).0.h.dropped == x.h.dropped && RunTimers(w, x, batch).0.h.fired == x.h.fired + batch
    decreases |batch|
  {
    if batch == [] {
      assert x.h.fired + [] == x.h.fired;
    } else {
      var called := TimerCalled(x, batch[0]);
      var y := ApplyAll(called, w(batch[0].id).acts);
      ApplyAllFollows(called, w(batch[0].id).acts);
      if !w(batch[0].id).failed {
        RunTimersAdvances(w, y, batch[1..]);
        assert x.h.fired + [batch[0]] + batch[1..] == x.h.fired + batch;
      }
    }
  }

  lemma {:induction false} RunPromisesAdvances(w: World, x: Exec, batch: seq<nat>)
    ensures Advances(x, RunPromises(w, x, batch).0)
    ensures RunPromises(w, x, batch).1 ==>
              RunPromises(w, x, batch).0.h.dropped == x.h.dropped && RunPromises(w, x, batch).0.h.promises == x.h.promises + batch
    decreases |batch|
  {
    if batch == [] {
      assert x.h.promises + [] == x.h.promises;
    } else {
      var called := x.(h := x.h.(promises := x.h.promises + [batch[0]]));
      var y := ApplyAll(called, w(batch[0]).acts);
      ApplyAllFollows(called, w(batch[0]).acts);
      if !w(batch[0]).failed {
        RunPromisesAdvances(w, y, batch[1..]);
        assert x.h.promises + [batch[0]] + batch[1..] == x.h.promises + batch;
      }
    }
  }

  /** A drain drops nothing unless it fails. */
  lemma DrainJobsAdvances(w: World, x: Exec)
    ensures Advances(x, DrainJobs(w, x).0)
    ensures DrainJobs(w, x).1 ==> DrainJobs(w, x).0.h.dropped == x.h.dropped
  {
    var (a, okA) := DrainTimers(w, x);
    RunTimersAdvances(w, TimersTaken(x), Due(Retain(x.q.timeoutJobs, x.c.cancelled), x.c.now));
    if okA {
      var (b, okB) := DrainGeneric(w, a);
      if a.q.genericJobs != [] {
        var task := a.q.genericJobs[0];
        ApplyAllFollows(a.(q := a.q.(genericJobs := a.q.genericJobs[1..]), h := a.h.(generics := a.h.generics + [task.id])),
                        w(task.id).acts);
      }
      assert Advances(a, b);
      if okB { RunPromisesAdvances(w, b.(q := b.q.(promiseJobs := [])), b.q.promiseJobs); }
    }
  }

  // ----- one turn --------------------------------------------------------------------------

  ghost predicate LoopInv(l: Loop) {
    && Inv(l.x, [], [], l.group)
    && l.inFlight == |l.group|
    && l.replies == (if l.stopped then 1 else 0)
  }

  lemma LaterLoop(l: Loop, span: nat)
    requires LoopInv(l)
    ensures LoopInv(l.(x := Later(l.x, span)))
  {
    LaterKeeps(l.x, span, [], [], l.group);
  }

  lemma CheckKeeps(l: Loop, t: Turn, watch: bool)
    requires LoopInv(l)
    ensures LoopInv(AtCheck(l, t, watch))
    ensures watch && AtCheck(l, t, watch).x.c.settled ==> AtCheck(l, t, watch).stopped
  {
    ApplyAllKeeps(l.x, t.stopActs, [], [], l.group);
    ApplyAllFollows(l.x, t.stopActs);
    LaterLoop(Stopping(l, t, watch), t.beforeCheck);
  }

  lemma StartedKeeps(l: Loop)
    requires LoopInv(l)
    ensures LoopInv(Started(l))
  {
    var y := l.x.(q := l.x.q.(asyncJobs := []));
    var pending := multiset(TimerIds([])) + multiset([]) + multiset(l.group);
    assert Held(l.x.q) == Held(y.q) + multiset(l.x.q.asyncJobs);
    Taken(l.x, y, pending, multiset(l.x.q.asyncJobs));
    assert pending + multiset(l.x.q.asyncJobs) == multiset(TimerIds([])) + multiset([]) + multiset(l.group + l.x.q.asyncJobs);
  }

  lemma {:induction false} WithoutOne(group: seq<nat>, id: nat)
    requires id in group
    ensures multiset(group) == multiset(Without(group, id)) + multiset{id} && |group| == |Without(group, id)| + 1
  {
    assert group == [group[0]] + group[1..];
    if group[0] != id { WithoutOne(group[1..], id); }
  }

  lemma EndedKeepsIds(x: Exec, group: seq<nat>, id: nat)
    requires id in group && Conserved(x, multiset(TimerIds([])) + multiset([]) + multiset(group))
    ensures Conserved(x.(h := x.h.(finished := x.h.finished + [id])),
                      multiset(TimerIds([])) + multiset([]) + multiset(Without(group, id)))
  {
    WithoutOne(group, id);
    var pending := multiset(TimerIds([])) + multiset([]) + multiset(Without(group, id));
    assert multiset(TimerIds([])) + multiset([]) + multiset(group) == pending + multiset{id};
    var y := x.(h := x.h.(finished := x.h.finished + [id]));
    assert Gone(y.h) == Gone(x.h) + multiset{id};
    Settled(x, y, pending, multiset{id});
  }

  lemma EndedKeeps(l: Loop, id: nat, well: bool)
    requires LoopInv(l) && id in l.group
    ensures Inv(Ended(l, id, well).x, [], [], Ended(l, id, well).group)
    ensures well ==> LoopInv(Ended(l, id, well))
  {
    WithoutOne(l.group, id);
    EndedKeepsIds(l.x, l.group, id);
    EndedKeepsOrder(l.x, id);
  }

  lemma EndedKeepsOrder(x: Exec, id: nat)
    requires TimerInv(x, []) && FifoInv(x, [])
    ensures TimerInv(x.(h := x.h.(finished := x.h.finished + [id])), [])
    ensures FifoInv(x.(h := x.h.(finished := x.h.finished + [id])), [])
  {
  }

  lemma WakeIsLater(x: Exec, instant: nat, late: nat) returns (span: nat)
    ensures WakeAt(x, instant, late) == Later(x, span)
  {
    span := (if x.c.now < instant then instant - x.c.now else 0) + late;
  }

  lemma PollingKeeps(l: Loop, t: Turn)
    requires LoopInv(l)
    ensures LoopInv(l.(x := ApplyAll(l.x, t.polled)))
  {
    ApplyAllKeeps(l.x, t.polled, [], [], l.group);
  }

  lemma WakeKeeps(l: Loop, instant: nat, late: nat)
    requires LoopInv(l)
    ensures LoopInv(l.(x := WakeAt(l.x, instant, late)))
  {
    var span := WakeIsLater(l.x, instant, late);
    LaterLoop(l, span);
  }

  /** What a wait keeps, unless a future broke. */
  ghost predicate WaitOk(l: Loop, r: Loop, broken: bool) {
    && Inv(r.x, [], [], r.group) && (!broken ==> LoopInv(r))
    && r.replies == l.replies && r.stopped == l.stopped
  }

  lemma EndedOk(l: Loop, l1: Loop, id: nat, well: bool)
    requires LoopInv(l1) && id in l1.group && l1.replies == l.replies && l1.stopped == l.stopped
    ensures WaitOk(l, Ended(l1, id, well), !well)
  {
    EndedKeeps(l1, id, well);
  }

  lemma WokenOk(l: Loop, l1: Loop, instant: nat, late: nat)
    requires LoopInv(l1) && l1.replies == l.replies && l1.stopped == l.stopped
    ensures WaitOk(l, l1.(x := WakeAt(l1.x, instant, late)), false)
  {
    WakeKeeps(l1, instant, late);
  }

  lemma PollEndsOk(l: Loop, l1: Loop, t: Turn, limit: Option<nat>, began: nat)
    requires LoopInv(l1) && l1.replies == l.replies && l1.stopped == l.stopped
    requires t.awaited.Finished? || t.awaited.Broken? ==> t.awaited.id in l1.group
    ensures WaitOk(l, PollEnds(l1, t, limit, began), t.awaited.Broken?)
  {
    match t.awaited
    case Nothing => if limit.Some? { WokenOk(l, l1, began + limit.value * MS, t.late); }
    case Finished(id) => EndedOk(l, l1, id, true);
    case Broken(id) => EndedOk(l, l1, id, false);
  }

  lemma PolledKeeps(l: Loop, t: Turn, limit: Option<nat>)
    requires LoopInv(l) && (t.awaited.Finished? || t.awaited.Broken? ==> t.awaited.id in l.group)
    ensures WaitOk(l, Polled(l, t, limit), t.awaited.Broken?)
  {
    PollingKeeps(l, t);
    PollEndsOk(l, l.(x := ApplyAll(l.x, t.polled)), t, limit, l.x.c.now);
  }

  lemma WaitedKeeps(l: Loop, t: Turn)
    requires LoopInv(l)
    requires Polls(l) && (t.awaited.Finished? || t.awaited.Broken?) ==> t.awaited.id in l.group
    ensures WaitOk(l, Waited(l, t), Polls(l) && t.awaited.Broken?)
  {
    match WaitFor(l.x.q, l.x.c.now, l.group)
    case NoWait =>
    case Sleep(millis) => WokenOk(l, l, l.x.c.now + millis * MS, t.late);
    case Poll(limit) => PolledKeeps(l, t, limit);
  }

  /** What an exit guarantees. */
  ghost predicate ExitOk(l: Loop, exit: Exit, watch: bool) {
    && Inv(l.x, [], [], l.group)
    && l.replies == (if l.stopped then 1 else 0)
    && match exit
       case Complete =>
         LoopInv(l) && l.group == [] && Held(l.x.q) == multiset{} && (watch && l.x.c.settled ==> l.stopped)
       case DeadlineExceeded(snapshot, rechecked) =>
         LoopInv(l) && Expired(l.x) && snapshot == SnapshotOf(l) && (watch && !rechecked && l.x.c.settled ==> l.stopped)
       case Failed => true
  }

  lemma QuietHoldsNothing(l: Loop)
    requires Quiet(Started(l))
    ensures Held(Started(l).x.q) == multiset{}
  {
    assert TaskIds([]) == [];
  }

  lemma DrainedKeeps(w: World, l: Loop, t: Turn)
    requires LoopInv(l)
    ensures Drained(w, l, t).Continue? ==> LoopInv(Drained(w, l, t).l)
    ensures Drained(w, l, t).Done? ==> ExitOk(Drained(w, l, t).l, Drained(w, l, t).exit, true)
  {
    var x := Later(l.x, t.beforeDrain);
    LaterKeeps(l.x, t.beforeDrain, [], [], l.group);
    DrainJobsKeeps(w, x, l.group);
    DrainJobsAdvances(w, x);
  }

  lemma WaitAndDrainKeeps(w: World, ready: Loop, t: Turn, watch: bool)
    requires LoopInv(ready)
    requires Polls(ready) && (t.awaited.Finished? || t.awaited.Broken?) ==> t.awaited.id in ready.group
    ensures var r := WaitAndDrain(w, ready, t);
            if r.Continue? then LoopInv(r.l) else ExitOk(r.l, r.exit, watch)
  {
    WaitedKeeps(ready, t);
    if !(Polls(ready) && t.awaited.Broken?) {
      LaterLoop(Waited(ready, t), t.beforeRecheck);
      var rechecked := AtRecheck(ready, t);
      if !Expired(rechecked.x) { DrainedKeeps(w, rechecked, t); }
    }
  }

  /** Every turn keeps the invariant, and every exit keeps its promises. */
  lemma TurnKeeps(w: World, l: Loop, t: Turn, watch: bool)
    requires LoopInv(l) && Possible(l, t, watch)
    ensures var r := Turned(w, l, t, watch);
            if r.Continue? then LoopInv(r.l) else ExitOk(r.l, r.exit, watch)
  {
    var checked := AtCheck(l, t, watch);
    CheckKeeps(l, t, watch);
    if !Expired(checked.x) {
      StartedKeeps(checked);
      if Quiet(Started(checked)) {
        QuietHoldsNothing(checked);
      } else {
        LaterLoop(Started(checked), t.beforeWait);
        WaitAndDrainKeeps(w, AtWait(checked, t), t, watch);
      }
    }
  }

  lemma {:induction false} RunKeeps(w: World, l: Loop, turns: seq<Turn>, watch: bool)
    requires LoopInv(l) && AllPossible(w, l, turns, watch)
    ensures var r := Run(w, l, turns, watch);
            if r.Continue? then LoopInv(r.l) else ExitOk(r.l, r.exit, watch)
    decreases |turns|
  {
    if turns != [] {
      TurnKeeps(w, l, turns[0], watch);
      var r := Turned(w, l, turns[0], watch);
      if r.Continue? { RunKeeps(w, r.l, turns[1..], watch); }
    }
  }

  lemma AdvancesOn(x: Exec, y: Exec, z: Exec)
    requires Advances(x, y) && Advances(y, z)
    ensures Advances(x, z)
  {
  }

  lemma PollEndsAdvances(x: Exec, l: Loop, t: Turn, limit: Option<nat>, began: nat)
    requires Advances(x, l.x) && l.x.h.dropped == x.h.dropped
    ensures Advances(x, PollEnds(l, t, limit, began).x) && PollEnds(l, t, limit, began).x.h.dropped == x.h.dropped
  {
  }

  lemma PolledAdvances(l: Loop, t: Turn, limit: Option<nat>)
    ensures Advances(l.x, Polled(l, t, limit).x) && Polled(l, t, limit).x.h.dropped == l.x.h.dropped
  {
    ApplyAllFollows(l.x, t.polled);
    PollEndsAdvances(l.x, l.(x := ApplyAll(l.x, t.polled)), t, limit, l.x.c.now);
  }

  lemma WaitedAdvances(l: Loop, t: Turn)
    ensures Advances(l.x, Waited(l, t).x) && Waited(l, t).x.h.dropped == l.x.h.dropped
  {
    match WaitFor(l.x.q, l.x.c.now, l.group)
    case NoWait =>
    case Sleep(millis) =>
    case Poll(limit) => PolledAdvances(l, t, limit);
  }

  lemma WaitAndDrainAdvances(w: World, ready: Loop, t: Turn)
    ensures var r := WaitAndDrain(w, ready, t);
            Advances(ready.x, r.l.x) && (!(r.Done? && r.exit.Failed?) ==> r.l.x.h.dropped == ready.x.h.dropped)
  {
    var x := Later(AtRecheck(ready, t).x, t.beforeDrain);
    WaitedAdvances(ready, t);
    assert Advances(ready.x, x);
    DrainJobsAdvances(w, x);
    AdvancesOn(ready.x, x, DrainJobs(w, x).0);
  }

  /** History only grows, and a turn drops jobs only when it fails. */
  lemma TurnAdvances(w: World, l: Loop, t: Turn, watch: bool)
    ensures var r := Turned(w, l, t, watch);
            Advances(l.x, r.l.x) && (!(r.Done? && r.exit.Failed?) ==> r.l.x.h.dropped == l.x.h.dropped)
  {
    ApplyAllFollows(l.x, t.stopActs);
    var ready := AtWait(AtCheck(l, t, watch), t);
    assert Advances(l.x, ready.x);
    WaitAndDrainAdvances(w, ready, t);
    AdvancesOn(l.x, ready.x, WaitAndDrain(w, ready, t).l.x);
  }

  lemma {:induction false} RunAdvances(w: World, l: Loop, turns: seq<Turn>, watch: bool)
    ensures var r := Run(w, l, turns, watch);
            Advances(l.x, r.l.x) && (!(r.Done? && r.exit.Failed?) ==> r.l.x.h.dropped == l.x.h.dropped)
    decreases |turns|
  {
    if turns != [] {
      TurnAdvances(w, l, turns[0], watch);
      var r := Turned(w, l, turns[0], watch);
      if r.Continue? { RunAdvances(w, r.l, turns[1..], watch); }
    }
  }

  // ----- whole runs ------------------------------------------------------------------------

  /** An idle queue with nothing enqueued yet. */
  function Idle(now: nat, deadline: Option<nat>): Exec {
    Exec(Queues([], [], [], [], deadline), Context(now, false, {}, 0, []), History([], [], [], [], [], [], []))
  }

  lemma IdleInv(now: nat, deadline: Option<nat>)
    ensures Inv(Idle(now, deadline), [], [], [])
  {
    assert TaskIds([]) == [] && TimerIds([]) == [];
  }

  /** The loop entered after the given actions, such as evaluating a module and calling its main function. */
  function Entered(now: nat, deadline: Option<nat>, acts: seq<Act>): Loop {
    Loop(ApplyAll(Idle(now, deadline), acts), [], 0, false, 0)
  }

  lemma EnteredInv(now: nat, deadline: Option<nat>, acts: seq<Act>)
    ensures LoopInv(Entered(now, deadline, acts))
  {
    IdleInv(now, deadline);
    ApplyAllKeeps(Idle(now, deadline), acts, [], [], []);
    ApplyAllFollows(Idle(now, deadline), acts);
  }

  lemma {:induction false} NumbersOnce(n: nat, id: nat)
    ensures Numbers(n)[id] == if id < n then 1 else 0
  {
    if n > 0 { NumbersOnce(n - 1, id); }
  }

  lemma RunReaches(w: World, now: nat, deadline: Option<nat>, acts: seq<Act>, turns: seq<Turn>, watch: bool) returns (r: Step)
    requires AllPossible(w, Entered(now, deadline, acts), turns, watch)
    ensures r == Run(w, Entered(now, deadline, acts), turns, watch)
    ensures Inv(r.l.x, [], [], r.l.group) && r.l.replies == (if r.l.stopped then 1 else 0)
    ensures r.Done? ==> ExitOk(r.l, r.exit, watch)
    ensures r.Continue? ==> LoopInv(r.l)
  {
    EnteredInv(now, deadline, acts);
    RunKeeps(w, Entered(now, deadline, acts), turns, watch);
    r := Run(w, Entered(now, deadline, acts), turns, watch);
  }

  /**
   Over a whole run the timers are called in order of instant and then of enqueueing, none before
   its instant; those still queued come after all of them.
   */
  lemma TimersFireInOrder(w: World, now: nat, deadline: Option<nat>, acts: seq<Act>, turns: seq<Turn>, watch: bool)
    requires AllPossible(w, Entered(now, deadline, acts), turns, watch)
    ensures var x := Run(w, Entered(now, deadline, acts), turns, watch).l.x;
            Sorted(x.h.fired + Flat(x.q.timeoutJobs)) && Punctual(x.h)
  {
    var r := RunReaches(w, now, deadline, acts, turns, watch);
    assert r.l.x.h.fired + [] == r.l.x.h.fired;
  }

  /** Promise jobs are called in the order they were enqueued, and so are generic jobs. */
  lemma QueuesAreFifo(w: World, now: nat, deadline: Option<nat>, acts: seq<Act>, turns: seq<Turn>, watch: bool)
    requires AllPossible(w, Entered(now, deadline, acts), turns, watch)
    ensures var x := Run(w, Entered(now, deadline, acts), turns, watch).l.x;
            && Rising(x.h.promises + x.q.promiseJobs, x.c.nextId)
            && Rising(x.h.generics + TaskIds(x.q.genericJobs), x.c.nextId)
  {
    var r := RunReaches(w, now, deadline, acts, turns, watch);
    assert r.l.x.h.promises + [] == r.l.x.h.promises;
  }

  /** In every reachable state each job handed out so far is in exactly one place. */
  lemma EveryJobOnce(w: World, now: nat, deadline: Option<nat>, acts: seq<Act>, turns: seq<Turn>, watch: bool, id: nat)
    requires AllPossible(w, Entered(now, deadline, acts), turns, watch)
    ensures var l := Run(w, Entered(now, deadline, acts), turns, watch).l;
            (Held(l.x.q) + Gone(l.x.h) + multiset(l.group))[id] == if id < l.x.c.nextId then 1 else 0
  {
    var r := RunReaches(w, now, deadline, acts, turns, watch);
    assert multiset(TimerIds([])) + multiset([]) + multiset(r.l.group) == multiset(r.l.group);
    NumbersOnce(r.l.x.c.nextId, id);
  }

  /**
   The loop completes only with nothing outstanding: every job enqueued was called, ended or removed
   as cancelled, none was dropped, and a settled main promise has been replied to exactly once.
   */
  lemma CompleteMeansDone(w: World, now: nat, deadline: Option<nat>, acts: seq<Act>, turns: seq<Turn>, watch: bool)
    requires AllPossible(w, Entered(now, deadline, acts), turns, watch)
    requires var r := Run(w, Entered(now, deadline, acts), turns, watch); r.Done? && r.exit.Complete?
    ensures var l := Run(w, Entered(now, deadline, acts), turns, watch).l;
            && Gone(l.x.h) == Numbers(l.x.c.nextId) && l.x.h.dropped == []
            && l.inFlight == 0 && (watch && l.x.c.settled ==> l.replies == 1)
  {
    var r := RunReaches(w, now, deadline, acts, turns, watch);
    assert multiset(TimerIds([])) + multiset([]) + multiset(r.l.group) == multiset{};
    RunAdvances(w, Entered(now, deadline, acts), turns, watch);
    ApplyAllFollows(Idle(now, deadline), acts);
  }

  /**
   A watching loop replies at most once, and neither completes nor stops at the first deadline check of
   a turn with the main promise settled but unanswered.
   */
  lemma SettledIsAnswered(w: World, now: nat, deadline: Option<nat>, acts: seq<Act>, turns: seq<Turn>)
    requires AllPossible(w, Entered(now, deadline, acts), turns, true)
    ensures var r := Run(w, Entered(now, deadline, acts), turns, true);
            && r.l.replies <= 1 && r.l.stopped == (r.l.replies == 1)
            && (r.Done? && (r.exit.Complete? || (r.exit.DeadlineExceeded? && !r.exit.rechecked)) && r.l.x.c.settled
                ==> r.l.replies == 1)
  {
    var r := RunReaches(w, now, deadline, acts, turns, true);
  }
}
