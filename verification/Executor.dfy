/** The queue object and its loop, each method proved to compute the step it is specified by. */
module Executor {
  import opened Wrappers
  import opened EventLoop
  import opened LoopSafety
  import Text

  class Queue {
    var asyncJobs: seq<nat>
    var promiseJobs: seq<nat>
    var timeoutJobs: seq<Bucket>
    var genericJobs: seq<Task>
    var deadline: Option<nat>
    var context: Context
    ghost var history: History

    constructor (context: Context)
      ensures Here() == Exec(Queues([], [], [], [], None), context, History([], [], [], [], [], [], []))
    {
      asyncJobs, promiseJobs, timeoutJobs, genericJobs, deadline := [], [], [], [], None;
      this.context := context;
      history := History([], [], [], [], [], [], []);
    }

    ghost function Here(): Exec
      reads this
    {
      Exec(Queues(asyncJobs, promiseJobs, timeoutJobs, genericJobs, deadline), context, history)
    }

    method SetDeadline(deadline: Option<nat>)
      modifies this
      ensures Here() == old(Here()).(q := old(Here()).q.(deadline := deadline))
    {
      this.deadline := deadline;
    }

    /** Clearing every queue; `group` lists the futures dropped with them. */
    method ClearAll(ghost group: seq<nat>)
      modifies this
      ensures Here() == Cleared(old(Here()), group).(q := Queues([], [], [], [], old(deadline)))
    {
      history := Cleared(Here(), group).h;
      asyncJobs := [];
      promiseJobs := [];
      timeoutJobs := [];
      genericJobs := [];
    }

    /** A new main promise, not settled yet. */
    method NewMain()
      modifies `context
      ensures Here() == old(Here()).(c := old(context).(settled := false))
    {
      context := context.(settled := false);
    }

    method EnqueueJob(kind: Kind)
      modifies this
      ensures Here() == Enqueued(old(Here()), kind)
    {
      var id := context.nextId;
      match kind {
        case Promise => promiseJobs := promiseJobs + [id];
        case Async => asyncJobs := asyncJobs + [id];
        case Timeout(delay) =>
          var at := CheckedAdd(context.now, delay);
          if at.None? {
            genericJobs := genericJobs + [Task(id, true)];
          } else {
            timeoutJobs := Insert(timeoutJobs, at.value, id);
          }
        case Generic => genericJobs := genericJobs + [Task(id, false)];
        case Other => genericJobs := genericJobs + [Task(id, true)];
      }
      context := context.(nextId := id + 1, asked := context.asked + [Asked(kind, context.now)]);
    }

    /** What a called job does to the queue and the engine. */
    method Perform(acts: seq<Act>)
      modifies this
      ensures Here() == ApplyAll(old(Here()), acts)
    {
      assert acts[0..] == acts;
      for k := 0 to |acts|
        invariant ApplyAll(Here(), acts[k..]) == ApplyAll(old(Here()), acts)
      {
        assert acts[k..][1..] == acts[k + 1..];
        match acts[k] {
          case Enqueue(kind) => EnqueueJob(kind);
          case Cancel(id) => context := context.(cancelled := context.cancelled + {id});
          case Pass(span) => context := context.(now := context.now + span);
          case Settle => context := context.(settled := true);
        }
      }
    }

    method Tick(span: nat)
      modifies `context
      ensures Here() == Later(old(Here()), span)
    {
      context := context.(now := context.now + span);
    }

    // ----- draining ------------------------------------------------------------------------

    method RetainJobs(jobs: seq<nat>) returns (kept: seq<nat>)
      ensures kept == Keep(jobs, context.cancelled)
    {
      kept := [];
      assert jobs[0..] == jobs;
      for k := 0 to |jobs|
        invariant Keep(jobs, context.cancelled) == kept + Keep(jobs[k..], context.cancelled)
      {
        assert jobs[k..][1..] == jobs[k + 1..];
        if jobs[k] !in context.cancelled {
          Text.Assoc(kept, [jobs[k]], Keep(jobs[k + 1..], context.cancelled));
          kept := kept + [jobs[k]];
        }
      }
    }

    method RetainTimers() returns (kept: seq<Bucket>)
      ensures kept == Retain(timeoutJobs, context.cancelled)
    {
      kept := [];
      assert timeoutJobs[0..] == timeoutJobs;
      for k := 0 to |timeoutJobs|
        invariant Retain(timeoutJobs, context.cancelled) == kept + Retain(timeoutJobs[k..], context.cancelled)
      {
        assert timeoutJobs[k..][1..] == timeoutJobs[k + 1..];
        var jobs := RetainJobs(timeoutJobs[k].jobs);
        if jobs != [] {
          Text.Assoc(kept, [Bucket(timeoutJobs[k].at, jobs)], Retain(timeoutJobs[k + 1..], context.cancelled));
          kept := kept + [Bucket(timeoutJobs[k].at, jobs)];
        }
      }
    }

    /** Taking the cancelled timers and then the due ones out of the map. */
    method TakeDue() returns (due: seq<Timer>)
      modifies this
      ensures Here() == TimersTaken(old(Here()))
      ensures due == Due(Retain(old(timeoutJobs), old(context).cancelled), old(context).now)
    {
      var kept := RetainTimers();
      history := history.(removed := history.removed + Removed(timeoutJobs, context.cancelled));
      timeoutJobs := kept;
      due := [];
      while timeoutJobs != [] && timeoutJobs[0].at <= context.now
        invariant Due(kept, context.now) == due + Due(timeoutJobs, context.now)
        invariant NotDue(kept, context.now) == NotDue(timeoutJobs, context.now)
        invariant Here() == TimersTaken(old(Here())).(q := old(Here()).q.(timeoutJobs := timeoutJobs))
        decreases |timeoutJobs|
      {
        var bucket := timeoutJobs[0];
        Text.Assoc(due, Timers(bucket.at, bucket.jobs), Due(timeoutJobs[1..], context.now));
        due := due + Timers(bucket.at, bucket.jobs);
        timeoutJobs := timeoutJobs[1..];
      }
    }

    method DrainTimeoutJobs(w: World) returns (ok: bool)
      modifies this
      ensures (Here(), ok) == DrainTimers(w, old(Here()))
    {
      var due := TakeDue();
      ghost var taken := Here();
      assert due[0..] == due;
      for k := 0 to |due|
        invariant RunTimers(w, Here(), due[k..]) == RunTimers(w, taken, due)
      {
        assert due[k..][1..] == due[k + 1..];
        history := history.(fired := history.fired + [due[k]], firedAt := history.firedAt + [context.now]);
        Perform(w(due[k].id).acts);
        if w(due[k].id).failed {
          history := history.(dropped := history.dropped + TimerIds(due[k + 1..]));
          return false;
        }
      }
      return true;
    }

    method DrainOneGeneric(w: World) returns (ok: bool)
      modifies this
      ensures (Here(), ok) == DrainGeneric(w, old(Here()))
    {
      if genericJobs == [] { return true; }
      var task := genericJobs[0];
      genericJobs := genericJobs[1..];
      history := history.(generics := history.generics + [task.id]);
      if task.fails { return false; }
      Perform(w(task.id).acts);
      return !w(task.id).failed;
    }

    method DrainPromiseJobs(w: World) returns (ok: bool)
      modifies this
      ensures (Here(), ok) == DrainPromises(w, old(Here()))
    {
      var jobs := promiseJobs;
      promiseJobs := [];
      ghost var taken := Here();
      assert jobs[0..] == jobs;
      for k := 0 to |jobs|
        invariant RunPromises(w, Here(), jobs[k..]) == RunPromises(w, taken, jobs)
      {
        assert jobs[k..][1..] == jobs[k + 1..];
        history := history.(promises := history.promises + [jobs[k]]);
        Perform(w(jobs[k]).acts);
        if w(jobs[k]).failed {
          history := history.(dropped := history.dropped + jobs[k + 1..]);
          return false;
        }
      }
      return true;
    }

    method DrainAll(w: World) returns (ok: bool)
      modifies this
      ensures (Here(), ok) == DrainJobs(w, old(Here()))
    {
      ok := DrainTimeoutJobs(w);
      if !ok { return; }
      ok := DrainOneGeneric(w);
      if !ok { return; }
      ok := DrainPromiseJobs(w);
    }

    // ----- the loop ------------------------------------------------------------------------

    predicate DeadlinePassed()
      reads this
      ensures DeadlinePassed() <==> Expired(Here())
    {
      deadline.Some? && context.now >= deadline.value
    }

    method TakeSnapshot(inFlight: nat, ghost l: Loop) returns (s: Snapshot)
      requires l.x == Here() && l.inFlight == inFlight
      ensures s == SnapshotOf(l)
    {
      s := Snapshot(inFlight, |promiseJobs|, TimerCount(timeoutJobs), |genericJobs|);
    }

    /** Starting the queued async jobs. */
    method StartAsync(group: seq<nat>, inFlight: nat) returns (group': seq<nat>, inFlight': nat)
      modifies `asyncJobs
      ensures Here() == old(Here()).(q := old(Here()).q.(asyncJobs := []))
      ensures group' == group + old(asyncJobs) && inFlight' == inFlight + |old(asyncJobs)|
    {
      var jobs := asyncJobs;
      asyncJobs := [];
      group', inFlight' := group, inFlight;
      for k := 0 to |jobs|
        invariant group' == group + jobs[..k] && inFlight' == inFlight + k && asyncJobs == []
      {
        assert jobs[..k + 1] == jobs[..k] + [jobs[k]];
        Text.Assoc(group, jobs[..k], [jobs[k]]);
        group' := group' + [jobs[k]];
        inFlight' := inFlight' + 1;
      }
      assert jobs[..|jobs|] == jobs;
    }

    /** Sleeping or polling; `broken` tells that a polled future failed. */
    method Wait(t: Turn, group: seq<nat>, inFlight: nat, ghost l: Loop) returns (group': seq<nat>, inFlight': nat, broken: bool)
      requires l.x == Here() && l.group == group && l.inFlight == inFlight
      modifies this
      ensures Waited(l, t) == l.(x := Here(), group := group', inFlight := inFlight')
      ensures broken <==> Polls(l) && t.awaited.Broken?
    {
      group', inFlight', broken := group, inFlight, false;
      var waiting := WaitFor(Queues(asyncJobs, promiseJobs, timeoutJobs, genericJobs, deadline), context.now, group);
      match waiting {
        case NoWait =>
        case Sleep(millis) => Wake(context.now + millis * MS, t.late);
        case Poll(limit) =>
          var began := context.now;
          Perform(t.polled);
          match t.awaited {
            case Nothing =>
              if limit.Some? { Wake(began + limit.value * MS, t.late); }
            case Finished(id) =>
              group' := Without(group, id);
              inFlight' := if inFlight > 0 then inFlight - 1 else inFlight;
              history := history.(finished := history.finished + [id]);
            case Broken(id) =>
              group', broken := Without(group, id), true;
              history := history.(finished := history.finished + [id]);
          }
      }
    }

    method Wake(instant: nat, late: nat)
      modifies `context
      ensures Here() == WakeAt(old(Here()), instant, late)
    {
      context := context.(now := (if context.now < instant then instant else context.now) + late);
    }

    /** The loop for as many turns as the outside gives it; no exit means it is still running. */
    method RunJobs(w: World, turns: seq<Turn>, watch: bool) returns (exit: Option<Exit>, replies: nat, ghost l: Loop)
      modifies this
      ensures var r := Run(w, Loop(old(Here()), [], 0, false, 0), turns, watch);
              && l == r.l && Here() == l.x && replies == l.replies
              && exit == (if r.Done? then Some(r.exit) else None)
    {
      var group, inFlight, stopped := [], 0, false;
      replies := 0;
      assert turns[0..] == turns;
      for k := 0 to |turns|
        invariant Run(w, Loop(old(Here()), [], 0, false, 0), turns, watch)
               == Run(w, Loop(Here(), group, inFlight, stopped, replies), turns[k..], watch)
      {
        assert turns[k..][1..] == turns[k + 1..];
        group, inFlight, stopped, replies, exit := OneTurn(w, turns[k], watch, group, inFlight, stopped, replies);
        if exit.Some? {
          l := Loop(Here(), group, inFlight, stopped, replies);
          return;
        }
      }
      exit := None;
      l := Loop(Here(), group, inFlight, stopped, replies);
    }

    /** The body of the loop. */
    method OneTurn(w: World, t: Turn, watch: bool, group: seq<nat>, inFlight: nat, stopped: bool, replies: nat)
      returns (group': seq<nat>, inFlight': nat, stopped': bool, replies': nat, exit: Option<Exit>)
      modifies this
      ensures var r := Turned(w, Loop(old(Here()), group, inFlight, stopped, replies), t, watch);
              Loop(Here(), group', inFlight', stopped', replies') == r.l && exit == (if r.Done? then Some(r.exit) else None)
    {
      group', inFlight', stopped', replies' := group, inFlight, stopped, replies;
      if !stopped && watch && context.settled {
        Perform(t.stopActs);
        stopped', replies' := true, replies + 1;
      }
      Tick(t.beforeCheck);
      ghost var checked := AtCheck(Loop(old(Here()), group, inFlight, stopped, replies), t, watch);
      assert Loop(Here(), group', inFlight', stopped', replies') == checked;
      if DeadlinePassed() {
        var s := TakeSnapshot(inFlight', checked);
        exit := Some(DeadlineExceeded(s, false));
        return;
      }
      group', inFlight' := StartAsync(group', inFlight');
      assert Loop(Here(), group', inFlight', stopped', replies') == Started(checked);
      if group' == [] && promiseJobs == [] && timeoutJobs == [] && genericJobs == [] {
        exit := Some(Complete);
        return;
      }
      Tick(t.beforeWait);
      group', inFlight', exit := FinishTurn(w, t, group', inFlight', AtWait(checked, t));
    }

    method FinishTurn(w: World, t: Turn, group: seq<nat>, inFlight: nat, ghost ready: Loop)
      returns (group': seq<nat>, inFlight': nat, exit: Option<Exit>)
      requires ready.x == Here() && ready.group == group && ready.inFlight == inFlight
      modifies this
      ensures var r := WaitAndDrain(w, ready, t);
              && ready.(x := Here(), group := group', inFlight := inFlight') == r.l
              && exit == (if r.Done? then Some(r.exit) else None)
    {
      var broken;
      group', inFlight', broken := Wait(t, group, inFlight, ready);
      if broken {
        exit := Some(Failed);
        return;
      }
      Tick(t.beforeRecheck);
      if DeadlinePassed() {
        var s := TakeSnapshot(inFlight', AtRecheck(ready, t));
        exit := Some(DeadlineExceeded(s, true));
        return;
      }
      Tick(t.beforeDrain);
      var ok := DrainAll(w);
      exit := if ok then None else Some(Failed);
    }
  }
}
