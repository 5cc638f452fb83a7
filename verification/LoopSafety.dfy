/** What every step of the event loop keeps: timer order, first-in-first-out queues, and the job count. */
module LoopSafety {
  import opened Wrappers
  import opened EventLoop
  import Text

  // ----- timer order -----------------------------------------------------------------------

  /** Earlier instant first, then the one enqueued first. */
  predicate Before(a: Timer, b: Timer) {
    a.at < b.at || (a.at == b.at && a.id < b.id)
  }

  predicate Sorted(ts: seq<Timer>) {
    forall i, j :: 0 <= i < j < |ts| ==> Before(ts[i], ts[j])
  }

  /** Whole milliseconds, numbered below `nextId`. */
  predicate Proper(ts: seq<Timer>, nextId: nat) {
    forall i :: 0 <= i < |ts| ==> ts[i].at % MS == 0 && ts[i].id < nextId
  }

  predicate DueBy(ts: seq<Timer>, now: nat) {
    forall i :: 0 <= i < |ts| ==> ts[i].at <= now
  }

  /** Distinct instants in increasing order above `low`, each with some timer. */
  predicate Ordered(bs: seq<Bucket>, low: int) {
    bs == [] || (bs[0].at > low && bs[0].jobs != [] && Ordered(bs[1..], bs[0].at))
  }

  /** No fired timer was called before its instant. */
  predicate Punctual(h: History) {
    |h.firedAt| == |h.fired| && forall i :: 0 <= i < |h.fired| ==> h.fired[i].at <= h.firedAt[i]
  }

  /** The timers already fired, those about to be, and those still queued are in firing order. */
  ghost predicate TimerInv(x: Exec, batch: seq<Timer>) {
    var past, flat := x.h.fired + batch, Flat(x.q.timeoutJobs);
    && Sorted(past + flat)
    && Proper(past + flat, x.c.nextId)
    && DueBy(past, x.c.now)
    && Ordered(x.q.timeoutJobs, -1)
    && Punctual(x.h)
  }

  lemma {:induction false} TimersAre(at: nat, jobs: seq<nat>)
    ensures |Timers(at, jobs)| == |jobs|
    ensures forall i :: 0 <= i < |jobs| ==> Timers(at, jobs)[i] == Timer(at, jobs[i])
  {
    if jobs != [] { TimersAre(at, jobs[1..]); }
  }

  lemma {:induction false} TimersAppend(at: nat, a: seq<nat>, b: seq<nat>)
    ensures Timers(at, a + b) == Timers(at, a) + Timers(at, b)
  {
    TimersAre(at, a + b);
    TimersAre(at, a);
    TimersAre(at, b);
  }

  lemma {:induction false} FlatAbove(bs: seq<Bucket>, low: int)
    requires Ordered(bs, low)
    ensures forall i :: 0 <= i < |Flat(bs)| ==> Flat(bs)[i].at > low
  {
    if bs != [] {
      TimersAre(bs[0].at, bs[0].jobs);
      FlatAbove(bs[1..], bs[0].at);
    }
  }

  lemma {:induction false} InsertOrdered(bs: seq<Bucket>, at: nat, id: nat, low: int)
    requires Ordered(bs, low) && at > low
    ensures Ordered(Insert(bs, at, id), low)
  {
    if bs == [] || at < bs[0].at {
      assert ([Bucket(at, [id])] + bs)[1..] == bs;
    } else if at == bs[0].at {
      assert ([Bucket(at, bs[0].jobs + [id])] + bs[1..])[1..] == bs[1..];
    } else {
      InsertOrdered(bs[1..], at, id, bs[0].at);
      assert ([bs[0]] + Insert(bs[1..], at, id))[1..] == Insert(bs[1..], at, id);
    }
  }

  /** A new timer goes behind everything due no later than it. */
  lemma {:induction false} InsertFlat(bs: seq<Bucket>, at: nat, id: nat, low: int) returns (before: seq<Timer>, after: seq<Timer>)
    requires Ordered(bs, low)
    ensures Flat(bs) == before + after
    ensures Flat(Insert(bs, at, id)) == before + [Timer(at, id)] + after
    ensures forall i :: 0 <= i < |before| ==> before[i].at <= at
    ensures forall i :: 0 <= i < |after| ==> after[i].at > at
  {
    var bs' := Insert(bs, at, id);
    if bs == [] || at < bs[0].at {
      assert bs'[1..] == bs;
      if bs != [] { TimersAre(bs[0].at, bs[0].jobs); FlatAbove(bs[1..], bs[0].at); }
      before, after := [], Flat(bs);
      assert Timers(at, [id]) == [Timer(at, id)];
    } else if at == bs[0].at {
      assert bs'[1..] == bs[1..];
      TimersAppend(at, bs[0].jobs, [id]);
      assert Timers(at, [id]) == [Timer(at, id)];
      TimersAre(at, bs[0].jobs);
      FlatAbove(bs[1..], at);
      before, after := Timers(at, bs[0].jobs), Flat(bs[1..]);
    } else {
      assert bs'[1..] == Insert(bs[1..], at, id);
      TimersAre(bs[0].at, bs[0].jobs);
      before, after := InsertFlat(bs[1..], at, id, bs[0].at);
      var head := Timers(bs[0].at, bs[0].jobs);
      Text.Assoc(head, before, after);
      Text.Assoc(head, before + [Timer(at, id)], after);
      Text.Assoc(head, before, [Timer(at, id)]);
      before := head + before;
    }
  }

  lemma SortedInsert(a: seq<Timer>, t: Timer, b: seq<Timer>)
    requires Sorted(a + b)
    requires forall i :: 0 <= i < |a| ==> Before(a[i], t)
    requires forall i :: 0 <= i < |b| ==> Before(t, b[i])
    ensures Sorted(a + [t] + b)
  {
    var s, r := a + b, a + [t] + b;
    forall i, j | 0 <= i < j < |r| ensures Before(r[i], r[j]) {
      if i != |a| && j != |a| {
        assert r[i] == s[if i < |a| then i else i - 1];
        assert r[j] == s[if j < |a| then j else j - 1];
      } else if i == |a| {
        assert r[j] == b[j - |a| - 1];
      } else {
        assert r[i] == a[i];
      }
    }
  }

  lemma SortedWithout(a: seq<Timer>, m: seq<Timer>, b: seq<Timer>)
    requires Sorted(a + m + b)
    ensures Sorted(a + b)
  {
    var s, r := a + m + b, a + b;
    forall i, j | 0 <= i < j < |r| ensures Before(r[i], r[j]) {
      assert r[i] == s[if i < |a| then i else i + |m|];
      assert r[j] == s[if j < |a| then j else j + |m|];
    }
  }

  lemma ProperWithout(a: seq<Timer>, m: seq<Timer>, b: seq<Timer>, nextId: nat)
    requires Proper(a + m + b, nextId)
    ensures Proper(a + b, nextId)
  {
    var s, r := a + m + b, a + b;
    forall i | 0 <= i < |r| ensures r[i].at % MS == 0 && r[i].id < nextId {
      assert r[i] == s[if i < |a| then i else i + |m|];
    }
  }

  /** An instant computed from the clock is not before anything already due. */
  lemma DueBeforeNew(due: nat, now: nat, delay: nat, at: nat)
    requires due <= now && due % MS == 0 && CheckedAdd(now, delay) == Some(at)
    ensures due <= at && at % MS == 0
  {
    assert due / MS <= now / MS;
    assert due == due / MS * MS;
  }

  lemma NewTimerProper(past: seq<Timer>, before: seq<Timer>, after: seq<Timer>, t: Timer, nextId: nat)
    requires Sorted(past + (before + after)) && Proper(past + (before + after), nextId)
    requires forall i :: 0 <= i < |past| ==> past[i].at <= t.at
    requires forall i :: 0 <= i < |before| ==> before[i].at <= t.at
    requires forall i :: 0 <= i < |after| ==> after[i].at > t.at
    requires t.id == nextId && t.at % MS == 0
    ensures Sorted(past + (before + [t] + after)) && Proper(past + (before + [t] + after), nextId + 1)
  {
    var all := past + (before + after);
    var a := past + before;
    assert all == a + after;
    forall i | 0 <= i < |a| ensures Before(a[i], t) {
      assert a[i] == all[i];
    }
    SortedInsert(a, t, after);
    var r := past + (before + [t] + after);
    assert r == a + [t] + after;
    forall i | 0 <= i < |r| ensures r[i].at % MS == 0 && r[i].id < nextId + 1 {
      if i < |a| { assert r[i] == all[i]; } else if i > |a| { assert r[i] == all[i - 1]; }
    }
  }

  lemma EnqueueKeepsTimers(x: Exec, batch: seq<Timer>, kind: Kind)
    requires TimerInv(x, batch)
    ensures TimerInv(Enqueued(x, kind), batch)
  {
    if kind.Timeout? && CheckedAdd(x.c.now, kind.delay).Some? {
      var at, id := CheckedAdd(x.c.now, kind.delay).value, x.c.nextId;
      var past := x.h.fired + batch;
      var bs := x.q.timeoutJobs;
      InsertOrdered(bs, at, id, -1);
      var before, after := InsertFlat(bs, at, id, -1);
      var all := past + (before + after);
      assert at % MS == 0;
      forall i | 0 <= i < |past| ensures past[i].at <= at {
        assert past[i] == all[i];
        DueBeforeNew(past[i].at, x.c.now, kind.delay, at);
      }
      NewTimerProper(past, before, after, Timer(at, id), id);
    }
  }

  // ----- taking timers out -----------------------------------------------------------------

  function KeepTimers(ts: seq<Timer>, cancelled: set<nat>): seq<Timer> {
    if ts == [] then []
    else if ts[0].id in cancelled then KeepTimers(ts[1..], cancelled)
    else [ts[0]] + KeepTimers(ts[1..], cancelled)
  }

  lemma {:induction false} KeepAppend(a: seq<Timer>, b: seq<Timer>, cancelled: set<nat>)
    ensures KeepTimers(a + b, cancelled) == KeepTimers(a, cancelled) + KeepTimers(b, cancelled)
  {
    if a == [] {
      assert a + b == b;
    } else {
      KeepAppend(a[1..], b, cancelled);
      Text.TailAppend(a, b);
    }
  }

  lemma {:induction false} KeepOfTimers(at: nat, jobs: seq<nat>, cancelled: set<nat>)
    ensures KeepTimers(Timers(at, jobs), cancelled) == Timers(at, Keep(jobs, cancelled))
  {
    if jobs != [] {
      KeepOfTimers(at, jobs[1..], cancelled);
      assert Timers(at, jobs)[1..] == Timers(at, jobs[1..]);
    }
  }

  lemma {:induction false} RetainFlat(bs: seq<Bucket>, cancelled: set<nat>)
    ensures Flat(Retain(bs, cancelled)) == KeepTimers(Flat(bs), cancelled)
  {
    if bs != [] {
      RetainFlat(bs[1..], cancelled);
      KeepOfTimers(bs[0].at, bs[0].jobs, cancelled);
      KeepAppend(Timers(bs[0].at, bs[0].jobs), Flat(bs[1..]), cancelled);
      var jobs := Keep(bs[0].jobs, cancelled);
      if jobs != [] {
        assert ([Bucket(bs[0].at, jobs)] + Retain(bs[1..], cancelled))[1..] == Retain(bs[1..], cancelled);
      }
    }
  }

  lemma {:induction false} RetainOrdered(bs: seq<Bucket>, cancelled: set<nat>, low: int)
    requires Ordered(bs, low)
    ensures Ordered(Retain(bs, cancelled), low)
  {
    if bs != [] {
      RetainOrdered(bs[1..], cancelled, bs[0].at);
      var jobs := Keep(bs[0].jobs, cancelled);
      if jobs != [] {
        assert ([Bucket(bs[0].at, jobs)] + Retain(bs[1..], cancelled))[1..] == Retain(bs[1..], cancelled);
      }
    }
  }

  lemma {:induction false} KeepSorted(past: seq<Timer>, ts: seq<Timer>, cancelled: set<nat>, nextId: nat)
    requires Sorted(past + ts) && Proper(past + ts, nextId)
    ensures Sorted(past + KeepTimers(ts, cancelled)) && Proper(past + KeepTimers(ts, cancelled), nextId)
    decreases |ts|
  {
    if ts != [] {
      var head, rest := [ts[0]], ts[1..];
      assert past + ts == past + head + rest;
      if ts[0].id in cancelled {
        SortedWithout(past, head, rest);
        ProperWithout(past, head, rest, nextId);
        KeepSorted(past, rest, cancelled, nextId);
      } else {
        KeepSorted(past + head, rest, cancelled, nextId);
        Text.Assoc(past, head, KeepTimers(rest, cancelled));
      }
    }
  }

  lemma {:induction false} DueSplit(bs: seq<Bucket>, now: nat, low: int)
    requires Ordered(bs, low)
    ensures Flat(bs) == Due(bs, now) + Flat(NotDue(bs, now))
    ensures DueBy(Due(bs, now), now)
    ensures Ordered(NotDue(bs, now), low)
  {
    if bs != [] && bs[0].at <= now {
      DueSplit(bs[1..], now, bs[0].at);
      TimersAre(bs[0].at, bs[0].jobs);
      Text.Assoc(Timers(bs[0].at, bs[0].jobs), Due(bs[1..], now), Flat(NotDue(bs[1..], now)));
    }
  }

  /** Once timers are taken, nothing due is left behind. */
  lemma {:induction false} NoneLeftDue(bs: seq<Bucket>, now: nat, low: int)
    requires Ordered(bs, low)
    ensures forall i :: 0 <= i < |Flat(NotDue(bs, now))| ==> Flat(NotDue(bs, now))[i].at > now
  {
    if bs != [] {
      if bs[0].at <= now {
        NoneLeftDue(bs[1..], now, bs[0].at);
      } else {
        assert Ordered(bs, now);
        FlatAbove(bs, now);
      }
    }
  }

  lemma TakingKeepsTimers(x: Exec)
    requires TimerInv(x, [])
    ensures TimerInv(TimersTaken(x), Due(Retain(x.q.timeoutJobs, x.c.cancelled), x.c.now))
  {
    var kept := Retain(x.q.timeoutJobs, x.c.cancelled);
    var past := x.h.fired;
    assert past + [] == past;
    RetainFlat(x.q.timeoutJobs, x.c.cancelled);
    RetainOrdered(x.q.timeoutJobs, x.c.cancelled, -1);
    KeepSorted(past, Flat(x.q.timeoutJobs), x.c.cancelled, x.c.nextId);
    DueSplit(kept, x.c.now, -1);
    Text.Assoc(past, Due(kept, x.c.now), Flat(NotDue(kept, x.c.now)));
  }

  // ----- first in, first out ---------------------------------------------------------------

  function TaskIds(ts: seq<Task>): seq<nat> {
    seq(|ts|, i requires 0 <= i < |ts| => ts[i].id)
  }

  /** Increasing job numbers below `bound`: the order in which the jobs were enqueued. */
  predicate Rising(s: seq<nat>, bound: nat) {
    (forall i, j :: 0 <= i < j < |s| ==> s[i] < s[j]) && forall i :: 0 <= i < |s| ==> s[i] < bound
  }

  /** Promise and generic jobs already called, about to be, and still queued are in enqueueing order. */
  ghost predicate FifoInv(x: Exec, batch: seq<nat>) {
    && Rising(x.h.promises + batch + x.q.promiseJobs, x.c.nextId)
    && Rising(x.h.generics + TaskIds(x.q.genericJobs), x.c.nextId)
  }

  lemma RisingSnoc(s: seq<nat>, bound: nat)
    requires Rising(s, bound)
    ensures Rising(s + [bound], bound + 1) && Rising(s, bound + 1)
  {
  }

  lemma RisingWithout(a: seq<nat>, m: seq<nat>, b: seq<nat>, bound: nat)
    requires Rising(a + m + b, bound)
    ensures Rising(a + b, bound)
  {
    var s, r := a + m + b, a + b;
    forall i | 0 <= i < |r| ensures r[i] == s[if i < |a| then i else i + |m|] {}
  }

  lemma EnqueueKeepsFifo(x: Exec, batch: seq<nat>, kind: Kind)
    requires FifoInv(x, batch)
    ensures FifoInv(Enqueued(x, kind), batch)
  {
    var id, y := x.c.nextId, Enqueued(x, kind);
    RisingSnoc(x.h.promises + batch + x.q.promiseJobs, id);
    RisingSnoc(x.h.generics + TaskIds(x.q.genericJobs), id);
    if y.q.genericJobs != x.q.genericJobs {
      var task := y.q.genericJobs[|x.q.genericJobs|];
      assert TaskIds(y.q.genericJobs) == TaskIds(x.q.genericJobs) + [id];
      Text.Assoc(x.h.generics, TaskIds(x.q.genericJobs), [id]);
    }
    if y.q.promiseJobs != x.q.promiseJobs {
      Text.Assoc(x.h.promises + batch, x.q.promiseJobs, [id]);
    }
  }

  // ----- conservation ----------------------------------------------------------------------

  function Ids(bs: seq<Bucket>): seq<nat> {
    if bs == [] then [] else bs[0].jobs + Ids(bs[1..])
  }

  /** Every job in a queue. */
  ghost function Held(q: Queues): multiset<nat> {
    multiset(q.asyncJobs) + multiset(q.promiseJobs) + multiset(Ids(q.timeoutJobs)) + multiset(TaskIds(q.genericJobs))
  }

  /** Every job called, finished, removed as cancelled, or dropped. */
  ghost function Gone(h: History): multiset<nat> {
    multiset(TimerIds(h.fired)) + multiset(h.promises) + multiset(h.generics)
      + multiset(h.removed) + multiset(h.finished) + multiset(h.dropped)
  }

  ghost function Numbers(n: nat): multiset<nat> {
    if n == 0 then multiset{} else Numbers(n - 1) + multiset{n - 1}
  }

  /** Every job number handed out is in exactly one place. */
  ghost predicate Conserved(x: Exec, pending: multiset<nat>) {
    Held(x.q) + Gone(x.h) + pending == Numbers(x.c.nextId)
  }

  /** Jobs taken out of a queue are pending. */
  lemma Taken(x: Exec, y: Exec, pending: multiset<nat>, jobs: multiset<nat>)
    requires Conserved(x, pending) && Held(x.q) == Held(y.q) + jobs && Gone(y.h) == Gone(x.h) && y.c.nextId == x.c.nextId
    ensures Conserved(y, pending + jobs)
  {
  }

  /** Pending jobs that are called or dropped are gone. */
  lemma Settled(x: Exec, y: Exec, pending: multiset<nat>, jobs: multiset<nat>)
    requires Conserved(x, pending + jobs) && Held(x.q) == Held(y.q) && Gone(y.h) == Gone(x.h) + jobs && y.c.nextId == x.c.nextId
    ensures Conserved(y, pending)
  {
  }

  lemma {:induction false} InsertIds(bs: seq<Bucket>, at: nat, id: nat)
    ensures multiset(Ids(Insert(bs, at, id))) == multiset(Ids(bs)) + multiset{id}
  {
    var r := Insert(bs, at, id);
    if bs == [] || at < bs[0].at {
      assert r[1..] == bs;
    } else if at == bs[0].at {
      assert r[1..] == bs[1..];
    } else {
      assert r[1..] == Insert(bs[1..], at, id);
      InsertIds(bs[1..], at, id);
    }
  }

  lemma {:induction false} KeepOrLost(jobs: seq<nat>, cancelled: set<nat>)
    ensures multiset(jobs) == multiset(Keep(jobs, cancelled)) + multiset(Lost(jobs, cancelled))
  {
    if jobs != [] {
      KeepOrLost(jobs[1..], cancelled);
      assert jobs == [jobs[0]] + jobs[1..];
    }
  }

  lemma {:induction false} RetainIds(bs: seq<Bucket>, cancelled: set<nat>)
    ensures multiset(Ids(bs)) == multiset(Ids(Retain(bs, cancelled))) + multiset(Removed(bs, cancelled))
  {
    if bs != [] {
      RetainIds(bs[1..], cancelled);
      KeepOrLost(bs[0].jobs, cancelled);
      var jobs := Keep(bs[0].jobs, cancelled);
      if jobs != [] {
        assert ([Bucket(bs[0].at, jobs)] + Retain(bs[1..], cancelled))[1..] == Retain(bs[1..], cancelled);
      }
    }
  }

  lemma {:induction false} DueIds(bs: seq<Bucket>, now: nat)
    ensures Ids(bs) == TimerIds(Due(bs, now)) + Ids(NotDue(bs, now))
  {
    if bs != [] && bs[0].at <= now {
      DueIds(bs[1..], now);
      TimersAre(bs[0].at, bs[0].jobs);
      assert TimerIds(Due(bs, now)) == bs[0].jobs + TimerIds(Due(bs[1..], now));
      Text.Assoc(bs[0].jobs, TimerIds(Due(bs[1..], now)), Ids(NotDue(bs[1..], now)));
    }
  }

  lemma GenericHolds(q: Queues, task: Task)
    ensures Held(q.(genericJobs := q.genericJobs + [task])) == Held(q) + multiset{task.id}
  {
    assert TaskIds(q.genericJobs + [task]) == TaskIds(q.genericJobs) + [task.id];
  }

  lemma TimerHolds(q: Queues, at: nat, id: nat)
    ensures Held(q.(timeoutJobs := Insert(q.timeoutJobs, at, id))) == Held(q) + multiset{id}
  {
    InsertIds(q.timeoutJobs, at, id);
  }

  lemma EnqueueHolds(x: Exec, kind: Kind)
    ensures Held(Enqueued(x, kind).q) == Held(x.q) + multiset{x.c.nextId}
  {
    var id := x.c.nextId;
    match kind
    case Promise =>
    case Async =>
    case Timeout(delay) =>
      if CheckedAdd(x.c.now, delay).Some? {
        TimerHolds(x.q, CheckedAdd(x.c.now, delay).value, id);
      } else {
        GenericHolds(x.q, Task(id, true));
      }
    case Generic => GenericHolds(x.q, Task(id, false));
    case Other => GenericHolds(x.q, Task(id, true));
  }

  lemma EnqueueKeepsIds(x: Exec, pending: multiset<nat>, kind: Kind)
    requires Conserved(x, pending)
    ensures Conserved(Enqueued(x, kind), pending)
  {
    EnqueueHolds(x, kind);
    OneMore(Held(x.q), Gone(x.h), pending, x.c.nextId);
  }

  lemma OneMore(held: multiset<nat>, gone: multiset<nat>, pending: multiset<nat>, id: nat)
    ensures held + multiset{id} + gone + pending == held + gone + pending + multiset{id}
  {
  }

  // ----- the invariant ---------------------------------------------------------------------

  /** The state between any two steps, with the timers and promise jobs of a batch not called yet. */
  ghost predicate Inv(x: Exec, timers: seq<Timer>, promises: seq<nat>, group: seq<nat>) {
    && TimerInv(x, timers)
    && FifoInv(x, promises)
    && Conserved(x, multiset(TimerIds(timers)) + multiset(promises) + multiset(group))
  }

  lemma LaterKeeps(x: Exec, span: nat, timers: seq<Timer>, promises: seq<nat>, group: seq<nat>)
    requires Inv(x, timers, promises, group)
    ensures Inv(Later(x, span), timers, promises, group)
  {
  }

  lemma ApplyKeeps(x: Exec, a: Act, timers: seq<Timer>, promises: seq<nat>, group: seq<nat>)
    requires Inv(x, timers, promises, group)
    ensures Inv(Apply(x, a), timers, promises, group)
  {
    if a.Enqueue? {
      EnqueueKeepsTimers(x, timers, a.kind);
      EnqueueKeepsFifo(x, promises, a.kind);
      EnqueueKeepsIds(x, multiset(TimerIds(timers)) + multiset(promises) + multiset(group), a.kind);
    }
  }

  lemma {:induction false} ApplyAllKeeps(x: Exec, acts: seq<Act>, timers: seq<Timer>, promises: seq<nat>, group: seq<nat>)
    requires Inv(x, timers, promises, group)
    ensures Inv(ApplyAll(x, acts), timers, promises, group)
    decreases |acts|
  {
    if acts != [] {
      ApplyKeeps(x, acts[0], timers, promises, group);
      ApplyAllKeeps(Apply(x, acts[0]), acts[1..], timers, promises, group);
    }
  }

  // ----- draining --------------------------------------------------------------------------

  lemma TimerIdsAppend(a: seq<Timer>, b: seq<Timer>)
    ensures TimerIds(a + b) == TimerIds(a) + TimerIds(b)
  {
  }

  /** Recording the call of the first timer of a batch. */
  function TimerCalled(x: Exec, t: Timer): Exec {
    x.(h := x.h.(fired := x.h.fired + [t], firedAt := x.h.firedAt + [x.c.now]))
  }

  lemma CallTimerKeepsTimers(x: Exec, batch: seq<Timer>)
    requires batch != [] && TimerInv(x, batch)
    ensures TimerInv(TimerCalled(x, batch[0]), batch[1..])
  {
    var t, rest, y := batch[0], batch[1..], TimerCalled(x, batch[0]);
    var past := x.h.fired + batch;
    assert y.h.fired + rest == past;
    assert past[|x.h.fired|] == t;
    assert Punctual(y.h);
  }

  lemma Regroup(a: multiset<nat>, b: multiset<nat>, c: multiset<nat>)
    ensures a + (b + c) == a + b + c
  {
  }

  lemma CalledIsGone(x: Exec, t: Timer)
    ensures Gone(TimerCalled(x, t).h) == Gone(x.h) + multiset{t.id}
  {
    TimerIdsAppend(x.h.fired, [t]);
    assert TimerIds([t]) == [t.id];
  }

  lemma CallTimerKeepsIds(x: Exec, batch: seq<Timer>, others: multiset<nat>)
    requires batch != [] && Conserved(x, others + multiset(TimerIds(batch)))
    ensures Conserved(TimerCalled(x, batch[0]), others + multiset(TimerIds(batch[1..])))
  {
    var t, rest, y := batch[0], batch[1..], TimerCalled(x, batch[0]);
    TimerIdsAppend([t], rest);
    assert [t] + rest == batch && TimerIds([t]) == [t.id];
    assert multiset(TimerIds(batch)) == multiset(TimerIds(rest)) + multiset{t.id};
    Regroup(others, multiset(TimerIds(rest)), multiset{t.id});
    CalledIsGone(x, t);
    Settled(x, y, others + multiset(TimerIds(rest)), multiset{t.id});
  }

  lemma CallTimerKeeps(x: Exec, batch: seq<Timer>, promises: seq<nat>, group: seq<nat>)
    requires batch != [] && Inv(x, batch, promises, group)
    ensures Inv(TimerCalled(x, batch[0]), batch[1..], promises, group)
  {
    CallTimerKeepsTimers(x, batch);
    Rotate(multiset(TimerIds(batch)), multiset(promises), multiset(group));
    CallTimerKeepsIds(x, batch, multiset(promises) + multiset(group));
    Rotate(multiset(TimerIds(batch[1..])), multiset(promises), multiset(group));
  }

  lemma DropTimersKeepsTimers(x: Exec, batch: seq<Timer>, dropped: seq<nat>)
    requires TimerInv(x, batch)
    ensures TimerInv(x.(h := x.h.(dropped := dropped)), [])
  {
    SortedWithout(x.h.fired, batch, Flat(x.q.timeoutJobs));
    ProperWithout(x.h.fired, batch, Flat(x.q.timeoutJobs), x.c.nextId);
    assert x.h.fired + [] == x.h.fired;
    assert forall i :: 0 <= i < |x.h.fired| ==> x.h.fired[i] == (x.h.fired + batch)[i];
  }

  /** Pending jobs that are dropped. */
  lemma DropKeepsIds(x: Exec, jobs: seq<nat>, others: multiset<nat>)
    requires Conserved(x, others + multiset(jobs))
    ensures Conserved(x.(h := x.h.(dropped := x.h.dropped + jobs)), others)
  {
    var y := x.(h := x.h.(dropped := x.h.dropped + jobs));
    assert Gone(y.h) == Gone(x.h) + multiset(jobs);
    Settled(x, y, others, multiset(jobs));
  }

  lemma DropTimersKeeps(x: Exec, batch: seq<Timer>, promises: seq<nat>, group: seq<nat>)
    requires Inv(x, batch, promises, group)
    ensures Inv(x.(h := x.h.(dropped := x.h.dropped + TimerIds(batch))), [], promises, group)
  {
    DropTimersKeepsTimers(x, batch, x.h.dropped + TimerIds(batch));
    var others := multiset(promises) + multiset(group);
    Rotate(multiset(TimerIds(batch)), multiset(promises), multiset(group));
    DropKeepsIds(x, TimerIds(batch), others);
    assert multiset(TimerIds([])) + multiset(promises) + multiset(group) == others;
  }

  lemma Rotate(a: multiset<nat>, b: multiset<nat>, c: multiset<nat>)
    ensures a + b + c == b + c + a
  {
  }

  lemma {:induction false} RunTimersKeeps(w: World, x: Exec, batch: seq<Timer>, promises: seq<nat>, group: seq<nat>)
    requires Inv(x, batch, promises, group)
    ensures Inv(RunTimers(w, x, batch).0, [], promises, group)
    decreases |batch|
  {
    if batch != [] {
      var called := TimerCalled(x, batch[0]);
      CallTimerKeeps(x, batch, promises, group);
      var y := ApplyAll(called, w(batch[0].id).acts);
      ApplyAllKeeps(called, w(batch[0].id).acts, batch[1..], promises, group);
      if w(batch[0].id).failed {
        DropTimersKeeps(y, batch[1..], promises, group);
      } else {
        RunTimersKeeps(w, y, batch[1..], promises, group);
      }
    }
  }

  lemma TakingKeepsIds(x: Exec, pending: multiset<nat>)
    requires Conserved(x, pending)
    ensures Conserved(TimersTaken(x), multiset(TimerIds(Due(Retain(x.q.timeoutJobs, x.c.cancelled), x.c.now))) + pending)
  {
    var kept := Retain(x.q.timeoutJobs, x.c.cancelled);
    RetainIds(x.q.timeoutJobs, x.c.cancelled);
    DueIds(kept, x.c.now);
    var due, rest := TimerIds(Due(kept, x.c.now)), Ids(NotDue(kept, x.c.now));
    assert multiset(Ids(kept)) == multiset(due) + multiset(rest);
  }

  lemma DrainTimersKeeps(w: World, x: Exec, group: seq<nat>)
    requires Inv(x, [], [], group)
    ensures Inv(DrainTimers(w, x).0, [], [], group)
  {
    var due := Due(Retain(x.q.timeoutJobs, x.c.cancelled), x.c.now);
    TakingKeepsTimers(x);
    assert multiset(TimerIds([])) + multiset([]) + multiset(group) == multiset(group);
    TakingKeepsIds(x, multiset(group));
    assert multiset(TimerIds(due)) + multiset([]) + multiset(group) == multiset(TimerIds(due)) + multiset(group);
    RunTimersKeeps(w, TimersTaken(x), due, [], group);
  }

  lemma DrainGenericKeeps(w: World, x: Exec, group: seq<nat>)
    requires Inv(x, [], [], group)
    ensures Inv(DrainGeneric(w, x).0, [], [], group)
  {
    if x.q.genericJobs != [] {
      var task, rest := x.q.genericJobs[0], x.q.genericJobs[1..];
      var called := x.(q := x.q.(genericJobs := rest), h := x.h.(generics := x.h.generics + [task.id]));
      assert TaskIds(x.q.genericJobs) == [task.id] + TaskIds(rest);
      Text.Assoc(x.h.generics, [task.id], TaskIds(rest));
      assert Inv(called, [], [], group);
      ApplyAllKeeps(called, w(task.id).acts, [], [], group);
    }
  }

  lemma CallPromiseKeeps(x: Exec, batch: seq<nat>, group: seq<nat>)
    requires batch != [] && Inv(x, [], batch, group)
    ensures Inv(x.(h := x.h.(promises := x.h.promises + [batch[0]])), [], batch[1..], group)
  {
    assert batch == [batch[0]] + batch[1..];
    Text.Assoc(x.h.promises, [batch[0]], batch[1..]);
  }

  lemma DropPromisesKeeps(x: Exec, batch: seq<nat>, group: seq<nat>)
    requires Inv(x, [], batch, group)
    ensures Inv(x.(h := x.h.(dropped := x.h.dropped + batch)), [], [], group)
  {
    RisingWithout(x.h.promises, batch, x.q.promiseJobs, x.c.nextId);
    assert x.h.promises + [] == x.h.promises;
  }

  lemma {:induction false} RunPromisesKeeps(w: World, x: Exec, batch: seq<nat>, group: seq<nat>)
    requires Inv(x, [], batch, group)
    ensures Inv(RunPromises(w, x, batch).0, [], [], group)
    decreases |batch|
  {
    if batch != [] {
      var called := x.(h := x.h.(promises := x.h.promises + [batch[0]]));
      CallPromiseKeeps(x, batch, group);
      var y := ApplyAll(called, w(batch[0]).acts);
      ApplyAllKeeps(called, w(batch[0]).acts, [], batch[1..], group);
      if w(batch[0]).failed {
        DropPromisesKeeps(y, batch[1..], group);
      } else {
        RunPromisesKeeps(w, y, batch[1..], group);
      }
    }
  }

  lemma DrainPromisesKeeps(w: World, x: Exec, group: seq<nat>)
    requires Inv(x, [], [], group)
    ensures Inv(DrainPromises(w, x).0, [], [], group)
  {
    PromisesTakenKeeps(x, group);
    RunPromisesKeeps(w, x.(q := x.q.(promiseJobs := [])), x.q.promiseJobs, group);
  }

  lemma PromisesTakenKeeps(x: Exec, group: seq<nat>)
    requires Inv(x, [], [], group)
    ensures Inv(x.(q := x.q.(promiseJobs := [])), [], x.q.promiseJobs, group)
  {
    var y := x.(q := x.q.(promiseJobs := []));
    assert x.h.promises + [] + x.q.promiseJobs == x.h.promises + x.q.promiseJobs + [];
    var before := multiset(TimerIds([])) + multiset([]) + multiset(group);
    assert Held(x.q) == Held(y.q) + multiset(x.q.promiseJobs);
    Taken(x, y, before, multiset(x.q.promiseJobs));
    assert before + multiset(x.q.promiseJobs) == multiset(TimerIds([])) + multiset(x.q.promiseJobs) + multiset(group);
  }

  lemma DrainJobsKeeps(w: World, x: Exec, group: seq<nat>)
    requires Inv(x, [], [], group)
    ensures Inv(DrainJobs(w, x).0, [], [], group)
  {
    var (a, okA) := DrainTimers(w, x);
    DrainTimersKeeps(w, x, group);
    if okA {
      var (b, okB) := DrainGeneric(w, a);
      DrainGenericKeeps(w, a, group);
      if okB { DrainPromisesKeeps(w, b, group); }
    }
  }

  // ----- emptying the queue ----------------------------------------------------------------

  /** The cleanup after a job: no deadline, empty queues, futures in flight dropped. */
  function Cleared(x: Exec, group: seq<nat>): Exec {
    x.(q := Queues([], [], [], [], None),
       h := x.h.(dropped := x.h.dropped + x.q.asyncJobs + x.q.promiseJobs + Ids(x.q.timeoutJobs)
                            + TaskIds(x.q.genericJobs) + group))
  }
}
