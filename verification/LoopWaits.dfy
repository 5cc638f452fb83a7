/** How long the loop waits, and how a settled main promise can go unanswered. */
module LoopWaits {
  import opened Wrappers
  import opened EventLoop
  import opened LoopSafety
  import opened LoopRuns

  // ----- waiting ---------------------------------------------------------------------------

  /** The first timer and the deadline fall on whole milliseconds. */
  predicate Aligned(q: Queues) {
    && (q.timeoutJobs != [] ==> q.timeoutJobs[0].at % MS == 0)
    && (q.deadline.Some? ==> q.deadline.value % MS == 0)
  }

  /** The earlier of the first timer and the deadline. */
  function NextStop(q: Queues): Option<nat> {
    if q.timeoutJobs == [] then q.deadline
    else if q.deadline.None? then Some(q.timeoutJobs[0].at)
    else Some(Min(q.timeoutJobs[0].at, q.deadline.value))
  }

  /** The limit of a wait, if it waits and has one. */
  function Limit(wait: Waiting): Option<nat> {
    match wait
    case NoWait => None
    case Sleep(millis) => Some(millis)
    case Poll(limit) => limit
  }

  /** Truncating both instants to milliseconds rounds the wait up by less than one. */
  lemma UntilAligned(later: nat, now: nat)
    requires later % MS == 0
    ensures UntilOrZero(later, now) == 0 <==> later <= now
    ensures later > now ==> later <= now + UntilOrZero(later, now) * MS < later + MS
  {
    var a, b, r := later / MS, now / MS, now % MS;
    assert later == a * MS && now == b * MS + r;
    if a > b {
      assert (a - b) * MS == a * MS - b * MS;
    }
  }

  lemma UntilMonotone(a: nat, b: nat, now: nat)
    requires a <= b
    ensures UntilOrZero(a, now) <= UntilOrZero(b, now)
  {
    assert a / MS <= b / MS;
  }

  /** Every limit is the truncated distance to the next stop. */
  lemma BudgetIsDistance(q: Queues, now: nat)
    requires NextStop(q).Some?
    ensures WaitBudget(q, now) == Some(UntilOrZero(NextStop(q).value, now))
  {
    if q.timeoutJobs != [] && q.deadline.Some? {
      var a, b := q.timeoutJobs[0].at, q.deadline.value;
      if a <= b { UntilMonotone(a, b, now); } else { UntilMonotone(b, a, now); }
    }
  }

  lemma LimitIsDistance(q: Queues, now: nat, group: seq<nat>)
    requires Aligned(q) && Limit(WaitFor(q, now, group)).Some?
    ensures NextStop(q).Some? && Limit(WaitFor(q, now, group)).value == UntilOrZero(NextStop(q).value, now) > 0
  {
    if NextStop(q).Some? { BudgetIsDistance(q, now); }
    if q.timeoutJobs != [] && q.deadline.Some? {
      UntilAligned(q.deadline.value, now);
    }
  }

  /**
   The loop skips waiting only when it has something to do: with no promise or generic job queued, a
   zero wait means a timer is due or the deadline has passed. It never spins.
   */
  lemma NoWaitMeansReady(q: Queues, now: nat, group: seq<nat>)
    requires Aligned(q) && q.promiseJobs == [] && q.genericJobs == [] && (group != [] || q.timeoutJobs != [])
    ensures WaitFor(q, now, group) == NoWait <==> NextStop(q).Some? && NextStop(q).value <= now
  {
    if NextStop(q).Some? {
      BudgetIsDistance(q, now);
      UntilAligned(NextStop(q).value, now);
      if q.deadline.Some? { UntilAligned(q.deadline.value, now); }
      if q.timeoutJobs != [] { UntilAligned(q.timeoutJobs[0].at, now); }
    }
  }

  /** A limited wait ends at or after the next stop and less than a millisecond past it. It never wakes early. */
  lemma WaitEndsOnTime(q: Queues, now: nat, group: seq<nat>)
    requires Aligned(q) && Limit(WaitFor(q, now, group)).Some?
    ensures var end := now + Limit(WaitFor(q, now, group)).value * MS;
            NextStop(q).Some? && now < NextStop(q).value <= end < NextStop(q).value + MS
  {
    LimitIsDistance(q, now, group);
    UntilAligned(NextStop(q).value, now);
  }

  /** The loop waits without a limit exactly when futures are in flight and nothing else can happen. */
  lemma UnlimitedWait(q: Queues, now: nat, group: seq<nat>)
    ensures WaitFor(q, now, group) == Poll(None) <==>
            group != [] && q.promiseJobs == [] && q.genericJobs == [] && NextStop(q).None?
  {
    if NextStop(q).Some? { BudgetIsDistance(q, now); }
  }

  lemma FirstTimerAligned(x: Exec, group: seq<nat>)
    requires Inv(x, [], [], group) && x.q.timeoutJobs != []
    ensures x.q.timeoutJobs[0].at % MS == 0
  {
    var bs := x.q.timeoutJobs;
    TimersAre(bs[0].at, bs[0].jobs);
    var all := x.h.fired + [] + Flat(bs);
    assert all[|x.h.fired|] == Flat(bs)[0] == Timer(bs[0].at, bs[0].jobs[0]);
  }

  predicate DeadlineAligned(q: Queues) {
    q.deadline.Some? ==> q.deadline.value % MS == 0
  }

  lemma WaitAligned(l: Loop, t: Turn, watch: bool)
    requires LoopInv(l) && DeadlineAligned(l.x.q)
    ensures Aligned(AtWait(AtCheck(l, t, watch), t).x.q)
  {
    CheckKeeps(l, t, watch);
    ApplyAllFollows(l.x, t.stopActs);
    var checked := AtCheck(l, t, watch);
    if checked.x.q.timeoutJobs != [] { FirstTimerAligned(checked.x, checked.group); }
  }

  lemma TurnAligned(w: World, l: Loop, t: Turn, watch: bool)
    requires DeadlineAligned(l.x.q)
    ensures DeadlineAligned(Turned(w, l, t, watch).l.x.q)
  {
    TurnAdvances(w, l, t, watch);
  }

  lemma RunLater(w: World, l: Loop, turns: seq<Turn>, watch: bool, k: nat)
    requires 0 < k < |turns| && Run(w, l, turns[..k], watch).Continue?
    ensures Turned(w, l, turns[0], watch).Continue?
    ensures Run(w, Turned(w, l, turns[0], watch).l, turns[1..][..k - 1], watch) == Run(w, l, turns[..k], watch)
  {
    assert turns[..k][0] == turns[0] && turns[..k][1..] == turns[1..][..k - 1];
  }

  /**
   Every state a run waits in is aligned if its deadline is, since timers are only set on whole
   milliseconds.
   */
  lemma {:induction false} WaitsAreAligned(w: World, l: Loop, turns: seq<Turn>, watch: bool, k: nat)
    requires LoopInv(l) && DeadlineAligned(l.x.q) && AllPossible(w, l, turns, watch)
    requires k < |turns| && Run(w, l, turns[..k], watch).Continue?
    ensures Aligned(AtWait(AtCheck(Run(w, l, turns[..k], watch).l, turns[k], watch), turns[k]).x.q)
    decreases k
  {
    if k == 0 {
      assert turns[..0] == [];
      WaitAligned(l, turns[0], watch);
    } else {
      var next := Turned(w, l, turns[0], watch);
      RunLater(w, l, turns, watch, k);
      TurnKeeps(w, l, turns[0], watch);
      TurnAligned(w, l, turns[0], watch);
      WaitsAreAligned(w, next.l, turns[1..], watch, k - 1);
    }
  }

  // ----- a settled promise without a reply -------------------------------------------------

  /** The loop ended without error, and without a reply although the watched promise has settled. */
  predicate Unanswered(r: Step) {
    r.Done? && !r.exit.Failed? && r.l.x.c.settled && r.l.replies == 0
  }

  /**
   The guard of the failing branch, in terms of the state a turn begins in and what the outside does
   in it: the promise is pending and nothing has stopped the loop before its wait; a future polled in
   the wait settles the promise and none breaks; and the deadline has passed by the second check.
   */
  predicate LateTurn(l: Loop, t: Turn) {
    var checked := AtCheck(l, t, true);
    var ready := AtWait(checked, t);
    && !l.stopped && !l.x.c.settled
    && !Expired(checked.x) && !Quiet(Started(checked))
    && Polls(ready) && Settle in t.polled && !t.awaited.Broken?
    && Expired(AtRecheck(ready, t).x)
  }

  /** One reply if the loop has stopped watching, none before. */
  predicate RepliesOk(l: Loop) {
    l.replies == (if l.stopped then 1 else 0)
  }

  lemma {:induction false} SettlesExactly(x: Exec, acts: seq<Act>)
    ensures ApplyAll(x, acts).c.settled <==> x.c.settled || Settle in acts
    decreases |acts|
  {
    if acts != [] {
      SettlesExactly(Apply(x, acts[0]), acts[1..]);
      assert acts == [acts[0]] + acts[1..];
    }
  }

  lemma CheckFlow(l: Loop, t: Turn)
    requires RepliesOk(l)
    ensures var checked := AtCheck(l, t, true);
            && RepliesOk(checked) && (checked.x.c.settled ==> checked.stopped)
            && (!checked.stopped <==> !l.stopped && !l.x.c.settled)
  {
    ApplyAllFollows(l.x, t.stopActs);
  }

  lemma PollSettles(l: Loop, t: Turn, limit: Option<nat>)
    ensures Polled(l, t, limit).x.c.settled <==> l.x.c.settled || Settle in t.polled
    ensures Polled(l, t, limit).stopped == l.stopped && Polled(l, t, limit).replies == l.replies
  {
    SettlesExactly(l.x, t.polled);
  }

  /** In a wait only polled futures settle the promise. */
  lemma WaitFlow(l: Loop, t: Turn)
    ensures Waited(l, t).stopped == l.stopped && Waited(l, t).replies == l.replies
    ensures Waited(l, t).x.c.settled <==> l.x.c.settled || (Polls(l) && Settle in t.polled)
  {
    match WaitFor(l.x.q, l.x.c.now, l.group)
    case NoWait =>
    case Sleep(_) =>
    case Poll(limit) => PollSettles(l, t, limit);
  }

  lemma TurnCounts(w: World, l: Loop, t: Turn)
    requires RepliesOk(l)
    ensures RepliesOk(Turned(w, l, t, true).l)
  {
    CheckFlow(l, t);
    WaitFlow(AtWait(AtCheck(l, t, true), t), t);
  }

  /** A turn ends the loop with the promise settled and unanswered exactly if it is late. */
  lemma UnansweredExit(w: World, l: Loop, t: Turn)
    requires RepliesOk(l)
    ensures Unanswered(Turned(w, l, t, true)) <==> LateTurn(l, t)
  {
    CheckFlow(l, t);
    WaitFlow(AtWait(AtCheck(l, t, true), t), t);
  }

  /** The run comes to a late turn. */
  predicate EndsLate(w: World, l: Loop, turns: seq<Turn>)
    decreases |turns|
  {
    turns != [] &&
      (LateTurn(l, turns[0]) ||
       (Turned(w, l, turns[0], true).Continue? && EndsLate(w, Turned(w, l, turns[0], true).l, turns[1..])))
  }

  /** A run ends with the promise settled and unanswered exactly if it comes to a late turn. */
  lemma {:induction false} UnansweredRun(w: World, l: Loop, turns: seq<Turn>)
    requires RepliesOk(l)
    ensures Unanswered(Run(w, l, turns, true)) <==> EndsLate(w, l, turns)
    decreases |turns|
  {
    if turns != [] {
      UnansweredExit(w, l, turns[0]);
      TurnCounts(w, l, turns[0]);
      var r := Turned(w, l, turns[0], true);
      if r.Continue? { UnansweredRun(w, r.l, turns[1..]); }
    }
  }

  lemma ApplyTwo(x: Exec, a: Act, b: Act)
    ensures ApplyAll(x, [a, b]) == Apply(Apply(x, a), b)
  {
    assert [a, b][1..] == [b] && [b][1..] == [];
    assert ApplyAll(Apply(x, a), [b]) == ApplyAll(Apply(Apply(x, a), b), []);
  }

  /** And that does happen: a future settles the main promise at the deadline. */
  lemma UnansweredExitHappens(w: World)
    ensures var t := Turn([], 0, 0, [Settle, Pass(MS)], Finished(0), 0, 0, 0);
            var l := Entered(0, Some(MS), [Enqueue(Async)]);
            var r := Turned(w, l, t, true);
            && Possible(l, t, true) && r.Done? && r.exit.DeadlineExceeded?
            && r.l.x.c.settled && !r.l.stopped && r.l.replies == 0
  {
    var l := Entered(0, Some(MS), [Enqueue(Async)]);
    var acts := [Enqueue(Async)];
    assert acts[1..] == [] && l.x == Enqueued(Idle(0, Some(MS)), Async);
    assert l.x.q.asyncJobs == [0];
    var t := Turn([], 0, 0, [Settle, Pass(MS)], Finished(0), 0, 0, 0);
    var ready := AtWait(AtCheck(l, t, true), t);
    assert ready.group == [0];
    assert WaitFor(ready.x.q, 0, [0]) == Poll(Some(1));
    ApplyTwo(ready.x, Settle, Pass(MS));
  }
}
