/**
 Handing jobs to workers. Callers, workers and the closing pool act one step at a time, in any order;
 each step is one operation on the bounded job queue, a cancel flag or a reply channel.
 */
module Delivery {
  import opened Wrappers
  import EventLoop
  import opened Runtime

  // ----- state -----------------------------------------------------------------------------

  /** Where a submitted job is. `Running` notes whether the early reply has been sent. */
  datatype Phase = Offered | Refused | Queued | Received | Running(replied: bool) | Finished

  /**
   A submitted job: its cancel flag, the messages sent on its reply channel, those still in the
   channel, whether it was run, and whether its caller has stopped listening.
   */
  datatype Task = Task(phase: Phase, canceled: bool, sent: nat, buffered: nat, ran: bool, gone: bool)

  /** `accepted` and `taken` list the jobs that have entered and left the queue. */
  datatype Pool = Pool(tasks: seq<Task>, queue: seq<nat>, capacity: nat, closed: bool, accepted: seq<nat>, taken: seq<nat>)

  const REPLY_CAPACITY: nat := 1

  datatype Step =
    | Submit
    | Accept(job: nat)
    | GiveUp(job: nat, atDeadline: bool)
    | Full(job: nat)
    | TimeOut(job: nat)
    | TakeReply(job: nat)
    | Receive
    | Check(job: nat)
    | Reply(job: nat)
    | Finish(job: nat, outcome: Outcome)
    | Close
    | Drain

  // ----- steps -----------------------------------------------------------------------------

  /** A send: into the channel if someone listens, otherwise lost. */
  function Send(t: Task): Task {
    t.(sent := t.sent + 1, buffered := if t.gone then t.buffered else t.buffered + 1)
  }

  /** A send on this channel would wait. */
  predicate Blocked(t: Task) {
    !t.gone && t.buffered >= REPLY_CAPACITY
  }

  /** A worker acts on what the runtime guarantees: it replies early at most once, and says so exactly if it did. */
  predicate Enabled(p: Pool, step: Step) {
    match step
    case Submit => !p.closed
    case Accept(j) => j < |p.tasks| && p.tasks[j].phase.Offered? && |p.queue| < p.capacity
    case GiveUp(j, _) => j < |p.tasks| && p.tasks[j].phase.Offered?
    case Full(j) => j < |p.tasks| && p.tasks[j].phase.Offered? && |p.queue| >= p.capacity
    case TimeOut(j) => j < |p.tasks| && !p.tasks[j].gone
    case TakeReply(j) => j < |p.tasks| && !p.tasks[j].gone && p.tasks[j].buffered > 0
    case Receive => p.queue != []
    case Check(j) => j < |p.tasks| && p.tasks[j].phase.Received?
    case Reply(j) => j < |p.tasks| && p.tasks[j].phase == Running(false)
    case Finish(j, outcome) => j < |p.tasks| && p.tasks[j].phase.Running? && (outcome.MainReplied? <==> p.tasks[j].phase.replied)
    case Close => true
    case Drain => p.closed && p.queue != []
  }

  function Change(p: Pool, j: nat, t: Task): Pool
    requires j < |p.tasks|
  {
    p.(tasks := p.tasks[j := t])
  }

  /** The first job leaves the queue. */
  function Popped(p: Pool): Pool
    requires p.queue != []
  {
    p.(queue := p.queue[1..], taken := p.taken + [p.queue[0]])
  }

  /** The queue holds only submitted jobs, so every step is defined. */
  predicate Defined(p: Pool) {
    forall i :: 0 <= i < |p.queue| ==> p.queue[i] < |p.tasks|
  }

  function Next(p: Pool, step: Step): Pool
    requires Enabled(p, step) && Defined(p)
  {
    match step
    case Submit => p.(tasks := p.tasks + [Task(Offered, false, 0, 0, false, false)])
    case Accept(j) => Change(p.(queue := p.queue + [j], accepted := p.accepted + [j]), j, p.tasks[j].(phase := Queued))
    case GiveUp(j, atDeadline) =>
      Change(p, j, Send(p.tasks[j].(phase := Refused, canceled := p.tasks[j].canceled || atDeadline)))
    case Full(j) => Change(p, j, p.tasks[j].(phase := Refused))
    case TimeOut(j) => Change(p, j, p.tasks[j].(canceled := true, gone := true))
    case TakeReply(j) => Change(p, j, p.tasks[j].(buffered := p.tasks[j].buffered - 1, gone := true))
    case Receive => Change(Popped(p), p.queue[0], p.tasks[p.queue[0]].(phase := Received))
    case Check(j) =>
      if p.tasks[j].canceled then Change(p, j, Send(p.tasks[j].(phase := Finished)))
      else Change(p, j, p.tasks[j].(phase := Running(false), ran := true))
    case Reply(j) => Change(p, j, Send(p.tasks[j].(phase := Running(true))))
    case Finish(j, outcome) =>
      var t := p.tasks[j].(phase := Finished);
      Change(p, j, if outcome.MainReplied? then t else Send(t))
    case Close => p.(closed := true)
    case Drain => Change(Popped(p), p.queue[0], Send(p.tasks[p.queue[0]].(phase := Finished)))
  }

  /** The job whose channel a step sends on. */
  function SendsTo(p: Pool, step: Step): Option<nat>
    requires Enabled(p, step)
  {
    match step
    case GiveUp(j, _) => Some(j)
    case Check(j) => if p.tasks[j].canceled then Some(j) else None
    case Reply(j) => Some(j)
    case Finish(j, outcome) => if outcome.MainReplied? then None else Some(j)
    case Drain => Some(p.queue[0])
    case _ => None
  }

  // ----- invariant -------------------------------------------------------------------------

  /** How many messages a job has been sent, by where it is. */
  predicate TaskOk(t: Task) {
    && t.buffered <= t.sent
    && (t.ran ==> t.phase.Running? || t.phase.Finished?)
    && match t.phase
       case Offered | Queued | Received => t.sent == 0
       case Refused => t.sent <= 1
       case Running(replied) => t.sent == (if replied then 1 else 0)
       case Finished => t.sent == 1
  }

  predicate Distinct(s: seq<nat>) {
    forall i, j :: 0 <= i < j < |s| ==> s[i] != s[j]
  }

  predicate Left(phase: Phase) {
    phase.Received? || phase.Running? || phase.Finished?
  }

  /** Accepted jobs leave in order, each once; the rest are queued. */
  ghost predicate PoolOk(p: Pool) {
    && (forall j :: 0 <= j < |p.tasks| ==> TaskOk(p.tasks[j]))
    && p.accepted == p.taken + p.queue
    && Distinct(p.accepted)
    && (forall i :: 0 <= i < |p.accepted| ==> p.accepted[i] < |p.tasks|)
    && (forall i :: 0 <= i < |p.queue| ==> p.queue[i] < |p.tasks| && p.tasks[p.queue[i]].phase.Queued?)
    && (forall i :: 0 <= i < |p.taken| ==> p.taken[i] < |p.tasks| && Left(p.tasks[p.taken[i]].phase))
    && |p.queue| <= p.capacity
  }

  /** A pool nobody has used yet. */
  function Unused(capacity: nat): (p: Pool)
    ensures PoolOk(p)
  {
    Pool([], [], capacity, false, [], [])
  }

  /** Changing a job neither in the queue nor taken, or keeping it where it is, keeps the lists in step. */
  lemma ChangeKeeps(p: Pool, j: nat, t: Task)
    requires PoolOk(p) && j < |p.tasks| && TaskOk(t)
    requires p.tasks[j].phase.Queued? ==> t.phase.Queued?
    requires Left(p.tasks[j].phase) ==> Left(t.phase)
    ensures PoolOk(Change(p, j, t))
  {
  }

  lemma OfferedIsNew(p: Pool, j: nat)
    requires PoolOk(p) && j < |p.tasks| && p.tasks[j].phase.Offered?
    ensures forall i :: 0 <= i < |p.accepted| ==> p.accepted[i] != j
  {
    assert forall i :: 0 <= i < |p.accepted| ==>
             p.accepted[i] == if i < |p.taken| then p.taken[i] else p.queue[i - |p.taken|];
  }

  lemma AcceptKeeps(p: Pool, j: nat)
    requires PoolOk(p) && Enabled(p, Accept(j))
    ensures PoolOk(Next(p, Accept(j)))
  {
    OfferedIsNew(p, j);
    var q := Next(p, Accept(j));
    assert q.accepted == q.taken + q.queue;
  }

  /** The first job leaves the queue and nothing else does. */
  lemma PoppedKeeps(p: Pool, t: Task)
    requires PoolOk(p) && p.queue != [] && TaskOk(t) && Left(t.phase)
    ensures PoolOk(Change(Popped(p), p.queue[0], t))
  {
    var q := Change(Popped(p), p.queue[0], t);
    var first := p.queue[0];
    assert q.accepted == q.taken + q.queue;
    forall i | 0 <= i < |q.queue| ensures q.queue[i] < |q.tasks| && q.tasks[q.queue[i]].phase.Queued? {
      assert q.queue[i] == p.queue[i + 1];
      assert p.accepted[|p.taken|] == first && p.accepted[|p.taken| + i + 1] == p.queue[i + 1];
    }
    forall i | 0 <= i < |q.taken| ensures q.taken[i] < |q.tasks| && Left(q.tasks[q.taken[i]].phase) {
      if i < |p.taken| { assert q.taken[i] == p.taken[i]; }
    }
  }

  lemma StepKeeps(p: Pool, step: Step)
    requires PoolOk(p) && Enabled(p, step)
    ensures PoolOk(Next(p, step))
  {
    match step
    case Submit =>
    case Accept(j) => AcceptKeeps(p, j);
    case GiveUp(j, atDeadline) =>
      ChangeKeeps(p, j, Send(p.tasks[j].(phase := Refused, canceled := p.tasks[j].canceled || atDeadline)));
    case Full(j) => ChangeKeeps(p, j, p.tasks[j].(phase := Refused));
    case TimeOut(j) => ChangeKeeps(p, j, p.tasks[j].(canceled := true, gone := true));
    case TakeReply(j) => ChangeKeeps(p, j, p.tasks[j].(buffered := p.tasks[j].buffered - 1, gone := true));
    case Receive => PoppedKeeps(p, p.tasks[p.queue[0]].(phase := Received));
    case Check(j) =>
      ChangeKeeps(p, j, if p.tasks[j].canceled then Send(p.tasks[j].(phase := Finished))
                        else p.tasks[j].(phase := Running(false), ran := true));
    case Reply(j) => ChangeKeeps(p, j, Send(p.tasks[j].(phase := Running(true))));
    case Finish(j, outcome) =>
      var t := p.tasks[j].(phase := Finished);
      ChangeKeeps(p, j, if outcome.MainReplied? then t else Send(t));
    case Close =>
    case Drain => PoppedKeeps(p, Send(p.tasks[p.queue[0]].(phase := Finished)));
  }

  // ----- runs ------------------------------------------------------------------------------

  /** The steps can happen one after the other. */
  ghost predicate Runs(p: Pool, steps: seq<Step>)
    requires PoolOk(p)
    decreases |steps|
  {
    steps != [] ==> Enabled(p, steps[0]) && (StepKeeps(p, steps[0]); Runs(Next(p, steps[0]), steps[1..]))
  }

  ghost function After(p: Pool, steps: seq<Step>): (r: Pool)
    requires PoolOk(p) && Runs(p, steps)
    ensures PoolOk(r)
    decreases |steps|
  {
    if steps == [] then p
    else
      StepKeeps(p, steps[0]);
      After(Next(p, steps[0]), steps[1..])
  }

  /** No job has left the queue twice, and no job has got more messages than it should. */
  predicate Delivered(p: Pool) {
    && Distinct(p.taken) && p.taken <= p.accepted
    && (forall j :: 0 <= j < |p.tasks| ==> p.tasks[j].sent <= 1)
    && (forall j :: 0 <= j < |p.tasks| && p.tasks[j].phase.Finished? ==> p.tasks[j].sent == 1)
  }

  lemma OkIsDelivered(p: Pool)
    requires PoolOk(p)
    ensures Delivered(p)
  {
    assert forall i :: 0 <= i < |p.taken| ==> p.taken[i] == p.accepted[i];
    forall j | 0 <= j < |p.tasks| ensures p.tasks[j].sent <= 1 {
      assert TaskOk(p.tasks[j]);
    }
  }

  /**
   In every interleaving: no job leaves the queue twice and they leave in the order accepted; a job
   never gets more than one message, and has got exactly one when it is finished.
   */
  lemma DeliveredOnce(capacity: nat, steps: seq<Step>)
    requires Runs(Unused(capacity), steps)
    ensures Delivered(After(Unused(capacity), steps))
  {
    OkIsDelivered(After(Unused(capacity), steps));
  }

  /** No send ever waits: whichever step comes next, the channel it sends on is empty. */
  lemma NoSendBlocks(p: Pool, step: Step)
    requires PoolOk(p) && Enabled(p, step) && SendsTo(p, step).Some?
    ensures !Blocked(p.tasks[SendsTo(p, step).value]) && p.tasks[SendsTo(p, step).value].sent == 0
  {
    var j := SendsTo(p, step).value;
    assert TaskOk(p.tasks[j]);
  }

  /** A job cancelled before a worker has looked at its flag. */
  predicate Doomed(t: Task) {
    t.canceled && !t.ran && !t.phase.Running?
  }

  lemma StaysDoomed(p: Pool, step: Step, j: nat)
    requires PoolOk(p) && Enabled(p, step) && j < |p.tasks| && Doomed(p.tasks[j])
    ensures j < |Next(p, step).tasks| && Doomed(Next(p, step).tasks[j])
  {
  }

  /** Such a job is never run, whatever happens afterwards. */
  lemma {:induction false} CanceledNeverRuns(p: Pool, steps: seq<Step>, j: nat)
    requires PoolOk(p) && Runs(p, steps) && j < |p.tasks| && Doomed(p.tasks[j])
    ensures j < |After(p, steps).tasks| && !After(p, steps).tasks[j].ran
    decreases |steps|
  {
    if steps != [] {
      StepKeeps(p, steps[0]);
      StaysDoomed(p, steps[0], j);
      CanceledNeverRuns(Next(p, steps[0]), steps[1..], j);
    }
  }

  /** No worker has looked at the job's flag yet. */
  predicate Unseen(phase: Phase) {
    phase.Offered? || phase.Queued? || phase.Received?
  }

  /**
   A caller that gives up waiting, or whose job could not be enqueued by its deadline, cancels the job:
   if no worker has looked at it by then, it is never run, whatever happens afterwards.
   */
  lemma TimedOutNeverRuns(p: Pool, step: Step, steps: seq<Step>, j: nat)
    requires PoolOk(p) && Runs(p, [step] + steps) && j < |p.tasks| && Unseen(p.tasks[j].phase)
    requires step == TimeOut(j) || step == GiveUp(j, true)
    ensures var q := After(p, [step] + steps); j < |q.tasks| && !q.tasks[j].ran
  {
    var all := [step] + steps;
    assert all[0] == step && all[1..] == steps;
    assert TaskOk(p.tasks[j]);
    StepKeeps(p, step);
    CanceledNeverRuns(Next(p, step), steps, j);
  }

  lemma StaysRefused(p: Pool, step: Step, j: nat)
    requires PoolOk(p) && Enabled(p, step) && j < |p.tasks| && p.tasks[j].phase.Refused?
    ensures j < |Next(p, step).tasks| && Next(p, step).tasks[j].phase.Refused?
    ensures Next(p, step).tasks[j].ran == p.tasks[j].ran
  {
  }

  /** A job that was refused, because the queue was full or its caller gave up offering it, is never run. */
  lemma {:induction false} RefusedNeverRuns(p: Pool, steps: seq<Step>, j: nat)
    requires PoolOk(p) && Runs(p, steps) && j < |p.tasks| && p.tasks[j].phase.Refused?
    ensures j < |After(p, steps).tasks| && !After(p, steps).tasks[j].ran
    decreases |steps|
  {
    assert TaskOk(p.tasks[j]);
    if steps != [] {
      StepKeeps(p, steps[0]);
      StaysRefused(p, steps[0], j);
      RefusedNeverRuns(Next(p, steps[0]), steps[1..], j);
    }
  }

  // ----- nothing is forgotten --------------------------------------------------------------

  /**
   A job that was neither cancelled nor left over in a closing pool has been run by the time it is
   finished, and a caller that still listens finds every message sent to it.
   */
  predicate Attended(t: Task, closed: bool) {
    && (t.phase.Running? ==> t.ran)
    && (t.phase.Finished? ==> t.ran || t.canceled || closed)
    && (!t.gone ==> t.buffered == t.sent)
  }

  predicate AllAttended(p: Pool) {
    forall j :: 0 <= j < |p.tasks| ==> Attended(p.tasks[j], p.closed)
  }

  lemma StepAttends(p: Pool, step: Step)
    requires PoolOk(p) && AllAttended(p) && Enabled(p, step)
    ensures AllAttended(Next(p, step))
  {
    match step
    case Submit =>
    case Accept(j) => assert Attended(p.tasks[j], p.closed);
    case GiveUp(j, _) => assert Attended(p.tasks[j], p.closed);
    case Full(j) => assert Attended(p.tasks[j], p.closed);
    case TimeOut(j) => assert Attended(p.tasks[j], p.closed);
    case TakeReply(j) => assert Attended(p.tasks[j], p.closed);
    case Receive => assert Attended(p.tasks[p.queue[0]], p.closed);
    case Check(j) => assert Attended(p.tasks[j], p.closed);
    case Reply(j) => assert Attended(p.tasks[j], p.closed);
    case Finish(j, _) => assert Attended(p.tasks[j], p.closed);
    case Close =>
    case Drain => assert Attended(p.tasks[p.queue[0]], p.closed);
  }

  lemma {:induction false} RunAttends(p: Pool, steps: seq<Step>)
    requires PoolOk(p) && AllAttended(p) && Runs(p, steps)
    ensures AllAttended(After(p, steps))
    decreases |steps|
  {
    if steps != [] {
      StepKeeps(p, steps[0]);
      StepAttends(p, steps[0]);
      RunAttends(Next(p, steps[0]), steps[1..]);
    }
  }

  /**
   In every interleaving: a finished job was run unless it was cancelled or the pool closed, and its
   one message is there for a caller that still listens.
   */
  lemma NoJobForgotten(capacity: nat, steps: seq<Step>, j: nat)
    requires Runs(Unused(capacity), steps) && j < |After(Unused(capacity), steps).tasks|
    requires After(Unused(capacity), steps).tasks[j].phase.Finished?
    ensures var p := After(Unused(capacity), steps);
            && (p.tasks[j].ran || p.tasks[j].canceled || p.closed)
            && (!p.tasks[j].gone ==> p.tasks[j].buffered == 1 && Enabled(p, TakeReply(j)))
  {
    RunAttends(Unused(capacity), steps);
    var p := After(Unused(capacity), steps);
    assert Attended(p.tasks[j], p.closed) && TaskOk(p.tasks[j]);
  }

  // ----- a worker running a job ------------------------------------------------------------

  /** The steps on `j` that only the worker running it takes. */
  predicate OfWorker(step: Step, j: nat) {
    (step.Check? || step.Reply? || step.Finish?) && step.job == j
  }

  predicate Foreign(steps: seq<Step>, j: nat) {
    forall i :: 0 <= i < |steps| ==> !OfWorker(steps[i], j)
  }

  lemma ForeignStep(p: Pool, step: Step, j: nat)
    requires PoolOk(p) && Enabled(p, step) && j < |p.tasks| && Left(p.tasks[j].phase) && !OfWorker(step, j)
    ensures var q := Next(p, step);
            j < |q.tasks| && q.tasks[j].phase == p.tasks[j].phase && q.tasks[j].sent == p.tasks[j].sent
  {
  }

  /** Whatever others do meanwhile, a job that has left the queue waits for its worker as it was. */
  lemma {:induction false} ForeignKeeps(p: Pool, steps: seq<Step>, j: nat)
    requires PoolOk(p) && Runs(p, steps) && Foreign(steps, j) && j < |p.tasks| && Left(p.tasks[j].phase)
    ensures var q := After(p, steps);
            j < |q.tasks| && q.tasks[j].phase == p.tasks[j].phase && q.tasks[j].sent == p.tasks[j].sent
    decreases |steps|
  {
    if steps != [] {
      StepKeeps(p, steps[0]);
      assert !OfWorker(steps[0], j);
      ForeignStep(p, steps[0], j);
      ForeignKeeps(Next(p, steps[0]), steps[1..], j);
    }
  }

  /** What a worker relies on when it acts on a run of the runtime. */
  predicate Disciplined(r: Ran) {
    r.replies <= 1 && (r.outcome == MainReplied <==> r.replies == 1)
  }

  /** The early reply of a run can be sent, and leaves the job marked so. */
  lemma ReplyServes(p: Pool, j: nat)
    requires PoolOk(p) && j < |p.tasks| && p.tasks[j].phase == Running(false)
    ensures Enabled(p, Reply(j)) && PoolOk(Next(p, Reply(j))) && Next(p, Reply(j)).tasks[j].phase == Running(true)
  {
    StepKeeps(p, Reply(j));
  }

  /** The end of a run can be acted on, and leaves the job finished with its one message. */
  lemma FinishServes(p: Pool, j: nat, r: Ran)
    requires PoolOk(p) && j < |p.tasks| && p.tasks[j].phase == Running(r.replies == 1) && Disciplined(r)
    ensures Enabled(p, Finish(j, r.outcome)) && PoolOk(Next(p, Finish(j, r.outcome)))
    ensures Next(p, Finish(j, r.outcome)).tasks[j].phase == Finished && Next(p, Finish(j, r.outcome)).tasks[j].sent == 1
  {
    StepKeeps(p, Finish(j, r.outcome));
    assert TaskOk(Next(p, Finish(j, r.outcome)).tasks[j]);
  }

  /**
   The guards of `Reply` and `Finish` are what the runtime guarantees. For every run of a job on a
   ready runtime, with any steps of others before its early reply and before its end, the worker can
   send that reply if the runtime makes one, can act on the outcome, and the job then has its one message.
   */
  lemma RuntimeDelivers(w: EventLoop.World, s: State, job: Job, p: Pool, j: nat, first: seq<Step>, second: seq<Step>)
    requires Clean(s) && PossibleJob(w, Timed(s.x, job), job) && RunSource(w, s, job).Some?
    requires PoolOk(p) && j < |p.tasks| && p.tasks[j].phase == Running(false)
    requires Runs(p, first) && Foreign(first, j) && Foreign(second, j)
    ensures var r, p1 := RunSource(w, s, job).value, After(p, first);
            && (r.replies == 1 ==> Enabled(p1, Reply(j)) && PoolOk(Next(p1, Reply(j))))
            && var p2 := if r.replies == 1 then Next(p1, Reply(j)) else p1;
               Runs(p2, second) ==>
                 && Enabled(After(p2, second), Finish(j, r.outcome))
                 && Next(After(p2, second), Finish(j, r.outcome)).tasks[j].phase == Finished
                 && Next(After(p2, second), Finish(j, r.outcome)).tasks[j].sent == 1
  {
    var r, p1 := RunSource(w, s, job).value, After(p, first);
    JobKeeps(w, s, job);
    ForeignKeeps(p, first, j);
    if r.replies == 1 { ReplyServes(p1, j); }
    var p2 := if r.replies == 1 then Next(p1, Reply(j)) else p1;
    if Runs(p2, second) {
      ForeignKeeps(p2, second, j);
      FinishServes(After(p2, second), j, r);
    }
  }

  // ----- finishing -------------------------------------------------------------------------

  /** The steps a worker still takes for a job in the given phase, if the runtime runs it as `r`. */
  function Remaining(t: Task, j: nat, r: Ran): seq<Step> {
    match t.phase
    case Received => if t.canceled then [Check(j)] else [Check(j)] + Served(j, r)
    case Running(replied) => if replied then [Finish(j, r.outcome)] else Served(j, r)
    case _ => []
  }

  function Served(j: nat, r: Ran): seq<Step> {
    if r.replies == 1 then [Reply(j), Finish(j, r.outcome)] else [Finish(j, r.outcome)]
  }

  lemma OneStep(p: Pool, step: Step)
    requires PoolOk(p) && Enabled(p, step)
    ensures PoolOk(Next(p, step)) && Runs(p, [step]) && After(p, [step]) == Next(p, step)
  {
    StepKeeps(p, step);
    assert [step][1..] == [];
  }

  lemma FirstStep(p: Pool, step: Step, rest: seq<Step>)
    requires PoolOk(p) && Enabled(p, step) && PoolOk(Next(p, step)) && Runs(Next(p, step), rest)
    ensures Runs(p, [step] + rest) && After(p, [step] + rest) == After(Next(p, step), rest)
  {
    assert ([step] + rest)[1..] == rest;
  }

  lemma ServedFinishes(p: Pool, j: nat, r: Ran)
    requires PoolOk(p) && j < |p.tasks| && p.tasks[j].phase == Running(false) && Disciplined(r)
    ensures Runs(p, Served(j, r)) && j < |After(p, Served(j, r)).tasks|
    ensures After(p, Served(j, r)).tasks[j].phase == Finished && After(p, Served(j, r)).tasks[j].sent == 1
  {
    if r.replies == 1 {
      ReplyServes(p, j);
      var q := Next(p, Reply(j));
      FinishServes(q, j, r);
      OneStep(q, Finish(j, r.outcome));
      FirstStep(p, Reply(j), [Finish(j, r.outcome)]);
      assert Served(j, r) == [Reply(j)] + [Finish(j, r.outcome)];
    } else {
      FinishServes(p, j, r);
      OneStep(p, Finish(j, r.outcome));
    }
  }

  lemma CheckedFinishes(p: Pool, j: nat, r: Ran)
    requires PoolOk(p) && j < |p.tasks| && p.tasks[j].phase.Received? && Disciplined(r)
    ensures var steps := Remaining(p.tasks[j], j, r);
            && Runs(p, steps) && j < |After(p, steps).tasks|
            && After(p, steps).tasks[j].phase == Finished && After(p, steps).tasks[j].sent == 1
  {
    OneStep(p, Check(j));
    var q := Next(p, Check(j));
    if p.tasks[j].canceled {
      assert TaskOk(q.tasks[j]);
    } else {
      ServedFinishes(q, j, r);
      FirstStep(p, Check(j), Served(j, r));
    }
  }

  /**
   Every job that has left the queue is finished with its one message after at most three more steps
   of its worker, however the runtime runs it.
   */
  lemma TakenJobsFinish(p: Pool, i: nat, r: Ran)
    requires PoolOk(p) && i < |p.taken| && Disciplined(r)
    requires p.tasks[p.taken[i]].phase == Running(true) ==> r.replies == 1
    ensures var j := p.taken[i];
            var steps := Remaining(p.tasks[j], j, r);
            && |steps| <= 3 && Runs(p, steps) && j < |After(p, steps).tasks|
            && After(p, steps).tasks[j].phase == Finished && After(p, steps).tasks[j].sent == 1
  {
    var j := p.taken[i];
    match p.tasks[j].phase
    case Received => CheckedFinishes(p, j, r);
    case Running(replied) =>
      if replied {
        FinishServes(p, j, r);
        OneStep(p, Finish(j, r.outcome));
      } else {
        ServedFinishes(p, j, r);
      }
    case Finished => assert TaskOk(p.tasks[j]);
    case _ =>
  }

  // ----- the drain loop --------------------------------------------------------------------

  /** The pool once every queued job is taken out and told so. */
  function Drained(p: Pool): Pool
    requires Defined(p) && p.closed
    decreases |p.queue|
  {
    if p.queue == [] then p else Drained(Next(p, Drain))
  }

  /** The drain loop of a closing pool */
  method DrainQueue(p: Pool) returns (q: Pool)
    requires PoolOk(p) && p.closed
    ensures q == Drained(p)
  {
    q := p;
    while q.queue != []
      invariant PoolOk(q) && q.closed && Drained(q) == Drained(p)
      decreases |q.queue|
    {
      StepKeeps(q, Drain);
      q := Next(q, Drain);
    }
  }

  /** Closing the pool leaves no job queued, and each job it takes out gets its one message. */
  lemma {:induction false} DrainedOk(p: Pool)
    requires PoolOk(p) && p.closed
    ensures var d := Drained(p);
            && PoolOk(d) && d.queue == [] && d.taken == p.taken + p.queue && |d.tasks| == |p.tasks|
            && forall i :: 0 <= i < |p.queue| ==> d.tasks[p.queue[i]].sent == 1
    decreases |p.queue|
  {
    if p.queue == [] {
      assert p.taken + [] == p.taken;
    } else {
      StepKeeps(p, Drain);
      DrainedOk(Next(p, Drain));
      var d := Drained(p);
      assert p.taken + [p.queue[0]] + p.queue[1..] == p.taken + p.queue;
      assert d.accepted == d.taken + d.queue;
      forall i | 0 <= i < |p.queue| ensures d.tasks[p.queue[i]].sent == 1 {
        assert d.taken[|p.taken| + i] == p.queue[i];
        if i > 0 {
          assert p.queue[i] == p.queue[1..][i - 1];
        } else {
          DrainedLeaves(Next(p, Drain), p.queue[0]);
        }
      }
    }
  }

  /** Draining does not touch a job that is not queued. */
  lemma {:induction false} DrainedLeaves(p: Pool, j: nat)
    requires PoolOk(p) && p.closed && j < |p.tasks| && !p.tasks[j].phase.Queued?
    ensures j < |Drained(p).tasks| && Drained(p).tasks[j] == p.tasks[j]
    decreases |p.queue|
  {
    if p.queue != [] {
      StepKeeps(p, Drain);
      DrainedLeaves(Next(p, Drain), j);
    }
  }
}
