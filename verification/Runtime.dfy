/** Running one job on a script runtime: setup, the early reply, and the cleanup that separates jobs. */
module Runtime {
  import opened Wrappers
  import opened EventLoop
  import opened LoopSafety
  import opened LoopRuns
  import opened LoopWaits
  import opened Executor

  // ----- the job ---------------------------------------------------------------------------

  datatype Settlement = Pending | Fulfilled | Rejected

  /** What the engine reports about promise rejections. */
  datatype Operation = Reject | Handle

  /** What the outside does in one job, stage by stage. */
  datatype Job = Job(
    endpointsOk: bool, limit: nat, realmOk: bool,
    parses: bool, evaluate: seq<Act>, operations: seq<Operation>, evalTurns: seq<Turn>, evaluated: Settlement,
    argumentOk: bool, hasMain: bool, main: seq<Act>, mainThrows: bool, tailTurns: seq<Turn>)

  datatype Reason =
    | BadEndpoint | LimitTooLarge | NoRealm | ParseError | LoopError | TimedOut | EvaluationPending
    | EvaluationRejected | UnhandledRejection | BadArgument | NoMain | MainThrew | MainPending | NoMainResult

  /** `RunSourceOutcome` */
  datatype Outcome = MainReplied | MainNotReplied(why: Reason)

  /** The runtime between jobs: its queue and the count of unhandled rejections. */
  datatype State = State(x: Exec, rejections: nat)

  /** `compute_deadline`: milliseconds from now, if they fit a `u64` */
  function ComputeDeadline(now: nat, limit: nat): Option<nat> {
    CheckedAdd(now, limit)
  }

  function Tracked(pending: nat, ops: seq<Operation>): nat
    decreases |ops|
  {
    if ops == [] then pending
    else Tracked(if ops[0].Reject? then pending + 1 else if pending > 0 then pending - 1 else 0, ops[1..])
  }

  function Watching(x: Exec): Loop {
    Loop(x, [], 0, false, 0)
  }

  // ----- the script ------------------------------------------------------------------------

  /** How the script part ended: the loop, the replies sent, and its error if any; `running` if it has not. */
  datatype Script = Script(l: Loop, error: Option<Reason>, running: bool)

  /** Loading and evaluating the module. */
  function Evaluation(w: World, x: Exec, job: Job): Step {
    Run(w, Watching(ApplyAll(x, job.evaluate)), job.evalTurns, false)
  }

  /** Why the job cannot go on to call its main function. */
  function Obstacle(l: Loop, rejections: nat, job: Job): Option<Reason> {
    match job.evaluated
    case Pending => Some(EvaluationPending)
    case Rejected => Some(EvaluationRejected)
    case Fulfilled =>
      if Tracked(rejections, job.operations) > 0 then Some(UnhandledRejection)
      else if !job.argumentOk then Some(BadArgument)
      else if !job.hasMain then Some(NoMain)
      else None
  }

  /** Calling main: its promise starts out unsettled, and is settled by what the call does. */
  function Called(x: Exec, job: Job): Exec {
    ApplyAll(x.(c := x.c.(settled := false)), job.main)
  }

  function Tail(w: World, x: Exec, job: Job): Step {
    Run(w, Watching(Called(x, job)), job.tailTurns, true)
  }

  /** How the tail loop leaves the script. */
  function AfterTail(r: Step): Script {
    match r
    case Continue(l) => Script(l, None, true)
    case Done(l, exit) =>
      if exit.Failed? then Script(l, Some(LoopError), false)
      else if l.replies == 0 && !l.x.c.settled then Script(l, Some(MainPending), false)
      else Script(l, None, false)
  }

  /** The script from its main function on. */
  function MainScript(w: World, x: Exec, job: Job): Script {
    if job.mainThrows then Script(Watching(Called(x, job)), Some(MainThrew), false) else AfterTail(Tail(w, x, job))
  }

  function AfterEvaluation(w: World, r: Step, rejections: nat, job: Job): Script {
    match r
    case Continue(l) => Script(l, None, true)
    case Done(l, exit) =>
      if exit.Failed? then Script(l, Some(LoopError), false)
      else if exit.DeadlineExceeded? then Script(l, Some(TimedOut), false)
      else if Obstacle(l, rejections, job).Some? then Script(l, Obstacle(l, rejections, job), false)
      else MainScript(w, l.x, job)
  }

  function RunScript(w: World, x: Exec, rejections: nat, job: Job): Script {
    if !job.parses then Script(Watching(x), Some(ParseError), false)
    else AfterEvaluation(w, Evaluation(w, x, job), rejections, job)
  }

  // ----- the whole job ---------------------------------------------------------------------

  function SetupError(x: Exec, job: Job): Option<Reason> {
    if !job.endpointsOk then Some(BadEndpoint)
    else if ComputeDeadline(x.c.now, job.limit).None? then Some(LimitTooLarge)
    else if !job.realmOk then Some(NoRealm)
    else None
  }

  function Timed(x: Exec, job: Job): Exec {
    x.(q := x.q.(deadline := ComputeDeadline(x.c.now, job.limit)))
  }

  /** One job, run to its end: the runtime afterwards, the outcome, and the replies sent early. */
  datatype Ran = Ran(state: State, outcome: Outcome, replies: nat)

  function OutcomeOf(s: Script): Outcome {
    if s.l.replies > 0 then MainReplied
    else if s.error.Some? then MainNotReplied(s.error.value)
    else MainNotReplied(NoMainResult)
  }

  /** The cleanup and the outcome, once the script has ended. */
  function Finished(script: Script): Option<Ran> {
    if script.running then None
    else Some(Ran(State(Cleared(script.l.x, script.l.group), 0), OutcomeOf(script), script.l.replies))
  }

  /** `run_source_with_early_reply`; none while the job is still running. */
  function RunSource(w: World, s: State, job: Job): Option<Ran> {
    if SetupError(s.x, job).Some? then Some(Ran(State(s.x, 0), MainNotReplied(SetupError(s.x, job).value), 0))
    else Finished(RunScript(w, Timed(s.x, job), 0, job))
  }

  // ----- what the outside can do -----------------------------------------------------------

  predicate PossibleJob(w: World, x: Exec, job: Job) {
    && AllPossible(w, Watching(ApplyAll(x, job.evaluate)), job.evalTurns, false)
    && (Evaluation(w, x, job).Done? ==> AllPossible(w, Watching(Called(Evaluation(w, x, job).l.x, job)), job.tailTurns, true))
  }

  // ----- invariants ------------------------------------------------------------------------

  /** A runtime ready for its next job: nothing queued, no deadline, no rejection counted. */
  ghost predicate Clean(s: State) {
    s.x.q == Queues([], [], [], [], None) && s.rejections == 0 && Inv(s.x, [], [], [])
  }

  lemma WatchingInv(x: Exec, acts: seq<Act>)
    requires Inv(x, [], [], [])
    ensures LoopInv(Watching(ApplyAll(x, acts)))
  {
    ApplyAllKeeps(x, acts, [], [], []);
  }

  lemma EvaluationKeeps(w: World, x: Exec, job: Job)
    requires Inv(x, [], [], []) && AllPossible(w, Watching(ApplyAll(x, job.evaluate)), job.evalTurns, false)
    ensures var r := Evaluation(w, x, job);
            && Inv(r.l.x, [], [], r.l.group) && Advances(x, r.l.x)
            && r.l.replies == 0 && (r.Done? && r.exit.Complete? ==> r.l.group == [])
  {
    var l := Watching(ApplyAll(x, job.evaluate));
    WatchingInv(x, job.evaluate);
    ApplyAllFollows(x, job.evaluate);
    RunKeeps(w, l, job.evalTurns, false);
    RunAdvances(w, l, job.evalTurns, false);
    NeverStops(w, l, job.evalTurns);
  }

  lemma TurnNeverStops(w: World, l: Loop, t: Turn)
    ensures Turned(w, l, t, false).l.replies == l.replies
  {
    var ready := AtWait(AtCheck(l, t, false), t);
    assert ready.replies == l.replies && Waited(ready, t).replies == l.replies;
  }

  /** A loop that watches nothing never replies. */
  lemma {:induction false} NeverStops(w: World, l: Loop, turns: seq<Turn>)
    ensures Run(w, l, turns, false).l.replies == l.replies
    decreases |turns|
  {
    if turns != [] {
      TurnNeverStops(w, l, turns[0]);
      var r := Turned(w, l, turns[0], false);
      if r.Continue? { NeverStops(w, r.l, turns[1..]); }
    }
  }

  lemma UnsettledInv(x: Exec)
    requires Inv(x, [], [], [])
    ensures Inv(x.(c := x.c.(settled := false)), [], [], [])
  {
  }

  lemma TailKeeps(w: World, x: Exec, job: Job)
    requires Inv(x, [], [], []) && AllPossible(w, Watching(Called(x, job)), job.tailTurns, true)
    ensures LoopInv(Watching(Called(x, job))) && Grows(x.h, Called(x, job).h)
    ensures var r := Tail(w, x, job);
            && Inv(r.l.x, [], [], r.l.group) && Grows(x.h, r.l.x.h)
            && r.l.replies <= 1 && (r.Done? ==> ExitOk(r.l, r.exit, true))
  {
    var unsettled := x.(c := x.c.(settled := false));
    var l := Watching(Called(x, job));
    UnsettledInv(x);
    WatchingInv(unsettled, job.main);
    ApplyAllFollows(unsettled, job.main);
    RunKeeps(w, l, job.tailTurns, true);
    RunAdvances(w, l, job.tailTurns, true);
  }

  /** What the script part keeps, from the state it began in. */
  ghost predicate ScriptOk(x: Exec, s: Script) {
    Inv(s.l.x, [], [], s.l.group) && Grows(x.h, s.l.x.h) && s.l.replies <= 1
  }

  lemma MainScriptKeeps(w: World, x: Exec, job: Job)
    requires Inv(x, [], [], []) && AllPossible(w, Watching(Called(x, job)), job.tailTurns, true)
    ensures ScriptOk(x, MainScript(w, x, job))
  {
    TailKeeps(w, x, job);
    if job.mainThrows {
      assert MainScript(w, x, job).l == Watching(Called(x, job));
    } else {
      assert MainScript(w, x, job).l == Tail(w, x, job).l;
    }
  }

  lemma ScriptOkLater(x: Exec, y: Exec, s: Script)
    requires Grows(x.h, y.h) && ScriptOk(y, s)
    ensures ScriptOk(x, s)
  {
  }

  lemma AfterEvaluationKeeps(w: World, x: Exec, r: Step, rejections: nat, job: Job)
    requires Inv(r.l.x, [], [], r.l.group) && Grows(x.h, r.l.x.h) && r.l.replies == 0
    requires r.Done? && r.exit.Complete? ==> r.l.group == []
    requires r.Done? ==> AllPossible(w, Watching(Called(r.l.x, job)), job.tailTurns, true)
    ensures ScriptOk(x, AfterEvaluation(w, r, rejections, job))
  {
    if r.Done? && r.exit.Complete? && Obstacle(r.l, rejections, job).None? {
      MainScriptKeeps(w, r.l.x, job);
      ScriptOkLater(x, r.l.x, MainScript(w, r.l.x, job));
      assert AfterEvaluation(w, r, rejections, job) == MainScript(w, r.l.x, job);
    } else {
      assert AfterEvaluation(w, r, rejections, job).l == r.l;
    }
  }

  lemma ScriptKeeps(w: World, x: Exec, rejections: nat, job: Job)
    requires Inv(x, [], [], []) && PossibleJob(w, x, job)
    ensures ScriptOk(x, RunScript(w, x, rejections, job))
  {
    EvaluationKeeps(w, x, job);
    AfterEvaluationKeeps(w, x, Evaluation(w, x, job), rejections, job);
  }

  lemma ClearedKeeps(x: Exec, group: seq<nat>)
    requires Inv(x, [], [], group)
    ensures Inv(Cleared(x, group), [], [], [])
  {
    var y := Cleared(x, group);
    SortedWithout(x.h.fired + [], Flat(x.q.timeoutJobs), []);
    ProperWithout(x.h.fired + [], Flat(x.q.timeoutJobs), [], x.c.nextId);
    assert x.h.fired + [] + Flat(x.q.timeoutJobs) + [] == x.h.fired + [] + Flat(x.q.timeoutJobs);
    assert x.h.promises + [] + x.q.promiseJobs + [] == x.h.promises + [] + x.q.promiseJobs;
    RisingWithout(x.h.promises + [], x.q.promiseJobs, [], x.c.nextId);
    assert x.h.generics + TaskIds(x.q.genericJobs) + [] == x.h.generics + TaskIds(x.q.genericJobs);
    RisingWithout(x.h.generics, TaskIds(x.q.genericJobs), [], x.c.nextId);
    ClearedKeepsIds(x, group);
  }

  lemma ClearedKeepsIds(x: Exec, group: seq<nat>)
    requires Conserved(x, multiset(TimerIds([])) + multiset([]) + multiset(group))
    ensures Conserved(Cleared(x, group), multiset(TimerIds([])) + multiset([]) + multiset([]))
  {
    var y := Cleared(x, group);
    assert multiset(y.h.dropped) == multiset(x.h.dropped) + Held(x.q) + multiset(group);
    assert Held(y.q) == multiset{};
  }

  lemma TimedInv(x: Exec, job: Job)
    requires Inv(x, [], [], [])
    ensures Inv(Timed(x, job), [], [], [])
  {
  }

  // ----- the early reply -------------------------------------------------------------------

  lemma FinishedKeeps(x: Exec, script: Script)
    requires ScriptOk(x, script) && Finished(script).Some?
    ensures var r := Finished(script).value;
            r.replies <= 1 && (r.outcome == MainReplied <==> r.replies == 1) && Clean(r.state)
  {
    ClearedKeeps(script.l.x, script.l.group);
  }

  /**
   The reply is sent at most once, and the outcome says that it was exactly when it was; afterwards
   the runtime is ready for the next job, however this one ended.
   */
  lemma JobKeeps(w: World, s: State, job: Job)
    requires Clean(s) && PossibleJob(w, Timed(s.x, job), job) && RunSource(w, s, job).Some?
    ensures var r := RunSource(w, s, job).value;
            r.replies <= 1 && (r.outcome == MainReplied <==> r.replies == 1) && Clean(r.state)
  {
    if SetupError(s.x, job).None? {
      TimedInv(s.x, job);
      ScriptKeeps(w, Timed(s.x, job), 0, job);
      FinishedKeeps(Timed(s.x, job), RunScript(w, Timed(s.x, job), 0, job));
    }
  }

  /** The job gets as far as calling its main function, and that returns. */
  predicate MainReturns(w: World, s: State, job: Job) {
    && SetupError(s.x, job).None? && job.parses
    && var e := Evaluation(w, Timed(s.x, job), job);
       e.Done? && e.exit.Complete? && Obstacle(e.l, 0, job).None? && !job.mainThrows
  }

  /** The tail loop of such a job as it begins. */
  function TailStart(w: World, s: State, job: Job): Loop {
    Watching(Called(Evaluation(w, Timed(s.x, job), job).l.x, job))
  }

  lemma AfterTailOutcome(r: Step)
    requires r.Done?
    ensures OutcomeOf(AfterTail(r)) == MainNotReplied(NoMainResult) <==> Unanswered(r)
  {
  }

  lemma NoMainBefore(w: World, r: Step, rejections: nat, job: Job)
    requires r.l.replies == 0
    requires !(r.Done? && r.exit.Complete? && Obstacle(r.l, rejections, job).None? && !job.mainThrows)
    ensures var script := AfterEvaluation(w, r, rejections, job);
            !script.running ==> OutcomeOf(script) != MainNotReplied(NoMainResult)
  {
  }

  /**
   A job ends with neither error nor reply exactly if its main function returns and its tail loop comes
   to a late turn: one that begins with main pending, in which a polled future settles main, and whose
   second deadline check finds the deadline passed.
   */
  lemma NoMainResultMeans(w: World, s: State, job: Job)
    requires RunSource(w, s, job).Some?
    ensures RunSource(w, s, job).value.outcome == MainNotReplied(NoMainResult) <==>
            MainReturns(w, s, job) && EndsLate(w, TailStart(w, s, job), job.tailTurns)
  {
    if SetupError(s.x, job).None? && job.parses {
      var e := Evaluation(w, Timed(s.x, job), job);
      NeverStops(w, Watching(ApplyAll(Timed(s.x, job), job.evaluate)), job.evalTurns);
      if MainReturns(w, s, job) {
        UnansweredRun(w, TailStart(w, s, job), job.tailTurns);
        AfterTailOutcome(Tail(w, e.l.x, job));
      } else {
        NoMainBefore(w, e, 0, job);
      }
    }
  }

  /** A job that does nothing but call an async function which settles its result at the deadline. */
  function LateJob(): Job {
    var quiet := Turn([], 0, 0, [], Nothing, 0, 0, 0);
    var late := Turn([], 0, 0, [Settle, Pass(MS)], Awaited.Finished(0), 0, 0, 0);
    Job(true, MS, true, true, [], [], [quiet], Fulfilled, true, true, [Enqueue(Async)], false, [late])
  }

  lemma LateEvaluation(w: World)
    ensures Timed(Idle(0, None), LateJob()) == Idle(0, Some(MS))
    ensures Evaluation(w, Idle(0, Some(MS)), LateJob()) == Done(Watching(Idle(0, Some(MS))), Complete)
  {
    assert CheckedAdd(0, MS) == Some(MS);
    var l := Watching(Idle(0, Some(MS)));
    var t := LateJob().evalTurns[0];
    assert ApplyAll(Idle(0, Some(MS)), []) == Idle(0, Some(MS));
    assert AtCheck(l, t, false) == l && Started(l) == l;
  }

  /** That job really ends with neither error nor reply. */
  lemma NoMainResultHappens(w: World)
    ensures PossibleJob(w, Timed(Idle(0, None), LateJob()), LateJob())
    ensures var r := RunSource(w, State(Idle(0, None), 0), LateJob());
            r.Some? && r.value.outcome == MainNotReplied(NoMainResult) && r.value.replies == 0
  {
    var x, job := Idle(0, Some(MS)), LateJob();
    LateEvaluation(w);
    assert Watching(Called(x, job)) == Entered(0, Some(MS), [Enqueue(Async)]);
    UnansweredExitHappens(w);
    var t := job.tailTurns[0];
    assert Tail(w, x, job) == Turned(w, Entered(0, Some(MS), [Enqueue(Async)]), t, true);
    assert RunScript(w, x, 0, job) == AfterTail(Tail(w, x, job));
  }

  // ----- when main is called, and answered -------------------------------------------------

  /** Rejections reported without a handler, less those handled afterwards. */
  function Balance(ops: seq<Operation>): int {
    if ops == [] then 0 else (if ops[0].Reject? then 1 else -1) + Balance(ops[1..])
  }

  /** From some report on there are more rejections than handlings. */
  ghost predicate LeftUnhandled(ops: seq<Operation>) {
    exists k :: 0 <= k <= |ops| && Balance(ops[k..]) > 0
  }

  lemma {:induction false} CountedExactly(pending: nat, ops: seq<Operation>)
    ensures Tracked(pending, ops) > 0 <==> pending + Balance(ops) > 0 || LeftUnhandled(ops)
    decreases |ops|
  {
    assert ops[0..] == ops;
    if ops == [] {
      assert forall k :: 0 <= k <= |ops| ==> ops[k..] == [];
    } else {
      CountedExactly(if ops[0].Reject? then pending + 1 else if pending > 0 then pending - 1 else 0, ops[1..]);
      LaterUnhandled(ops);
    }
  }

  lemma LaterUnhandled(ops: seq<Operation>)
    requires ops != []
    ensures LeftUnhandled(ops) <==> Balance(ops) > 0 || LeftUnhandled(ops[1..])
  {
    assert ops[0..] == ops;
    if LeftUnhandled(ops[1..]) {
      var k :| 0 <= k <= |ops[1..]| && Balance(ops[1..][k..]) > 0;
      assert ops[k + 1..] == ops[1..][k..];
    }
    if LeftUnhandled(ops) {
      var k :| 0 <= k <= |ops| && Balance(ops[k..]) > 0;
      if k > 0 { assert ops[k..] == ops[1..][k - 1..]; }
    }
  }

  /** A rejection counts as unhandled exactly if some reports from one point on reject more than they handle. */
  lemma UnhandledMeans(ops: seq<Operation>)
    ensures Tracked(0, ops) > 0 <==> LeftUnhandled(ops)
  {
    CountedExactly(0, ops);
    assert ops[0..] == ops;
  }

  /** The job gets as far as calling its main function, said by what the outside does. */
  ghost predicate MainIsCalled(w: World, s: State, job: Job) {
    && job.endpointsOk && s.x.c.now / MS + job.limit / MS <= U64_MAX && job.realmOk && job.parses
    && var e := Evaluation(w, Timed(s.x, job), job);
       && e.Done? && e.exit.Complete?
       && job.evaluated == Fulfilled && !LeftUnhandled(job.operations) && job.argumentOk && job.hasMain
  }

  /** Some turn begins with main settled. */
  predicate Answers(w: World, l: Loop, turns: seq<Turn>)
    decreases |turns|
  {
    turns != [] &&
      (l.x.c.settled || (Turned(w, l, turns[0], true).Continue? && Answers(w, Turned(w, l, turns[0], true).l, turns[1..])))
  }

  lemma TurnReplies(w: World, l: Loop, t: Turn)
    requires RepliesOk(l)
    ensures var r := Turned(w, l, t, true).l;
            RepliesOk(r) && (r.stopped <==> l.stopped || l.x.c.settled)
  {
    var checked := AtCheck(l, t, true);
    var ready := AtWait(checked, t);
    assert ready.replies == checked.replies && ready.stopped == checked.stopped;
    assert Waited(ready, t).replies == ready.replies && Waited(ready, t).stopped == ready.stopped;
  }

  lemma {:induction false} RunReplies(w: World, l: Loop, turns: seq<Turn>)
    requires RepliesOk(l)
    ensures var r := Run(w, l, turns, true).l;
            RepliesOk(r) && (r.stopped <==> l.stopped || Answers(w, l, turns))
    decreases |turns|
  {
    if turns != [] {
      TurnReplies(w, l, turns[0]);
      var r := Turned(w, l, turns[0], true);
      if r.Continue? { RunReplies(w, r.l, turns[1..]); }
    }
  }

  lemma NotCalledMeans(w: World, s: State, job: Job)
    ensures MainIsCalled(w, s, job) <==>
            && SetupError(s.x, job).None? && job.parses
            && var e := Evaluation(w, Timed(s.x, job), job);
               e.Done? && e.exit.Complete? && Obstacle(e.l, 0, job).None?
  {
    UnhandledMeans(job.operations);
  }

  /**
   A job is answered exactly if its main function is called and returns, and some turn of its tail
   begins with main settled; how the tail ends does not matter.
   */
  lemma RepliedMeans(w: World, s: State, job: Job)
    requires RunSource(w, s, job).Some?
    ensures RunSource(w, s, job).value.outcome == MainReplied <==>
            MainIsCalled(w, s, job) && !job.mainThrows && Answers(w, TailStart(w, s, job), job.tailTurns)
  {
    NotCalledMeans(w, s, job);
    var e := Evaluation(w, Timed(s.x, job), job);
    NeverStops(w, Watching(ApplyAll(Timed(s.x, job), job.evaluate)), job.evalTurns);
    RunReplies(w, TailStart(w, s, job), job.tailTurns);
    if MainIsCalled(w, s, job) {
      assert RunScript(w, Timed(s.x, job), 0, job) == MainScript(w, e.l.x, job);
    }
  }

  /** The module of the job is evaluated to the end. */
  predicate IsEvaluated(w: World, s: State, job: Job) {
    && SetupError(s.x, job).None? && job.parses
    && var e := Evaluation(w, Timed(s.x, job), job); e.Done? && e.exit.Complete?
  }

  /** The outcome of a job that is not answered names the first stage it failed at. */
  lemma OutcomeNamesStage(w: World, s: State, job: Job)
    requires RunSource(w, s, job).Some?
    ensures var o, fits := RunSource(w, s, job).value.outcome, s.x.c.now / MS + job.limit / MS <= U64_MAX;
            var ready := job.endpointsOk && fits && job.realmOk;
            && (o == MainNotReplied(BadEndpoint) <==> !job.endpointsOk)
            && (o == MainNotReplied(LimitTooLarge) <==> job.endpointsOk && !fits)
            && (o == MainNotReplied(NoRealm) <==> job.endpointsOk && fits && !job.realmOk)
            && (o == MainNotReplied(ParseError) <==> ready && !job.parses)
            && (o == MainNotReplied(EvaluationPending) <==> IsEvaluated(w, s, job) && job.evaluated == Pending)
            && (o == MainNotReplied(EvaluationRejected) <==> IsEvaluated(w, s, job) && job.evaluated == Rejected)
            && (o == MainNotReplied(MainThrew) <==> MainIsCalled(w, s, job) && job.mainThrows)
  {
    NotCalledMeans(w, s, job);
    NeverStops(w, Watching(ApplyAll(Timed(s.x, job), job.evaluate)), job.evalTurns);
  }

  /** A job left with an unhandled rejection fails with it before its main function does anything. */
  lemma UnhandledStopsMain(w: World, s: State, job: Job)
    requires SetupError(s.x, job).None? && job.parses && job.evaluated == Fulfilled && LeftUnhandled(job.operations)
    requires var e := Evaluation(w, Timed(s.x, job), job); e.Done? && e.exit.Complete?
    ensures var e := Evaluation(w, Timed(s.x, job), job);
            RunSource(w, s, job) == Some(Ran(State(Cleared(e.l.x, e.l.group), 0), MainNotReplied(UnhandledRejection), 0))
  {
    UnhandledMeans(job.operations);
    NeverStops(w, Watching(ApplyAll(Timed(s.x, job), job.evaluate)), job.evalTurns);
  }

  /** A job is stopped by its deadline only when its whole limit has passed, in whole milliseconds. */
  lemma NeverCutShort(w: World, s: State, job: Job)
    requires Clean(s) && PossibleJob(w, Timed(s.x, job), job) && SetupError(s.x, job).None?
    ensures var e := Evaluation(w, Timed(s.x, job), job);
            e.Done? && e.exit.DeadlineExceeded? ==> e.l.x.c.now / MS >= s.x.c.now / MS + job.limit / MS
    ensures var r := Run(w, TailStart(w, s, job), job.tailTurns, true);
            MainReturns(w, s, job) && r.Done? && r.exit.DeadlineExceeded? ==>
              r.l.x.c.now / MS >= s.x.c.now / MS + job.limit / MS
  {
    var x := Timed(s.x, job);
    TimedInv(s.x, job);
    WatchingInv(x, job.evaluate);
    ApplyAllFollows(x, job.evaluate);
    RunKeeps(w, Watching(ApplyAll(x, job.evaluate)), job.evalTurns, false);
    RunAdvances(w, Watching(ApplyAll(x, job.evaluate)), job.evalTurns, false);
    if MainReturns(w, s, job) {
      var y := Evaluation(w, x, job).l.x;
      EvaluationKeeps(w, x, job);
      TailKeeps(w, y, job);
      ApplyAllFollows(y.(c := y.c.(settled := false)), job.main);
      RunAdvances(w, TailStart(w, s, job), job.tailTurns, true);
    }
  }

  // ----- isolation -------------------------------------------------------------------------

  lemma PrefixCount(a: seq<nat>, b: seq<nat>, id: nat)
    requires a <= b
    ensures multiset(b)[id] >= multiset(a)[id] + (if id in b[|a|..] then 1 else 0)
  {
    assert b == a + b[|a|..];
  }

  lemma TimerPrefix(a: seq<Timer>, b: seq<Timer>)
    requires a <= b
    ensures TimerIds(a) <= TimerIds(b) && TimerIds(b)[|a|..] == TimerIds(b[|a|..])
  {
  }

  lemma GoneGrows(h: History, k: History, id: nat)
    requires Grows(h, k)
    ensures Gone(k)[id] >= Gone(h)[id]
  {
    TimerPrefix(h.fired, k.fired);
    PrefixCount(TimerIds(h.fired), TimerIds(k.fired), id);
    PrefixCount(h.promises, k.promises, id);
    PrefixCount(h.generics, k.generics, id);
    PrefixCount(h.removed, k.removed, id);
    PrefixCount(h.finished, k.finished, id);
    PrefixCount(h.dropped, k.dropped, id);
  }

  /** The job was neither called nor, as a future, brought to its end between the two histories. */
  predicate NotCalled(h: History, k: History, id: nat)
    requires Grows(h, k)
  {
    && id !in k.promises[|h.promises|..] && id !in k.generics[|h.generics|..]
    && id !in TimerIds(k.fired[|h.fired|..]) && id !in k.finished[|h.finished|..]
  }

  /** A job counted once before and at most once after was not called in between. */
  lemma NotCalledAgain(h: History, k: History, id: nat)
    requires Grows(h, k) && Gone(h)[id] >= 1 && Gone(k)[id] <= 1
    ensures NotCalled(h, k, id)
  {
    TimerPrefix(h.fired, k.fired);
    PrefixCount(TimerIds(h.fired), TimerIds(k.fired), id);
    PrefixCount(h.promises, k.promises, id);
    PrefixCount(h.generics, k.generics, id);
    PrefixCount(h.removed, k.removed, id);
    PrefixCount(h.finished, k.finished, id);
    PrefixCount(h.dropped, k.dropped, id);
  }

  lemma CleanIsGone(s: State, id: nat)
    requires Clean(s) && id < s.x.c.nextId
    ensures Gone(s.x.h)[id] == 1
  {
    assert Held(s.x.q) == multiset{} by { assert TaskIds([]) == []; }
    assert multiset(TimerIds([])) + multiset([]) + multiset([]) == multiset{};
    NumbersOnce(s.x.c.nextId, id);
  }

  /** A job that is gone is in no queue and not in flight. */
  lemma GoneIsNowhereElse(x: Exec, group: seq<nat>, id: nat)
    requires Inv(x, [], [], group) && Gone(x.h)[id] >= 1
    ensures Gone(x.h)[id] == 1 && Held(x.q)[id] == 0 && id !in group
  {
    NumbersOnce(x.c.nextId, id);
    assert (Held(x.q) + Gone(x.h) + (multiset(TimerIds([])) + multiset([]) + multiset(group)))[id]
        == Held(x.q)[id] + Gone(x.h)[id] + multiset(group)[id];
  }

  /**
   Nothing enqueued before a job takes part in it, whether it has ended or still runs: no such promise,
   generic or timer job is called, no such future is in flight or ends, and none is queued.
   */
  lemma OnlyOwnCalls(w: World, s: State, job: Job, id: nat)
    requires Clean(s) && PossibleJob(w, Timed(s.x, job), job) && SetupError(s.x, job).None?
    requires id < s.x.c.nextId
    ensures var l := RunScript(w, Timed(s.x, job), 0, job).l;
            Grows(s.x.h, l.x.h) && NotCalled(s.x.h, l.x.h, id) && id !in l.group && Held(l.x.q)[id] == 0
  {
    TimedInv(s.x, job);
    ScriptKeeps(w, Timed(s.x, job), 0, job);
    var l := RunScript(w, Timed(s.x, job), 0, job).l;
    CleanIsGone(s, id);
    GoneGrows(s.x.h, l.x.h, id);
    GoneIsNowhereElse(l.x, l.group, id);
    NotCalledAgain(s.x.h, l.x.h, id);
  }

  /** The runtime after a list of jobs, each given some time after the one before it. */
  function RunAll(w: World, s: State, jobs: seq<(nat, Job)>): Option<State>
    decreases |jobs|
  {
    if jobs == [] then Some(s)
    else
      var (idle, job) := jobs[0];
      match RunSource(w, State(Later(s.x, idle), s.rejections), job)
      case None => None
      case Some(r) => RunAll(w, r.state, jobs[1..])
  }

  predicate AllJobsPossible(w: World, s: State, jobs: seq<(nat, Job)>)
    decreases |jobs|
  {
    jobs != [] ==>
      var start := State(Later(s.x, jobs[0].0), s.rejections);
      && PossibleJob(w, Timed(start.x, jobs[0].1), jobs[0].1)
      && (RunSource(w, start, jobs[0].1).Some? ==> AllJobsPossible(w, RunSource(w, start, jobs[0].1).value.state, jobs[1..]))
  }

  /** However the jobs of a runtime end, each one starts with empty queues, no deadline and no rejection. */
  lemma {:induction false} JobsStartClean(w: World, s: State, jobs: seq<(nat, Job)>)
    requires Clean(s) && AllJobsPossible(w, s, jobs) && RunAll(w, s, jobs).Some?
    ensures Clean(RunAll(w, s, jobs).value)
    decreases |jobs|
  {
    if jobs != [] {
      FirstJobKeeps(w, s, jobs);
      JobsStartClean(w, RunSource(w, State(Later(s.x, jobs[0].0), s.rejections), jobs[0].1).value.state, jobs[1..]);
    }
  }

  function NewRuntime(now: nat): State {
    State(Idle(now, None), 0)
  }

  lemma FirstStartClean(now: nat)
    ensures Clean(NewRuntime(now))
  {
    IdleInv(now, None);
  }

  /** The runtime as job `k` of a list finds it. */
  function StartOf(w: World, s: State, jobs: seq<(nat, Job)>, k: nat): State
    requires k < |jobs| && RunAll(w, s, jobs[..k]).Some?
  {
    var before := RunAll(w, s, jobs[..k]).value;
    State(Later(before.x, jobs[k].0), before.rejections)
  }

  /** The first job of a list finds a clean runtime, and leaves one. */
  lemma FirstJobKeeps(w: World, s: State, jobs: seq<(nat, Job)>)
    requires jobs != [] && Clean(s) && AllJobsPossible(w, s, jobs)
    ensures var start := State(Later(s.x, jobs[0].0), s.rejections);
            && Clean(start) && PossibleJob(w, Timed(start.x, jobs[0].1), jobs[0].1)
            && (RunSource(w, start, jobs[0].1).Some? ==>
                  Clean(RunSource(w, start, jobs[0].1).value.state) &&
                  AllJobsPossible(w, RunSource(w, start, jobs[0].1).value.state, jobs[1..]))
  {
    var start := State(Later(s.x, jobs[0].0), s.rejections);
    LaterKeeps(s.x, jobs[0].0, [], [], []);
    if RunSource(w, start, jobs[0].1).Some? { JobKeeps(w, start, jobs[0].1); }
  }

  lemma LaterStart(w: World, s: State, jobs: seq<(nat, Job)>, k: nat, next: State)
    requires 0 < k < |jobs| && RunAll(w, s, jobs[..k]).Some?
    requires var r := RunSource(w, State(Later(s.x, jobs[0].0), s.rejections), jobs[0].1);
             r.Some? ==> next == r.value.state
    ensures RunSource(w, State(Later(s.x, jobs[0].0), s.rejections), jobs[0].1).Some?
    ensures RunAll(w, next, jobs[1..][..k - 1]).Some?
    ensures StartOf(w, s, jobs, k) == StartOf(w, next, jobs[1..], k - 1)
  {
    assert jobs[..k][0] == jobs[0] && jobs[..k][1..] == jobs[1..][..k - 1];
  }

  lemma {:induction false} EachStartsClean(w: World, s: State, jobs: seq<(nat, Job)>, k: nat)
    requires k < |jobs| && Clean(s) && AllJobsPossible(w, s, jobs) && RunAll(w, s, jobs[..k]).Some?
    ensures var start := StartOf(w, s, jobs, k);
            Clean(start) && PossibleJob(w, Timed(start.x, jobs[k].1), jobs[k].1)
    decreases k
  {
    FirstJobKeeps(w, s, jobs);
    if k == 0 {
      assert jobs[..0] == [];
    } else {
      assert jobs[..k][0] == jobs[0];
      var next := RunSource(w, State(Later(s.x, jobs[0].0), s.rejections), jobs[0].1).value.state;
      LaterStart(w, s, jobs, k, next);
      EachStartsClean(w, next, jobs[1..], k - 1);
    }
  }

  /**
   Of all the jobs a new runtime is given, in turn and however they end, none sees anything of those
   before it: what was enqueued earlier is not called in it, does not end in it as a future, and is
   neither queued nor in flight when its turns are over.
   */
  lemma JobsAreIsolated(w: World, now: nat, jobs: seq<(nat, Job)>, k: nat, id: nat)
    requires k < |jobs| && AllJobsPossible(w, NewRuntime(now), jobs) && RunAll(w, NewRuntime(now), jobs[..k]).Some?
    requires id < StartOf(w, NewRuntime(now), jobs, k).x.c.nextId
    requires SetupError(StartOf(w, NewRuntime(now), jobs, k).x, jobs[k].1).None?
    ensures var start, job := StartOf(w, NewRuntime(now), jobs, k), jobs[k].1;
            var l := RunScript(w, Timed(start.x, job), 0, job).l;
            && Clean(start) && Grows(start.x.h, l.x.h)
            && NotCalled(start.x.h, l.x.h, id) && id !in l.group && Held(l.x.q)[id] == 0
  {
    FirstStartClean(now);
    EachStartsClean(w, NewRuntime(now), jobs, k);
    OnlyOwnCalls(w, StartOf(w, NewRuntime(now), jobs, k), jobs[k].1, id);
  }

  // ----- waits -----------------------------------------------------------------------------

  /** A job's deadline falls on a whole millisecond. */
  lemma TimedAligned(x: Exec, job: Job)
    ensures DeadlineAligned(Timed(x, job).q)
  {
  }

  /** Every wait while a job's module is evaluated is aligned. */
  lemma EvaluationWaitsAligned(w: World, s: State, job: Job, k: nat)
    requires Clean(s) && PossibleJob(w, Timed(s.x, job), job) && k < |job.evalTurns|
    requires Run(w, Watching(ApplyAll(Timed(s.x, job), job.evaluate)), job.evalTurns[..k], false).Continue?
    ensures var l := Run(w, Watching(ApplyAll(Timed(s.x, job), job.evaluate)), job.evalTurns[..k], false).l;
            Aligned(AtWait(AtCheck(l, job.evalTurns[k], false), job.evalTurns[k]).x.q)
  {
    TimedInv(s.x, job);
    TimedAligned(s.x, job);
    WatchingInv(Timed(s.x, job), job.evaluate);
    ApplyAllFollows(Timed(s.x, job), job.evaluate);
    WaitsAreAligned(w, Watching(ApplyAll(Timed(s.x, job), job.evaluate)), job.evalTurns, false, k);
  }

  lemma TailStartsAligned(w: World, s: State, job: Job)
    requires Clean(s) && PossibleJob(w, Timed(s.x, job), job) && MainReturns(w, s, job)
    ensures LoopInv(TailStart(w, s, job)) && DeadlineAligned(TailStart(w, s, job).x.q)
  {
    TimedInv(s.x, job);
    TimedAligned(s.x, job);
    EvaluationKeeps(w, Timed(s.x, job), job);
    var x := Evaluation(w, Timed(s.x, job), job).l.x;
    TailKeeps(w, x, job);
    ApplyAllFollows(x.(c := x.c.(settled := false)), job.main);
  }

  /** And so is every wait of its tail loop, so no job waits short of its next stop or a millisecond past it. */
  lemma TailWaitsAligned(w: World, s: State, job: Job, k: nat)
    requires Clean(s) && PossibleJob(w, Timed(s.x, job), job) && MainReturns(w, s, job) && k < |job.tailTurns|
    requires Run(w, TailStart(w, s, job), job.tailTurns[..k], true).Continue?
    ensures var l := Run(w, TailStart(w, s, job), job.tailTurns[..k], true).l;
            Aligned(AtWait(AtCheck(l, job.tailTurns[k], true), job.tailTurns[k]).x.q)
  {
    TailStartsAligned(w, s, job);
    WaitsAreAligned(w, TailStart(w, s, job), job.tailTurns, true, k);
  }

  // ----- the runtime object ----------------------------------------------------------------

  class RuntimeInternal {
    const queue: Queue
    var rejections: nat

    constructor (context: Context)
      ensures fresh(queue)
      ensures Here() == State(Exec(Queues([], [], [], [], None), context, History([], [], [], [], [], [], [])), 0)
    {
      queue := new Queue(context);
      rejections := 0;
    }

    ghost function Here(): State
      reads this, queue
    {
      State(queue.Here(), rejections)
    }

    /** Counting the engine's rejection reports. */
    method Track(ops: seq<Operation>)
      modifies `rejections
      ensures rejections == Tracked(old(rejections), ops)
    {
      assert ops[0..] == ops;
      for k := 0 to |ops|
        invariant Tracked(rejections, ops[k..]) == Tracked(old(rejections), ops)
      {
        assert ops[k..][1..] == ops[k + 1..];
        if ops[k].Reject? {
          rejections := rejections + 1;
        } else if rejections > 0 {
          rejections := rejections - 1;
        }
      }
    }

    /** Calling main and polling until quiescence. */
    method CallMain(w: World, job: Job) returns (error: Option<Reason>, running: bool, replies: nat, ghost l: Loop)
      modifies queue
      ensures Script(l, error, running) == MainScript(w, old(queue.Here()), job)
      ensures queue.Here() == l.x && replies == l.replies
    {
      queue.NewMain();
      queue.Perform(job.main);
      if job.mainThrows {
        return Some(MainThrew), false, 0, Watching(queue.Here());
      }
      var exit;
      exit, replies, l := queue.RunJobs(w, job.tailTurns, true);
      error, running := None, exit.None?;
      if exit.Some? {
        if exit.value.Failed? {
          error := Some(LoopError);
        } else if replies == 0 && !queue.context.settled {
          error := Some(MainPending);
        }
      }
    }

    method RunModule(w: World, job: Job) returns (error: Option<Reason>, running: bool, replies: nat, ghost l: Loop)
      modifies this, queue
      ensures Script(l, error, running) == RunScript(w, old(queue.Here()), old(rejections), job)
      ensures queue.Here() == l.x && replies == l.replies
    {
      if !job.parses {
        return Some(ParseError), false, 0, Watching(queue.Here());
      }
      queue.Perform(job.evaluate);
      var exit;
      exit, replies, l := queue.RunJobs(w, job.evalTurns, false);
      if exit.None? {
        return None, true, replies, l;
      }
      if exit.value.Failed? {
        return Some(LoopError), false, replies, l;
      }
      if exit.value.DeadlineExceeded? {
        return Some(TimedOut), false, replies, l;
      }
      Track(job.operations);
      error := match job.evaluated
        case Pending => Some(EvaluationPending)
        case Rejected => Some(EvaluationRejected)
        case Fulfilled =>
          if rejections > 0 then Some(UnhandledRejection)
          else if !job.argumentOk then Some(BadArgument)
          else if !job.hasMain then Some(NoMain)
          else None;
      if error.Some? {
        return error, false, replies, l;
      }
      error, running, replies, l := CallMain(w, job);
    }

    /** The whole job: setup, script, cleanup, outcome. Nothing is returned while the script runs. */
    method RunSourceWithEarlyReply(w: World, job: Job) returns (outcome: Option<Outcome>, replies: nat)
      modifies this, queue
      ensures var r := RunSource(w, old(Here()), job);
              if r.None? then outcome.None?
              else outcome == Some(r.value.outcome) && replies == r.value.replies && Here() == r.value.state
    {
      rejections := 0;
      if !job.endpointsOk {
        return Some(MainNotReplied(BadEndpoint)), 0;
      }
      var deadline := ComputeDeadline(queue.context.now, job.limit);
      if deadline.None? {
        return Some(MainNotReplied(LimitTooLarge)), 0;
      }
      if !job.realmOk {
        return Some(MainNotReplied(NoRealm)), 0;
      }
      queue.SetDeadline(deadline);
      assert queue.Here() == Timed(old(queue.Here()), job);
      var error, running;
      ghost var l;
      error, running, replies, l := RunModule(w, job);
      if running {
        return None, replies;
      }
      queue.SetDeadline(None);
      queue.ClearAll(l.group);
      rejections := 0;
      outcome := Some(if replies > 0 then MainReplied
                      else if error.Some? then MainNotReplied(error.value)
                      else MainNotReplied(NoMainResult));
    }
  }
}
