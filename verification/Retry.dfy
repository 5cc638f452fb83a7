/**
 The retry loop of an endpoint call: all attempts and the sleeps between them share one deadline.
 Instants are nanosecond counts; the transport and the clock are given by a `World`.
 */
module Retry {
  import opened Wrappers

  const MS: nat := 1_000_000
  const U64_MAX: nat := 0xFFFF_FFFF_FFFF_FFFF

  // ----- outcomes and policy ---------------------------------------------------------------

  datatype ErrorClass = Network | Timeout | BodyTooLarge | InvalidRequest | Decode | Other

  datatype Reply = Response(status: nat, retryAfter: Option<string>) | Failure(kind: ErrorClass)

  /** Delays in nanoseconds; the delay of a status may depend on the `Retry-After` header. */
  datatype Policy = Policy(maxAttempts: nat, retryOnIo: bool, retryOnTimeout: bool, retryStatus: nat -> bool,
                           statusDelay: (nat, Option<string>, nat) -> nat, transportDelay: nat -> nat)

  /** `is_retryable_per`, and its counterpart for statuses */
  predicate Retryable(pol: Policy, r: Reply) {
    match r
    case Response(status, _) => pol.retryStatus(status)
    case Failure(kind) =>
      match kind
      case Network => pol.retryOnIo
      case Timeout => pol.retryOnTimeout
      case BodyTooLarge | InvalidRequest | Decode | Other => false
  }

  function Delay(pol: Policy, r: Reply, attempt: nat): nat {
    match r
    case Response(status, retryAfter) => pol.statusDelay(status, retryAfter, attempt)
    case Failure(_) => pol.transportDelay(attempt)
  }

  /**
   What the outside does in one attempt: the time that passes before the budget is read, the reply
   and how long it takes, the time before the sleep is bounded, and how late the sleep wakes.
   */
  datatype Attempt = Attempt(pause: nat, reply: Reply, took: nat, lag: nat, late: nat)

  type World = nat -> Attempt

  /** A request handed to the transport: its budget in milliseconds, when it began, and the reply. */
  datatype Sent = Sent(budget: Option<nat>, at: nat, reply: Reply)

  datatype End =
    | Answered(status: nat)
    | Broken(kind: ErrorClass)
    | TimedOut(attempts: nat)
    | BadRequest
    | Exhausted

  datatype Run = Run(sent: seq<Sent>, end: End, at: nat)

  // ----- the loop --------------------------------------------------------------------------

  /** The aggregate deadline, or none if the clock cannot represent it. */
  function DeadlineOf(now: nat, timeoutMs: Option<nat>, clockMax: nat): Option<nat> {
    if timeoutMs.None? || now + timeoutMs.value * MS > clockMax then None else Some(now + timeoutMs.value * MS)
  }

  function Left(deadline: nat, now: nat): nat {
    if deadline > now then deadline - now else 0
  }

  /** `remaining_ms` */
  function Budget(deadline: Option<nat>, now: nat): Option<nat> {
    if deadline.None? then None
    else
      var ms := Left(deadline.value, now) / MS;
      Some(if ms > U64_MAX then U64_MAX else ms)
  }

  /** The instant after a retry sleep, bounded by the deadline. */
  function Slept(deadline: Option<nat>, now: nat, delay: nat, a: Attempt): nat {
    if delay == 0 then now
    else
      var bounded := if deadline.Some? && Left(deadline.value, now + a.lag) < delay
                     then Left(deadline.value, now + a.lag) else delay;
      if bounded == 0 then now + a.lag else now + a.lag + bounded + a.late
  }

  function Prepend(s: Sent, r: Run): Run {
    r.(sent := [s] + r.sent)
  }

  /** One attempt ends the call, or leads to another at a later instant. */
  datatype Tried = Stop(r: Run) | Again(sent: Sent, next: nat)

  function Try(a: Attempt, pol: Policy, deadline: Option<nat>, requestOk: bool, attempt: nat, now: nat): Tried {
    var began := now + a.pause;
    var budget := Budget(deadline, began);
    if budget == Some(0) then Stop(Run([], TimedOut(if attempt > 0 then attempt - 1 else 0), began))
    else if !requestOk then Stop(Run([], BadRequest, began))
    else
      var sent := Sent(budget, began, a.reply);
      var ended := began + a.took;
      if attempt < pol.maxAttempts && Retryable(pol, a.reply)
      then Again(sent, Slept(deadline, ended, Delay(pol, a.reply, attempt), a))
      else
        match a.reply
        case Response(status, _) => Stop(Run([sent], Answered(status), ended))
        case Failure(kind) => Stop(Run([sent], Broken(kind), ended))
  }

  /** The attempts from number `attempt` on. */
  function Attempts(w: World, pol: Policy, deadline: Option<nat>, requestOk: bool, attempt: nat, now: nat): Run
    decreases pol.maxAttempts + 1 - attempt
  {
    if attempt > pol.maxAttempts then Run([], Exhausted, now)
    else
      match Try(w(attempt), pol, deadline, requestOk, attempt, now)
      case Stop(r) => r
      case Again(sent, next) => Prepend(sent, Attempts(w, pol, deadline, requestOk, attempt + 1, next))
  }

  /** The body of the loop. */
  method TryOnce(a: Attempt, pol: Policy, deadline: Option<nat>, requestOk: bool, attempt: nat, start: nat) returns (t: Tried)
    requires attempt >= 1
    ensures t == Try(a, pol, deadline, requestOk, attempt, start)
  {
    var now := start + a.pause;
    var budget := Budget(deadline, now);
    if budget == Some(0) {
      return Stop(Run([], TimedOut(attempt - 1), now));
    }
    if !requestOk {
      return Stop(Run([], BadRequest, now));
    }
    var sent := Sent(budget, now, a.reply);
    now := now + a.took;
    if attempt < pol.maxAttempts && Retryable(pol, a.reply) {
      now := Slept(deadline, now, Delay(pol, a.reply, attempt), a);
      return Again(sent, now);
    }
    match a.reply {
      case Response(status, _) => return Stop(Run([sent], Answered(status), now));
      case Failure(kind) => return Stop(Run([sent], Broken(kind), now));
    }
  }

  /** The retry loop of `execute_endpoint` */
  method ExecuteEndpoint(w: World, pol: Policy, timeoutMs: Option<nat>, clockMax: nat, requestOk: bool, start: nat)
    returns (r: Run)
    ensures r == Attempts(w, pol, DeadlineOf(start, timeoutMs, clockMax), requestOk, 1, start)
  {
    var deadline := DeadlineOf(start, timeoutMs, clockMax);
    var sent: seq<Sent> := [];
    var now: nat := start;
    var attempt: nat := 1;
    AfterNone(Attempts(w, pol, deadline, requestOk, 1, start));
    while attempt <= pol.maxAttempts
      invariant attempt >= 1
      invariant Attempts(w, pol, deadline, requestOk, 1, start)
             == After(sent, Attempts(w, pol, deadline, requestOk, attempt, now))
      decreases pol.maxAttempts + 1 - attempt
    {
      var t := TryOnce(w(attempt), pol, deadline, requestOk, attempt, now);
      match t {
        case Stop(stopped) =>
          return Run(sent + stopped.sent, stopped.end, stopped.at);
        case Again(s, next) =>
          ghost var rest := Attempts(w, pol, deadline, requestOk, attempt + 1, next);
          assert Attempts(w, pol, deadline, requestOk, attempt, now) == Prepend(s, rest);
          AfterSnoc(sent, s, rest);
          sent := sent + [s];
          now := next;
      }
      attempt := attempt + 1;
    }
    return Run(sent, Exhausted, now);
  }

  function After(sent: seq<Sent>, r: Run): Run {
    r.(sent := sent + r.sent)
  }

  lemma AfterNone(r: Run)
    ensures After([], r) == r
  {
    assert [] + r.sent == r.sent;
  }

  lemma AfterSnoc(sent: seq<Sent>, s: Sent, r: Run)
    ensures After(sent, Prepend(s, r)) == After(sent + [s], r)
  {
    assert sent + ([s] + r.sent) == sent + [s] + r.sent;
  }

  // ----- how many, and which, attempts -----------------------------------------------------

  /** Every reply is retryable. */
  predicate AllRetried(pol: Policy, sent: seq<Sent>) {
    forall i :: 0 <= i < |sent| ==> Retryable(pol, sent[i].reply)
  }

  /** What a run looks like, given that attempt `attempt` comes first. */
  predicate RunOk(pol: Policy, attempt: nat, r: Run) {
    var n := |r.sent|;
    && (r.end.Exhausted? ==> n == 0)
    && match r.end
       case Answered(status) =>
         && 0 < n <= pol.maxAttempts + 1 - attempt && r.sent[n - 1].reply.Response? && r.sent[n - 1].reply.status == status
         && AllRetried(pol, r.sent[..n - 1])
         && (attempt + n - 1 < pol.maxAttempts ==> !Retryable(pol, r.sent[n - 1].reply))
       case Broken(kind) =>
         && 0 < n <= pol.maxAttempts + 1 - attempt && r.sent[n - 1].reply == Failure(kind)
         && AllRetried(pol, r.sent[..n - 1])
         && (attempt + n - 1 < pol.maxAttempts ==> !Retryable(pol, r.sent[n - 1].reply))
       case TimedOut(attempts) => attempts == attempt - 1 + n && attempt + n <= pol.maxAttempts && AllRetried(pol, r.sent)
       case BadRequest => n == 0
       case Exhausted => attempt > pol.maxAttempts
  }

  lemma PrependOk(pol: Policy, attempt: nat, s: Sent, r: Run)
    requires RunOk(pol, attempt + 1, r) && attempt < pol.maxAttempts && Retryable(pol, s.reply) && !r.end.BadRequest?
    ensures RunOk(pol, attempt, Prepend(s, r))
  {
    var q := Prepend(s, r);
    var n := |r.sent|;
    assert forall i :: 0 <= i < n ==> q.sent[i + 1] == r.sent[i];
    if r.end.Answered? || r.end.Broken? {
      assert q.sent[..n][0] == s;
      assert forall i :: 1 <= i < n ==> q.sent[..n][i] == r.sent[..n - 1][i - 1];
    }
  }

  lemma TryOk(a: Attempt, pol: Policy, deadline: Option<nat>, requestOk: bool, attempt: nat, now: nat)
    requires 1 <= attempt <= pol.maxAttempts
    ensures match Try(a, pol, deadline, requestOk, attempt, now)
            case Stop(r) => RunOk(pol, attempt, r) && (requestOk ==> !r.end.BadRequest?)
            case Again(sent, _) => requestOk && attempt < pol.maxAttempts && Retryable(pol, sent.reply)
  {
  }

  /** With a request that can be built, the run is as expected; without one nothing is ever sent. */
  lemma {:induction false} AttemptsOk(w: World, pol: Policy, deadline: Option<nat>, requestOk: bool, attempt: nat, now: nat)
    requires attempt >= 1
    ensures RunOk(pol, attempt, Attempts(w, pol, deadline, requestOk, attempt, now))
    ensures requestOk ==> !Attempts(w, pol, deadline, requestOk, attempt, now).end.BadRequest?
    decreases pol.maxAttempts + 1 - attempt
  {
    if attempt <= pol.maxAttempts {
      TryOk(w(attempt), pol, deadline, requestOk, attempt, now);
      match Try(w(attempt), pol, deadline, requestOk, attempt, now)
      case Stop(r) =>
      case Again(sent, next) =>
        AttemptsOk(w, pol, deadline, requestOk, attempt + 1, next);
        PrependOk(pol, attempt, sent, Attempts(w, pol, deadline, requestOk, attempt + 1, next));
    }
  }

  /**
   At most `maxAttempts` requests are sent; every reply but the last was retryable, and the last ends
   the call; a timeout counts the requests sent; and the call runs out of attempts without a reply only
   if the policy allows none.
   */
  lemma AttemptsBounded(w: World, pol: Policy, deadline: Option<nat>, requestOk: bool, start: nat)
    ensures var r := Attempts(w, pol, deadline, requestOk, 1, start);
            && |r.sent| <= pol.maxAttempts && RunOk(pol, 1, r)
            && (r.end.TimedOut? ==> r.end.attempts == |r.sent|)
            && (r.end.Exhausted? <==> pol.maxAttempts == 0)
  {
    AttemptsOk(w, pol, deadline, requestOk, 1, start);
  }

  // ----- budgets ---------------------------------------------------------------------------

  predicate NoMore(a: Option<nat>, b: Option<nat>) {
    if a.None? then b.None? else b.Some? && b.value <= a.value
  }

  /** Budgets never grow, and a limited one is never zero. */
  predicate Shrinking(sent: seq<Sent>) {
    && (forall i, j :: 0 <= i < j < |sent| ==> NoMore(sent[i].budget, sent[j].budget))
    && (forall i :: 0 <= i < |sent| ==> sent[i].budget != Some(0))
  }

  lemma BudgetShrinks(deadline: Option<nat>, now: nat, later: nat)
    requires now <= later
    ensures NoMore(Budget(deadline, now), Budget(deadline, later))
  {
    if deadline.Some? {
      assert Left(deadline.value, later) <= Left(deadline.value, now);
      assert Left(deadline.value, later) / MS <= Left(deadline.value, now) / MS;
    }
  }

  lemma SleptLater(deadline: Option<nat>, now: nat, delay: nat, a: Attempt)
    ensures now <= Slept(deadline, now, delay, a)
  {
  }

  predicate AllNoMore(b: Option<nat>, sent: seq<Sent>) {
    forall i :: 0 <= i < |sent| ==> NoMore(b, sent[i].budget)
  }

  lemma NoMoreOn(a: Option<nat>, b: Option<nat>, sent: seq<Sent>)
    requires NoMore(a, b) && AllNoMore(b, sent)
    ensures AllNoMore(a, sent)
  {
  }

  lemma ShrinkingCons(s: Sent, rest: seq<Sent>)
    requires Shrinking(rest) && AllNoMore(s.budget, rest) && s.budget != Some(0)
    ensures Shrinking([s] + rest)
  {
    var all := [s] + rest;
    assert forall i :: 1 <= i < |all| ==> all[i] == rest[i - 1];
  }

  lemma TryBudget(a: Attempt, pol: Policy, deadline: Option<nat>, requestOk: bool, attempt: nat, now: nat)
    ensures match Try(a, pol, deadline, requestOk, attempt, now)
            case Stop(r) => Shrinking(r.sent) && AllNoMore(Budget(deadline, now), r.sent)
            case Again(sent, next) =>
              sent.budget != Some(0) && NoMore(Budget(deadline, now), sent.budget) && NoMore(sent.budget, Budget(deadline, next))
  {
    var began := now + a.pause;
    BudgetShrinks(deadline, now, began);
    var next := Slept(deadline, began + a.took, Delay(pol, a.reply, attempt), a);
    SleptLater(deadline, began + a.took, Delay(pol, a.reply, attempt), a);
    BudgetShrinks(deadline, began, next);
  }

  /** Each attempt is given at most the budget of the one before it, however the outside behaves. */
  lemma {:induction false} BudgetsShrink(w: World, pol: Policy, deadline: Option<nat>, requestOk: bool, attempt: nat, now: nat)
    ensures var sent := Attempts(w, pol, deadline, requestOk, attempt, now).sent;
            Shrinking(sent) && AllNoMore(Budget(deadline, now), sent)
    decreases pol.maxAttempts + 1 - attempt
  {
    if attempt <= pol.maxAttempts {
      TryBudget(w(attempt), pol, deadline, requestOk, attempt, now);
      match Try(w(attempt), pol, deadline, requestOk, attempt, now)
      case Stop(r) =>
      case Again(sent, next) =>
        BudgetsShrink(w, pol, deadline, requestOk, attempt + 1, next);
        var rest := Attempts(w, pol, deadline, requestOk, attempt + 1, next).sent;
        NoMoreOn(sent.budget, Budget(deadline, next), rest);
        NoMoreOn(Budget(deadline, now), sent.budget, rest);
        ShrinkingCons(sent, rest);
    }
  }

  // ----- what the policy asks for ----------------------------------------------------------

  /** One request and the next: the policy allows a retry after that reply, and its delay is kept. */
  predicate Spaced(w: World, pol: Policy, deadline: Option<nat>, attempt: nat, first: Sent, second: Sent) {
    var end := first.at + w(attempt).took;
    var delay := match first.reply
      case Response(status, retryAfter) => pol.statusDelay(status, retryAfter, attempt)
      case Failure(_) => pol.transportDelay(attempt);
    && first.reply == w(attempt).reply
    && (match first.reply
        case Response(status, _) => pol.retryStatus(status)
        case Failure(kind) => (kind == Network && pol.retryOnIo) || (kind == Timeout && pol.retryOnTimeout))
    && second.at >= end
    && second.at >= (if deadline.Some? && deadline.value < end + delay then deadline.value else end + delay)
    && (w(attempt).lag == 0 && w(attempt).late == 0 && w(attempt + 1).pause == 0 ==> second.at <= end + delay)
  }

  /** The budget is what is left of the deadline in whole milliseconds, as far as a `u64` goes. */
  predicate BudgetIsLeft(deadline: Option<nat>, s: Sent) {
    match deadline
    case None => s.budget.None?
    case Some(d) =>
      && s.budget.Some? && s.at + s.budget.value * MS <= d
      && (s.budget.value == U64_MAX || d < s.at + (s.budget.value + 1) * MS)
  }

  lemma LeftIsBudget(d: nat, at: nat)
    requires Budget(Some(d), at) != Some(0)
    ensures BudgetIsLeft(Some(d), Sent(Budget(Some(d), at), at, Failure(Other)))
  {
    var left := Left(d, at);
    assert left == left / MS * MS + left % MS;
  }

  lemma TrySpaces(a: Attempt, pol: Policy, deadline: Option<nat>, requestOk: bool, attempt: nat, now: nat)
    ensures match Try(a, pol, deadline, requestOk, attempt, now)
            case Stop(r) => r.sent != [] ==>
              r.sent[0].at == now + a.pause && r.sent[0].reply == a.reply && BudgetIsLeft(deadline, r.sent[0])
            case Again(sent, _) =>
              sent.at == now + a.pause && sent.reply == a.reply && BudgetIsLeft(deadline, sent)
  {
    if deadline.Some? && Budget(deadline, now + a.pause) != Some(0) { LeftIsBudget(deadline.value, now + a.pause); }
  }

  lemma SleptKeepsDelay(deadline: Option<nat>, end: nat, delay: nat, a: Attempt)
    ensures var next := Slept(deadline, end, delay, a);
            && next >= end
            && next >= (if deadline.Some? && deadline.value < end + delay then deadline.value else end + delay)
            && (a.lag == 0 && a.late == 0 ==> next <= end + delay)
  {
  }

  /** The request after one that is tried again. */
  lemma RetrySpaces(w: World, pol: Policy, deadline: Option<nat>, requestOk: bool, attempt: nat, now: nat, second: Sent)
    requires var t := Try(w(attempt), pol, deadline, requestOk, attempt, now);
             t.Again? && second.at == t.next + w(attempt + 1).pause
    ensures Spaced(w, pol, deadline, attempt, Try(w(attempt), pol, deadline, requestOk, attempt, now).sent, second)
  {
    var a := w(attempt);
    SleptKeepsDelay(deadline, now + a.pause + a.took, Delay(pol, a.reply, attempt), a);
  }

  lemma FirstSent(w: World, pol: Policy, deadline: Option<nat>, requestOk: bool, attempt: nat, now: nat)
    ensures var sent := Attempts(w, pol, deadline, requestOk, attempt, now).sent;
            sent != [] ==> sent[0].at == now + w(attempt).pause && BudgetIsLeft(deadline, sent[0])
  {
    if attempt <= pol.maxAttempts { TrySpaces(w(attempt), pol, deadline, requestOk, attempt, now); }
  }

  /** The first request goes out at once, and every later one when its delay has passed. */
  lemma {:induction false} RequestsSpaced(
      w: World, pol: Policy, deadline: Option<nat>, requestOk: bool, attempt: nat, now: nat, i: nat)
    requires i < |Attempts(w, pol, deadline, requestOk, attempt, now).sent|
    ensures var sent := Attempts(w, pol, deadline, requestOk, attempt, now).sent;
            && BudgetIsLeft(deadline, sent[i])
            && (i + 1 < |sent| ==> Spaced(w, pol, deadline, attempt + i, sent[i], sent[i + 1]))
    decreases pol.maxAttempts + 1 - attempt
  {
    if i == 0 { FirstSent(w, pol, deadline, requestOk, attempt, now); }
    match Try(w(attempt), pol, deadline, requestOk, attempt, now)
    case Stop(r) =>
    case Again(s, next) =>
      var rest := Attempts(w, pol, deadline, requestOk, attempt + 1, next);
      var all := Attempts(w, pol, deadline, requestOk, attempt, now);
      assert all == Prepend(s, rest) && all.sent[0] == s;
      if i > 0 {
        RequestsSpaced(w, pol, deadline, requestOk, attempt + 1, next, i - 1);
        assert attempt + 1 + (i - 1) == attempt + i && all.sent[i] == rest.sent[i - 1];
        assert i + 1 < |all.sent| ==> all.sent[i + 1] == rest.sent[i];
      } else if rest.sent != [] {
        FirstSent(w, pol, deadline, requestOk, attempt + 1, next);
        assert all.sent[1] == rest.sent[0];
        RetrySpaces(w, pol, deadline, requestOk, attempt, now, rest.sent[0]);
      }
  }

  /**
   Over a whole call: a request is repeated only after a reply that the policy retries, and not before
   the delay it asks for, or the deadline if that comes first; if nothing else takes time, no later either.
   Each request may take what is left of the time asked for.
   */
  lemma DelaysKept(w: World, pol: Policy, timeoutMs: Option<nat>, clockMax: nat, requestOk: bool, start: nat, i: nat)
    requires i < |Attempts(w, pol, DeadlineOf(start, timeoutMs, clockMax), requestOk, 1, start).sent|
    ensures var deadline := if timeoutMs.Some? && start + timeoutMs.value * MS <= clockMax
                            then Some(start + timeoutMs.value * MS) else None;
            var sent := Attempts(w, pol, DeadlineOf(start, timeoutMs, clockMax), requestOk, 1, start).sent;
            && sent[0].at == start + w(1).pause && BudgetIsLeft(deadline, sent[i])
            && (i + 1 < |sent| ==> Spaced(w, pol, deadline, i + 1, sent[i], sent[i + 1]))
  {
    FirstSent(w, pol, DeadlineOf(start, timeoutMs, clockMax), requestOk, 1, start);
    RequestsSpaced(w, pol, DeadlineOf(start, timeoutMs, clockMax), requestOk, 1, start, i);
  }

  /** A call that is answered, or broken, before its last attempt got a reply that the policy does not retry. */
  lemma LastIsFinal(w: World, pol: Policy, deadline: Option<nat>, requestOk: bool, start: nat)
    requires var r := Attempts(w, pol, deadline, requestOk, 1, start);
             (r.end.Answered? || r.end.Broken?) && |r.sent| < pol.maxAttempts
    ensures var r := Attempts(w, pol, deadline, requestOk, 1, start);
            match r.end
            case Answered(status) => !pol.retryStatus(status)
            case Broken(kind) => !(kind == Network && pol.retryOnIo) && !(kind == Timeout && pol.retryOnTimeout)
            case _ => false
  {
    AttemptsOk(w, pol, deadline, requestOk, 1, start);
  }

  /** A call times out only when less than a millisecond is left, and a request is bad only if it cannot be built. */
  lemma {:induction false} EndsForCause(
      w: World, pol: Policy, deadline: Option<nat>, requestOk: bool, attempt: nat, now: nat)
    ensures var r := Attempts(w, pol, deadline, requestOk, attempt, now);
            && (r.end.TimedOut? ==> deadline.Some? && deadline.value < r.at + MS)
            && (r.end.BadRequest? ==> !requestOk)
            && (!requestOk ==> r.sent == [])
    decreases pol.maxAttempts + 1 - attempt
  {
    if attempt <= pol.maxAttempts {
      match Try(w(attempt), pol, deadline, requestOk, attempt, now)
      case Stop(_) =>
      case Again(_, next) => EndsForCause(w, pol, deadline, requestOk, attempt + 1, next);
    }
  }

  // ----- total time ------------------------------------------------------------------------

  /** The time an attempt takes beyond its budget. */
  function Overrun(deadline: Option<nat>, began: nat, took: nat): nat {
    var budget := Budget(deadline, began);
    if budget.Some? && took > budget.value * MS then took - budget.value * MS else 0
  }

  /** How far past the deadline a retry may begin: a sleep that happened forgets the attempt's own overrun. */
  function SleepLateness(deadline: Option<nat>, ended: nat, delay: nat, a: Attempt, overrun: nat): nat {
    if delay == 0 then overrun
    else if deadline.Some? && Left(deadline.value, ended + a.lag) == 0 then overrun + a.lag
    else a.late
  }

  /**
   How far past the deadline one attempt may end, or the next one begin, given how far past it this one
   may begin.
   */
  function TryLateness(a: Attempt, pol: Policy, deadline: Option<nat>, requestOk: bool, attempt: nat, now: nat, before: nat): nat {
    var overrun := Overrun(deadline, now + a.pause, a.took);
    match Try(a, pol, deadline, requestOk, attempt, now)
    case Stop(r) => if r.end.TimedOut? then before + a.pause else if r.sent == [] then 0 else overrun
    case Again(_, _) => SleepLateness(deadline, now + a.pause + a.took, Delay(pol, a.reply, attempt), a, overrun)
  }

  /**
   How far past the deadline the call may end, along the attempts it makes. Only the last of them and
   the sleep before it count, since an attempt begins only while some budget is left.
   */
  function Lateness(w: World, pol: Policy, deadline: Option<nat>, requestOk: bool, attempt: nat, now: nat, before: nat): nat
    decreases pol.maxAttempts + 1 - attempt
  {
    if attempt > pol.maxAttempts then before
    else
      var late := TryLateness(w(attempt), pol, deadline, requestOk, attempt, now, before);
      match Try(w(attempt), pol, deadline, requestOk, attempt, now)
      case Stop(_) => late
      case Again(_, next) => Lateness(w, pol, deadline, requestOk, attempt + 1, next, late)
  }

  lemma BudgetFits(deadline: nat, now: nat)
    requires now <= deadline
    ensures now + Budget(Some(deadline), now).value * MS <= deadline
  {
    var left := deadline - now;
    assert left / MS * MS <= left;
    assert Budget(Some(deadline), now).value <= left / MS;
  }

  lemma AttemptEnds(deadline: nat, began: nat, took: nat)
    requires Budget(Some(deadline), began) != Some(0)
    ensures began <= deadline && began + took <= deadline + Overrun(Some(deadline), began, took)
  {
    BudgetFits(deadline, began);
  }

  lemma SleepEnds(deadline: nat, ended: nat, delay: nat, a: Attempt, overrun: nat)
    requires ended <= deadline + overrun
    ensures Slept(Some(deadline), ended, delay, a) <= deadline + SleepLateness(Some(deadline), ended, delay, a, overrun)
  {
  }

  /** One attempt and the sleep after it, begun no later than `before` past the deadline. */
  lemma TryEnds(a: Attempt, pol: Policy, deadline: nat, requestOk: bool, attempt: nat, now: nat, before: nat)
    requires now <= deadline + before
    ensures match Try(a, pol, Some(deadline), requestOk, attempt, now)
            case Stop(r) => r.at <= deadline + TryLateness(a, pol, Some(deadline), requestOk, attempt, now, before)
            case Again(_, next) => next <= deadline + TryLateness(a, pol, Some(deadline), requestOk, attempt, now, before)
  {
    var began := now + a.pause;
    if Budget(Some(deadline), began) != Some(0) {
      AttemptEnds(deadline, began, a.took);
      SleepEnds(deadline, began + a.took, Delay(pol, a.reply, attempt), a, Overrun(Some(deadline), began, a.took));
    }
  }

  lemma {:induction false} EndBounded(
      w: World, pol: Policy, deadline: nat, requestOk: bool, attempt: nat, now: nat, before: nat)
    requires now <= deadline + before
    ensures Attempts(w, pol, Some(deadline), requestOk, attempt, now).at
         <= deadline + Lateness(w, pol, Some(deadline), requestOk, attempt, now, before)
    decreases pol.maxAttempts + 1 - attempt
  {
    if attempt <= pol.maxAttempts {
      var a := w(attempt);
      TryEnds(a, pol, deadline, requestOk, attempt, now, before);
      match Try(a, pol, Some(deadline), requestOk, attempt, now)
      case Stop(r) =>
      case Again(_, next) =>
        EndBounded(w, pol, deadline, requestOk, attempt + 1, next,
                   TryLateness(a, pol, Some(deadline), requestOk, attempt, now, before));
    }
  }

  /** The last attempt keeps to its budget, and the sleep and the gate before it come on time. */
  predicate Exact(w: World, pol: Policy, deadline: Option<nat>, requestOk: bool, start: nat) {
    Lateness(w, pol, deadline, requestOk, 1, start, 0) == 0
  }

  /**
   The whole call, with all its attempts and sleeps, overruns `timeoutMs` by no more than its last
   attempt and the sleep before it are late; delays do not add up over the attempts. It does not
   overrun at all when those keep to their budget and are exact.
   */
  lemma TotalTimeBounded(w: World, pol: Policy, timeoutMs: nat, clockMax: nat, requestOk: bool, start: nat)
    requires start + timeoutMs * MS <= clockMax
    ensures var deadline := DeadlineOf(start, Some(timeoutMs), clockMax);
            var end := Attempts(w, pol, deadline, requestOk, 1, start).at;
            && end <= start + timeoutMs * MS + Lateness(w, pol, deadline, requestOk, 1, start, 0)
            && (Exact(w, pol, deadline, requestOk, start) ==> end - start <= timeoutMs * MS)
  {
    var deadline := start + timeoutMs * MS;
    assert DeadlineOf(start, Some(timeoutMs), clockMax) == Some(deadline);
    EndBounded(w, pol, deadline, requestOk, 1, start, 0);
  }

  /**
   What the outside does around one attempt keeps to the budget and to the clock: a request that is sent
   takes no longer than its budget, a sleep begins at once and wakes on time, and no time passes before
   a check that finds the budget gone.
   */
  predicate Prompt(a: Attempt, pol: Policy, deadline: Option<nat>, requestOk: bool, attempt: nat, now: nat) {
    var inTime := Overrun(deadline, now + a.pause, a.took) == 0;
    match Try(a, pol, deadline, requestOk, attempt, now)
    case Stop(r) => if r.end.TimedOut? then a.pause == 0 else r.sent != [] ==> inTime
    case Again(_, _) => inTime && (Delay(pol, a.reply, attempt) > 0 ==> a.lag == 0 && a.late == 0)
  }

  /** Every attempt that is made is prompt. */
  predicate AllPrompt(w: World, pol: Policy, deadline: Option<nat>, requestOk: bool, attempt: nat, now: nat)
    decreases pol.maxAttempts + 1 - attempt
  {
    attempt <= pol.maxAttempts ==>
      && Prompt(w(attempt), pol, deadline, requestOk, attempt, now)
      && match Try(w(attempt), pol, deadline, requestOk, attempt, now)
         case Stop(_) => true
         case Again(_, next) => AllPrompt(w, pol, deadline, requestOk, attempt + 1, next)
  }

  /** A call whose attempts are all prompt is exact. */
  lemma {:induction false} PromptIsExact(w: World, pol: Policy, deadline: Option<nat>, requestOk: bool, attempt: nat, now: nat)
    requires AllPrompt(w, pol, deadline, requestOk, attempt, now)
    ensures Lateness(w, pol, deadline, requestOk, attempt, now, 0) == 0
    decreases pol.maxAttempts + 1 - attempt
  {
    if attempt <= pol.maxAttempts {
      match Try(w(attempt), pol, deadline, requestOk, attempt, now)
      case Stop(_) =>
      case Again(_, next) => PromptIsExact(w, pol, deadline, requestOk, attempt + 1, next);
    }
  }
}
