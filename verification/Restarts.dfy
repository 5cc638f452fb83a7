/** The sliding-window limiter on worker restarts. Instants and durations are nanosecond counts. */
module Restarts {

  /** The limiter as a value: what its fields hold. */
  datatype Guard = Guard(window: nat, maxRestarts: nat, restarts: seq<nat>)

  /** `duration_since` saturates at zero, so an instant is outdated only when `now` is past it. */
  predicate Outdated(at: nat, now: nat, window: nat) {
    (if now > at then now - at else 0) > window
  }

  /** Dropping outdated entries from the front. */
  function Evict(q: seq<nat>, now: nat, window: nat): seq<nat> {
    if q != [] && Outdated(q[0], now, window) then Evict(q[1..], now, window) else q
  }

  /** `allow_restart`: the limiter afterwards, and whether the restart is granted. */
  function Allow(g: Guard, now: nat): (Guard, bool) {
    var q := Evict(g.restarts, now, g.window);
    if |q| >= g.maxRestarts then (g.(restarts := q), false) else (g.(restarts := q + [now]), true)
  }

  class RestartGuard {
    const window: nat
    const maxRestarts: nat
    var restarts: seq<nat>

    constructor (window: nat, maxRestarts: nat)
      ensures State() == Guard(window, maxRestarts, [])
    {
      this.window := window;
      this.maxRestarts := maxRestarts;
      restarts := [];
    }

    ghost function State(): Guard
      reads this
    {
      Guard(window, maxRestarts, restarts)
    }

    method AllowRestart(now: nat) returns (granted: bool)
      modifies this
      ensures (State(), granted) == Allow(old(State()), now)
    {
      while restarts != [] && Outdated(restarts[0], now, window)
        invariant Evict(restarts, now, window) == Evict(old(restarts), now, window)
        decreases |restarts|
      {
        restarts := restarts[1..];
      }
      if |restarts| >= maxRestarts {
        return false;
      }
      restarts := restarts + [now];
      return true;
    }
  }

  // ----- whole runs ------------------------------------------------------------------------

  predicate Sorted(s: seq<nat>) {
    forall i, j :: 0 <= i < j < |s| ==> s[i] <= s[j]
  }

  /** The grants that a call at `now` still remembers. */
  function Recent(grants: seq<nat>, now: nat, window: nat): seq<nat> {
    if grants == [] then []
    else (if Outdated(grants[0], now, window) then [] else [grants[0]]) + Recent(grants[1..], now, window)
  }

  /** The instants granted over a run of calls, after the grants made before it. */
  function Grants(g: Guard, grants: seq<nat>, times: seq<nat>): seq<nat>
    decreases |times|
  {
    if times == [] then grants
    else
      var (next, granted) := Allow(g, times[0]);
      Grants(next, if granted then grants + [times[0]] else grants, times[1..])
  }

  function Final(g: Guard, times: seq<nat>): Guard
    decreases |times|
  {
    if times == [] then g else Final(Allow(g, times[0]).0, times[1..])
  }

  function Latest(times: seq<nat>, before: nat): nat {
    if times == [] then before else times[|times| - 1]
  }

  /** How many instants of `s` fall within the closed interval. */
  function CountIn(s: seq<nat>, lo: nat, hi: nat): nat {
    if s == [] then 0 else (if lo <= s[0] <= hi then 1 else 0) + CountIn(s[1..], lo, hi)
  }

  /** Any grant and the one `maxRestarts` later are more than a window apart. */
  predicate Spaced(grants: seq<nat>, window: nat, maxRestarts: nat) {
    forall i :: 0 <= i < |grants| - maxRestarts ==> grants[i + maxRestarts] > grants[i] + window
  }

  /** What every call keeps, given all grants so far and the latest call. */
  ghost predicate Inv(g: Guard, grants: seq<nat>, last: nat) {
    && Sorted(grants)
    && (forall i :: 0 <= i < |grants| ==> grants[i] <= last)
    && g.restarts == Recent(grants, last, g.window)
    && Spaced(grants, g.window, g.maxRestarts)
  }

  /** The first `k` instants, and only those, are outdated. */
  ghost predicate Cut(s: seq<nat>, now: nat, window: nat, k: nat) {
    k <= |s| && forall i :: 0 <= i < |s| ==> (Outdated(s[i], now, window) <==> i < k)
  }

  lemma {:induction false} SortedIsCut(s: seq<nat>, now: nat, window: nat) returns (k: nat)
    requires Sorted(s)
    ensures Cut(s, now, window, k)
  {
    k := 0;
    while k < |s| && Outdated(s[k], now, window)
      invariant k <= |s| && forall i :: 0 <= i < k ==> Outdated(s[i], now, window)
    {
      k := k + 1;
    }
    forall i | k <= i < |s| ensures !Outdated(s[i], now, window) {
      assert s[k] <= s[i];
    }
  }

  /** What is still within the window is what follows the cut. */
  lemma {:induction false} CutIsSuffix(s: seq<nat>, now: nat, window: nat, k: nat)
    requires Cut(s, now, window, k)
    ensures Recent(s, now, window) == s[k..] && Evict(s, now, window) == s[k..]
  {
    if s != [] {
      assert forall i :: 0 <= i < |s[1..]| ==> s[1..][i] == s[i + 1];
      CutIsSuffix(s[1..], now, window, if k > 0 then k - 1 else 0);
      assert k == 0 ==> [s[0]] + s[1..] == s;
    }
  }

  lemma LaterCut(s: seq<nat>, last: nat, now: nat, window: nat, k: nat, n: nat)
    requires Cut(s, last, window, k) && Cut(s, now, window, n) && last <= now
    ensures k <= n
  {
    assert k > 0 ==> Outdated(s[k - 1], last, window) && Outdated(s[k - 1], now, window);
  }

  /** Evicting what an earlier call remembered leaves what this call remembers of all grants. */
  lemma EvictRecent(grants: seq<nat>, last: nat, now: nat, window: nat)
    requires Sorted(grants) && last <= now
    ensures Evict(Recent(grants, last, window), now, window) == Recent(grants, now, window)
  {
    var k := SortedIsCut(grants, last, window);
    var n := SortedIsCut(grants, now, window);
    LaterCut(grants, last, now, window, k, n);
    CutIsSuffix(grants, last, window, k);
    CutIsSuffix(grants, now, window, n);
    assert Cut(grants[k..], now, window, n - k);
    CutIsSuffix(grants[k..], now, window, n - k);
  }

  lemma AllowKeeps(g: Guard, grants: seq<nat>, last: nat, now: nat)
    requires Inv(g, grants, last) && last <= now
    ensures var (next, granted) := Allow(g, now);
            Inv(next, if granted then grants + [now] else grants, now)
  {
    EvictRecent(grants, last, now, g.window);
    var q := Recent(grants, now, g.window);
    if |q| < g.maxRestarts {
      var k := SortedIsCut(grants, now, g.window);
      CutIsSuffix(grants, now, g.window, k);
      var more := grants + [now];
      forall i | 0 <= i < |more| - g.maxRestarts ensures more[i + g.maxRestarts] > more[i] + g.window {
        if i + g.maxRestarts == |grants| { assert Outdated(grants[i], now, g.window); }
      }
      RecentSnoc(grants, now, g.window);
    }
  }

  lemma {:induction false} RecentSnoc(s: seq<nat>, now: nat, window: nat)
    ensures Recent(s + [now], now, window) == Recent(s, now, window) + [now]
  {
    if s == [] {
      assert [] + [now] == [now];
    } else {
      RecentSnoc(s[1..], now, window);
      assert (s + [now])[1..] == s[1..] + [now];
    }
  }

  lemma SortedTail(times: seq<nat>)
    requires times != [] && Sorted(times)
    ensures Sorted(times[1..]) && (times[1..] != [] ==> times[0] <= times[1..][0])
    ensures Latest(times, 0) == Latest(times[1..], times[0])
  {
  }

  lemma {:induction false} RunKeeps(g: Guard, grants: seq<nat>, last: nat, times: seq<nat>)
    requires Inv(g, grants, last) && Sorted(times) && (times != [] ==> last <= times[0])
    ensures Inv(Final(g, times), Grants(g, grants, times), Latest(times, last))
    decreases |times|
  {
    if times != [] {
      var now, rest := times[0], times[1..];
      var (next, granted) := Allow(g, now);
      AllowKeeps(g, grants, last, now);
      SortedTail(times);
      RunKeeps(next, if granted then grants + [now] else grants, now, rest);
    }
  }

  // ----- counting --------------------------------------------------------------------------

  lemma {:induction false} CountAppend(a: seq<nat>, b: seq<nat>, lo: nat, hi: nat)
    ensures CountIn(a + b, lo, hi) == CountIn(a, lo, hi) + CountIn(b, lo, hi)
  {
    if a == [] {
      assert a + b == b;
    } else {
      CountAppend(a[1..], b, lo, hi);
      assert (a + b)[1..] == a[1..] + b;
    }
  }

  lemma {:induction false} CountBound(s: seq<nat>, lo: nat, hi: nat)
    ensures CountIn(s, lo, hi) <= |s|
    ensures (forall i :: 0 <= i < |s| ==> !(lo <= s[i] <= hi)) ==> CountIn(s, lo, hi) == 0
  {
    if s != [] {
      CountBound(s[1..], lo, hi);
    }
  }

  lemma {:induction false} FirstAtLeast(s: seq<nat>, lo: nat) returns (k: nat)
    requires Sorted(s)
    ensures k <= |s| && forall i :: 0 <= i < |s| ==> (s[i] < lo <==> i < k)
  {
    k := 0;
    while k < |s| && s[k] < lo
      invariant k <= |s| && forall i :: 0 <= i < k ==> s[i] < lo
    {
      k := k + 1;
    }
  }

  lemma CountThree(a: seq<nat>, b: seq<nat>, c: seq<nat>, lo: nat, hi: nat)
    requires forall i :: 0 <= i < |a| ==> a[i] < lo
    requires forall i :: 0 <= i < |c| ==> c[i] > hi
    ensures CountIn(a + (b + c), lo, hi) <= |b|
  {
    CountAppend(a, b + c, lo, hi);
    CountAppend(b, c, lo, hi);
    CountBound(a, lo, hi);
    CountBound(b, lo, hi);
    CountBound(c, lo, hi);
  }

  lemma FarGrants(s: seq<nat>, window: nat, maxRestarts: nat, lo: nat, k: nat)
    requires Sorted(s) && Spaced(s, window, maxRestarts) && k <= |s| && (k < |s| ==> s[k] >= lo)
    ensures forall i :: k + maxRestarts <= i < |s| ==> s[i] > lo + window
  {
    forall i | k + maxRestarts <= i < |s| ensures s[i] > lo + window {
      assert s[k + maxRestarts] > s[k] + window;
      assert i > k + maxRestarts ==> s[k + maxRestarts] <= s[i];
    }
  }

  lemma ThreeParts(s: seq<nat>, k: nat, end: nat)
    requires k <= end <= |s|
    ensures s == s[..k] + (s[k..end] + s[end..])
  {
  }

  lemma SpacedCount(s: seq<nat>, window: nat, maxRestarts: nat, lo: nat)
    requires Sorted(s) && Spaced(s, window, maxRestarts)
    ensures CountIn(s, lo, lo + window) <= maxRestarts
  {
    var k := FirstAtLeast(s, lo);
    var end := if k + maxRestarts <= |s| then k + maxRestarts else |s|;
    FarGrants(s, window, maxRestarts, lo, k);
    ThreeParts(s, k, end);
    CountThree(s[..k], s[k..end], s[end..], lo, lo + window);
  }

  /**
   For calls at non-decreasing times, no closed interval of the window's length holds more than the
   allowed number of grants, and the limiter remembers exactly the grants still within the window.
   */
  lemma RestartBound(window: nat, maxRestarts: nat, times: seq<nat>, lo: nat)
    requires Sorted(times)
    ensures var g := Guard(window, maxRestarts, []);
            && CountIn(Grants(g, [], times), lo, lo + window) <= maxRestarts
            && Final(g, times).restarts == Recent(Grants(g, [], times), Latest(times, 0), window)
  {
    var g := Guard(window, maxRestarts, []);
    RunKeeps(g, [], 0, times);
    FinalKeepsLimits(g, times);
    SpacedCount(Grants(g, [], times), window, maxRestarts, lo);
  }

  lemma {:induction false} FinalKeepsLimits(g: Guard, times: seq<nat>)
    ensures Final(g, times).window == g.window && Final(g, times).maxRestarts == g.maxRestarts
    decreases |times|
  {
    if times != [] { FinalKeepsLimits(Allow(g, times[0]).0, times[1..]); }
  }

  lemma {:induction false} RecentCount(grants: seq<nat>, now: nat, window: nat)
    requires forall i :: 0 <= i < |grants| ==> grants[i] <= now
    ensures |Recent(grants, now, window)| == CountIn(grants, if now > window then now - window else 0, now)
  {
    if grants != [] { RecentCount(grants[1..], now, window); }
  }

  /** A call is granted exactly if fewer restarts than allowed were granted in the window that ends with it. */
  lemma GrantedExactly(window: nat, maxRestarts: nat, times: seq<nat>, now: nat)
    requires Sorted(times) && Latest(times, 0) <= now
    ensures var g := Guard(window, maxRestarts, []);
            Allow(Final(g, times), now).1 <==>
            CountIn(Grants(g, [], times), if now > window then now - window else 0, now) < maxRestarts
  {
    var g := Guard(window, maxRestarts, []);
    var grants := Grants(g, [], times);
    RunKeeps(g, [], 0, times);
    FinalKeepsLimits(g, times);
    EvictRecent(grants, Latest(times, 0), now, window);
    RecentCount(grants, now, window);
  }
}
