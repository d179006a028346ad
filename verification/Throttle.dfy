/** lib/rpcchain/throttle.go: the request throttle. */
module Throttles {
  import opened Prelude
  import opened Float64
  import opened Environment

  /** The time of the last grant is the end of the list; a throttle that has granted nothing has the zero time. */
  datatype Limiter = Limiter(interval: int, grants: seq<int>)

  datatype Waited = Waited(limiter: Limiter, world: World, granted: bool)

  /** The interval, in nanoseconds, of a rate. */
  function IntervalOf(requestsPerSec: real): int {
    ToInt64((SECOND as real / (if requestsPerSec <= 0.0 then 10.0 else requestsPerSec)).Floor)
  }

  predicate IsFree(l: Limiter, now: int) {
    l.grants == [] || now - l.grants[|l.grants| - 1] >= l.interval
  }

  function Grant(l: Limiter, w: World): Waited { Waited(l.(grants := l.grants + [w.now]), w, true) }

  /** One call of Wait. */
  function Waiting(l: Limiter, env: Env, w: World): Waited {
    if l.interval <= 0 then Waited(l, w, true)
    else
      var read := Tick(env, w);
      if IsFree(l, read.now) then Grant(l, Tick(env, read))
      else if env.cancelled(read.step) then Waited(l, Tick(env, read), false)
      else
        var wait := l.interval - (read.now - l.grants[|l.grants| - 1]);
        Grant(l, Tick(env, Sleep(env, read, wait)))
  }

  class Throttle {
    const interval: int
    var last: Option<int>
    ghost var grants: seq<int>

    ghost predicate Valid()
      reads this
    {
      last == if grants == [] then None else Some(grants[|grants| - 1])
    }

    ghost function State(): Limiter
      reads this
    {
      Limiter(interval, grants)
    }

    constructor (requestsPerSec: real)
      ensures Valid() && State() == Limiter(IntervalOf(requestsPerSec), [])
    {
      var rate := if requestsPerSec <= 0.0 then 10.0 else requestsPerSec;
      interval := ToInt64((SECOND as real / rate).Floor);
      last := None;
      grants := [];
    }

    method Wait(env: Env, w: World) returns (world: World, granted: bool)
      requires Valid()
      modifies this
      ensures Valid()
      ensures Waited(State(), world, granted) == Waiting(old(State()), env, w)
    {
      if interval <= 0 {
        return w, true;
      }
      world := Tick(env, w);
      if last.None? || world.now - last.value >= interval {
        world := Tick(env, world);
      } else {
        var wait := interval - (world.now - last.value);
        if env.cancelled(world.step) {
          return Tick(env, world), false;
        }
        world := Tick(env, Sleep(env, world, wait));
      }
      last := Some(world.now);
      grants := grants + [world.now];
      granted := true;
    }
  }

  // ----- The rate

  /** Consecutive grants are an interval apart, and none is in the future. */
  ghost predicate Spaced(l: Limiter, now: int) {
    && (forall i :: 0 <= i < |l.grants| - 1 ==> l.grants[i + 1] - l.grants[i] >= l.interval)
    && (l.grants != [] ==> l.grants[|l.grants| - 1] <= now)
  }

  lemma WaitKeepsSpacing(l: Limiter, env: Env, w: World)
    requires Spaced(l, w.now)
    ensures var out := Waiting(l, env, w);
            Spaced(out.limiter, out.world.now) && Follows(out.world, w) && out.limiter.interval == l.interval
    ensures NotesGrants(l, Waiting(l, env, w))
  {}

  /** A limiting throttle notes exactly the calls it lets through. */
  predicate NotesGrants(l: Limiter, out: Waited) {
    out.limiter.grants == if l.interval > 0 && out.granted then l.grants + [out.world.now] else l.grants
  }

  /** No call waits longer than it must: while time passes only in the timer, it is let through at once, or an interval after the
      last grant, and only a cancelled context keeps it out. */
  lemma WaitsNoLonger(l: Limiter, env: Env, w: World)
    requires l.interval > 0 && forall step: nat :: env.elapsed(step) == 0
    ensures var out, due := Waiting(l, env, w), if l.grants == [] then w.now else Max(w.now, l.grants[|l.grants| - 1] + l.interval);
            && (out.granted ==> out.world.now == due)
            && (!out.granted ==> due > w.now && exists step: nat :: env.cancelled(step))
  {}

  /** A run of Wait calls with arbitrary pauses between them. */
  function Run(l: Limiter, env: Env, w: World, pauses: seq<nat>): (Limiter, World)
    decreases |pauses|
  {
    if pauses == [] then (l, w)
    else
      var out := Waiting(l, env, w.(now := w.now + pauses[0]));
      Run(out.limiter, env, out.world, pauses[1..])
  }

  lemma PausedKeepsSpacing(l: Limiter, env: Env, w: World, paused: World, out: Waited)
    requires Spaced(l, w.now) && paused.now >= w.now && out == Waiting(l, env, paused)
    ensures Spaced(out.limiter, out.world.now) && out.limiter.interval == l.interval
  {
    WaitKeepsSpacing(l, env, paused);
  }

  lemma {:induction false} RunKeepsSpacing(l: Limiter, env: Env, w: World, pauses: seq<nat>)
    requires Spaced(l, w.now)
    ensures Spaced(Run(l, env, w, pauses).0, Run(l, env, w, pauses).1.now)
    ensures Run(l, env, w, pauses).0.interval == l.interval
    decreases |pauses|
  {
    if pauses != [] {
      var paused := w.(now := w.now + pauses[0]);
      var out := Waiting(l, env, paused);
      PausedKeepsSpacing(l, env, w, paused, out);
      RunKeepsSpacing(out.limiter, env, out.world, pauses[1..]);
    }
  }

  /** The grants in the window from `from` of length `width`. */
  function Within(grants: seq<int>, from: int, width: nat): set<nat> {
    set i: nat | i < |grants| && from <= grants[i] <= from + width
  }

  lemma {:induction false} Apart(l: Limiter, now: int, i: nat, j: nat)
    requires Spaced(l, now) && i <= j < |l.grants|
    ensures l.grants[j] - l.grants[i] >= (j - i) * l.interval
  {
    if i < j {
      Apart(l, now, i, j - 1);
      assert (j - i) * l.interval == (j - 1 - i) * l.interval + l.interval;
    }
  }

  lemma {:induction false} AtMost(s: set<nat>, low: nat, high: nat)
    requires low <= high && forall i :: i in s ==> low <= i < high
    ensures |s| <= high - low
  {
    if low == high {
      assert s == {};
    } else {
      var rest := s - {high - 1};
      AtMost(rest, low, high - 1);
      assert s <= rest + {high - 1};
    }
  }

  /** The rates that limit anything, in requests a second: the default that stands for a rate of zero or less, and those whose
      interval is at least a nanosecond and below 2^63 of them. */
  predicate Limits(rate: real) {
    rate <= 0.0 || SECOND as real / TWO_TO_63 as real < rate <= SECOND as real
  }

  lemma QuotientFloor(n: real, d: real, bound: nat)
    requires d > 0.0 && n > 0.0
    ensures (n / d).Floor >= bound <==> n >= bound as real * d
    ensures (n / d).Floor >= 0
  {
    var q := n / d;
    assert q * d == n && q > 0.0;
    if q.Floor >= bound {
      assert q >= bound as real;
      Scales(bound as real, q, d);
    } else {
      assert q < bound as real;
      Scales(q, bound as real, d);
    }
  }

  lemma Scales(a: real, b: real, d: real)
    requires d > 0.0
    ensures a <= b ==> a * d <= b * d
    ensures a < b ==> a * d < b * d
  {}

  /** Exactly these rates have a positive interval; under any other the throttle lets every call through at once, for ever. */
  lemma LimitsIff(rate: real)
    ensures IntervalOf(rate) > 0 <==> Limits(rate)
  {
    if rate > 0.0 {
      QuotientFloor(SECOND as real, rate, 1);
      QuotientFloor(SECOND as real, rate, TWO_TO_63);
      assert SECOND as real / TWO_TO_63 as real < rate <==> SECOND as real < TWO_TO_63 as real * rate;
    } else {
      assert (SECOND as real / 10.0).Floor == 100_000_000;
    }
  }

  lemma UnlimitedRateIsFree(rate: real, grants: seq<int>, env: Env, w: World)
    requires !Limits(rate)
    ensures var l := Limiter(IntervalOf(rate), grants); Waiting(l, env, w) == Waited(l, w, true)
  {
    LimitsIff(rate);
  }

  /** The throttle's promise: after any run of calls, cancelled ones included, no window of time holds more grants than its
      length in intervals, plus one. */
  lemma RateIsBounded(rate: real, env: Env, w: World, pauses: seq<nat>, from: int, width: nat)
    requires Limits(rate)
    ensures IntervalOf(rate) > 0
    ensures var grants := Run(Limiter(IntervalOf(rate), []), env, w, pauses).0.grants;
            |Within(grants, from, width)| <= width / IntervalOf(rate) + 1
  {
    LimitsIff(rate);
    var l := Limiter(IntervalOf(rate), []);
    RunKeepsSpacing(l, env, w, pauses);
    var out := Run(l, env, w, pauses);
    WindowIsBounded(out.0, out.1.now, from, width);
  }

  lemma WindowIsBounded(l: Limiter, now: int, from: int, width: nat)
    requires Spaced(l, now) && l.interval > 0
    ensures |Within(l.grants, from, width)| <= width / l.interval + 1
  {
    forall low: nat, i: nat | low <= i < |l.grants| && from <= l.grants[low] && l.grants[i] <= from + width
      ensures i - low <= width / l.interval
    {
      InWindow(l, now, from, width, low, i);
    }
    CloseTogether(l.grants, from, width, width / l.interval);
  }

  /** If no two grants of the window are more than `most` apart in the list, the window holds at most one more. */
  lemma CloseTogether(grants: seq<int>, from: int, width: nat, most: nat)
    requires forall low: nat, i: nat :: low <= i < |grants| && from <= grants[low] && grants[i] <= from + width ==> i - low <= most
    ensures |Within(grants, from, width)| <= most + 1
  {
    var low := 0;
    while low < |grants| && grants[low] < from
      invariant low <= |grants| && forall i :: 0 <= i < low ==> grants[i] < from
    {
      low := low + 1;
    }
    AtMost(Within(grants, from, width), low, low + most + 1);
  }

  lemma InWindow(l: Limiter, now: int, from: int, width: nat, low: nat, i: nat)
    requires Spaced(l, now) && l.interval > 0
    requires low <= i < |l.grants| && from <= l.grants[low] && l.grants[i] <= from + width
    ensures i - low <= width / l.interval
  {
    Apart(l, now, low, i);
    AtMostQuotient(i - low, l.interval, width);
  }

  lemma AtMostQuotient(k: nat, d: int, n: nat)
    requires d > 0 && k * d <= n
    ensures k <= n / d
  {
    Multiples(n / d + 1, k, d);
    assert n == n / d * d + n % d;
    assert (n / d + 1) * d == n / d * d + d;
  }

  /** The default rate is ten a second; one rate of each kind that turns the throttle off. */
  lemma RateExtremes()
    ensures forall rate: real :: rate <= 0.0 ==> IntervalOf(rate) == 100_000_000
    ensures IntervalOf(0.0000000001) == -TWO_TO_63
    ensures IntervalOf(2_000_000_000.0) == 0
  {
    assert (SECOND as real / 10.0) == 100_000_000.0;
    assert (SECOND as real / 0.0000000001) == 10_000_000_000_000_000_000.0;
    assert (SECOND as real / 2_000_000_000.0) == 0.5;
  }

  /** A limiting throttle turns a call away exactly when the last grant is less than an interval ago and the context is done. */
  lemma RefusesIff(l: Limiter, env: Env, w: World)
    requires l.interval > 0
    ensures !Waiting(l, env, w).granted <==>
              && l.grants != [] && w.now + env.elapsed(w.step) - l.grants[|l.grants| - 1] < l.interval
              && env.cancelled(w.step + 1)
  {}

  /** The interval is a second divided by the rate, rounded down to nanoseconds. */
  lemma IntervalIs(rate: real)
    requires rate > 0.0 && Limits(rate)
    ensures IntervalOf(rate) as real <= 1_000_000_000.0 / rate < IntervalOf(rate) as real + 1.0
  {
    LimitsIff(rate);
  }
}
