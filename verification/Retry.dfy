/** lib/rpcchain/retry.go: attempts, exponential backoff and retry-after. */
module Retries {
  import opened Prelude
  import opened Environment

  datatype Policy = Policy(maxAttempts: int, baseBackoff: int, maxBackoff: int, maxRetryAfter: int, jitter: bool)

  /** Durations are 64-bit: doubling one may wrap. */
  function Wrap64(n: int): int { (n + TWO_TO_63) % TWO_TO_64 - TWO_TO_63 }

  function WithDefaults(p: Policy): Policy {
    Policy(if p.maxAttempts < 1 then 1 else p.maxAttempts,
           if p.baseBackoff <= 0 then SECOND / 2 else p.baseBackoff,
           if p.maxBackoff <= 0 then 30 * SECOND else p.maxBackoff,
           if p.maxRetryAfter <= 0 then 60 * SECOND else p.maxRetryAfter,
           p.jitter)
  }

  predicate IsPolicy(p: Policy) { p.maxAttempts >= 1 && p.baseBackoff > 0 && p.maxBackoff > 0 && p.maxRetryAfter > 0 }

  function Jittered(base: int, draw: Fraction): int {
    if base <= 0 then 0 else (base as real * (0.5 + draw)).Floor
  }

  function Doubled(p: Policy, backoff: int): int {
    var twice := Wrap64(2 * backoff);
    if twice > p.maxBackoff then p.maxBackoff else twice
  }

  predicate IsRetryable(f: Failure) { f.Classified? && f.retryable }

  predicate HasRetryAfter(f: Failure) { f.Classified? && f.retryAfter > 0 }

  function WaitFor(p: Policy, failure: Failure, backoff: int, draw: Fraction): int {
    if HasRetryAfter(failure) then Min(failure.retryAfter, p.maxRetryAfter)
    else if p.jitter then Jittered(backoff, draw)
    else backoff
  }

  function NextBackoff(p: Policy, failure: Failure, backoff: int): int {
    if HasRetryAfter(failure) then backoff else Doubled(p, backoff)
  }

  // ----- The attempts

  /** One run of the function: the state it leaves, and its answer. */
  datatype Attempt<T, R> = Attempt(world: World, state: T, answer: Result<R, Failure>)

  /** A failed attempt that was waited after. */
  datatype Pause = Pause(failure: Failure, backoff: int, draw: Fraction, wait: int)

  datatype Done<T, R> = Done(world: World, state: T, result: Result<R, Failure>, attempts: nat, pauses: seq<Pause>)

  datatype Step<T, R> = Finished(done: Done<T, R>) | Paused(world: World, state: T, pause: Pause)

  /** One attempt, and the pause after it unless it settles the matter. */
  function TryOnce<T, R>(p: Policy, env: Env, w: World, s: T, fn: (World, T) -> Attempt<T, R>, isLast: bool, backoff: int): (step: Step<T, R>)
    ensures step.Paused? ==> !isLast
  {
    var looked := w.(step := w.step + 1);
    if env.cancelled(w.step) then Finished(Done(looked, s, Err(Cancelled), 0, []))
    else
      var tried := fn(looked, s);
      if tried.answer.Ok? || !IsRetryable(tried.answer.error) || isLast then
        Finished(Done(tried.world, tried.state, tried.answer, 1, []))
      else
        var draw := env.jitter(tried.world.step);
        var wait := WaitFor(p, tried.answer.error, backoff, draw);
        var drawn := tried.world.(step := tried.world.step + 1);
        if env.cancelled(drawn.step) then Finished(Done(Tick(env, drawn), tried.state, Err(Cancelled), 1, []))
        else Paused(Sleep(env, drawn, wait), tried.state, Pause(tried.answer.error, backoff, draw, wait))
  }

  /** The attempts from number `attempt` on. */
  function DoFrom<T, R>(p: Policy, env: Env, w: World, s: T, fn: (World, T) -> Attempt<T, R>, attempt: nat, backoff: int): Done<T, R>
    requires 1 <= attempt <= p.maxAttempts
    decreases p.maxAttempts - attempt
  {
    match TryOnce(p, env, w, s, fn, attempt == p.maxAttempts, backoff)
    case Finished(done) => done
    case Paused(w', s', pause) =>
      var rest := DoFrom(p, env, w', s', fn, attempt + 1, NextBackoff(p, pause.failure, backoff));
      rest.(attempts := rest.attempts + 1, pauses := [pause] + rest.pauses)
  }

  /** Do. */
  function Doing<T, R>(policy: Policy, env: Env, w: World, s: T, fn: (World, T) -> Attempt<T, R>): Done<T, R> {
    var p := WithDefaults(policy);
    DoFrom(p, env, w, s, fn, 1, p.baseBackoff)
  }

  // ----- How often, and how long

  /** The backoff after k failures without a retry-after. */
  function Backoff(p: Policy, k: nat): int {
    if k == 0 then p.baseBackoff else Doubled(p, Backoff(p, k - 1))
  }

  /** The failure says how long to wait. */
  predicate TellsWhen(f: Failure) { f.Classified? && f.retryAfter > 0 }

  function PlainFailures(pauses: seq<Pause>, n: nat): nat
    requires n <= |pauses|
  {
    if n == 0 then 0 else PlainFailures(pauses, n - 1) + (if TellsWhen(pauses[n - 1].failure) then 0 else 1)
  }

  /** A pause after a retryable failure, with the backoff and the wait that are due after k plain failures. */
  predicate IsPause(p: Policy, pause: Pause, k: nat) {
    && IsRetryable(pause.failure)
    && pause.backoff == Backoff(p, k)
    && pause.wait == WaitFor(p, pause.failure, pause.backoff, pause.draw)
  }

  function Due(p: Policy): (Pause, nat) -> bool { (pause: Pause, k: nat) => IsPause(p, pause, k) }

  predicate IsDue(pauses: seq<Pause>, i: nat, k: nat, due: (Pause, nat) -> bool)
    requires i < |pauses|
  {
    due(pauses[i], k + PlainFailures(pauses, i))
  }

  /** Every pause is due after `k` plain failures and those before it in the list, however many retry-after failures there are in
      between. */
  ghost predicate PausesFrom(pauses: seq<Pause>, k: nat, due: (Pause, nat) -> bool) {
    forall i :: 0 <= i < |pauses| ==> IsDue(pauses, i, k, due)
  }

  lemma {:induction false} PlainFailuresTail(first: Pause, rest: seq<Pause>, n: nat)
    requires n <= |rest|
    ensures PlainFailures([first] + rest, n + 1) == (if HasRetryAfter(first.failure) then 0 else 1) + PlainFailures(rest, n)
  {
    var all := [first] + rest;
    if n == 0 {
      assert PlainFailures(all, 0) == 0;
    } else {
      PlainFailuresTail(first, rest, n - 1);
      assert all[n] == rest[n - 1];
    }
  }

  lemma MorePauses(first: Pause, rest: seq<Pause>, k: nat, k': nat, due: (Pause, nat) -> bool)
    requires due(first, k) && PausesFrom(rest, k', due) && k' == k + (if HasRetryAfter(first.failure) then 0 else 1)
    ensures PausesFrom([first] + rest, k, due)
  {
    var all := [first] + rest;
    assert IsDue(all, 0, k, due);
    forall i | 0 < i < |all|
      ensures IsDue(all, i, k, due)
    {
      PlainFailuresTail(first, rest, i - 1);
      assert IsDue(rest, i - 1, k', due);
    }
  }

  /** What the attempts from number `attempt` on come to, after k plain failures. */
  ghost predicate WithinPolicy<T, R>(p: Policy, done: Done<T, R>, attempt: nat, k: nat) {
    && PausesFrom(done.pauses, k, Due(p))
    && |done.pauses| <= p.maxAttempts - attempt
    && |done.pauses| <= done.attempts <= |done.pauses| + 1
    && (done.result.Ok? ==> done.attempts == |done.pauses| + 1)
    && (done.result.Err? && IsRetryable(done.result.error) ==> |done.pauses| == p.maxAttempts - attempt && done.attempts > |done.pauses|)
  }

  lemma OneMoreAttempt<T, R>(p: Policy, rest: Done<T, R>, pause: Pause, attempt: nat, k: nat, k': nat)
    requires IsPause(p, pause, k) && k' == k + (if HasRetryAfter(pause.failure) then 0 else 1)
    requires WithinPolicy(p, rest, attempt + 1, k')
    ensures WithinPolicy(p, rest.(attempts := rest.attempts + 1, pauses := [pause] + rest.pauses), attempt, k)
  {
    MorePauses(pause, rest.pauses, k, k', Due(p));
  }

  lemma OnceIs<T, R>(p: Policy, env: Env, w: World, s: T, fn: (World, T) -> Attempt<T, R>, isLast: bool, backoff: int, k: nat)
    requires backoff == Backoff(p, k)
    ensures var once := TryOnce(p, env, w, s, fn, isLast, backoff);
            if once.Finished?
            then
              && once.done.pauses == [] && once.done.attempts <= 1 && (once.done.result.Ok? ==> once.done.attempts == 1)
              && (once.done.result.Err? && IsRetryable(once.done.result.error) ==> isLast && once.done.attempts == 1)
            else IsPause(p, once.pause, k)
  {}

  lemma {:induction false} DoFromPauses<T, R>(p: Policy, env: Env, w: World, s: T, fn: (World, T) -> Attempt<T, R>, attempt: nat,
                                              backoff: int, k: nat)
    requires 1 <= attempt <= p.maxAttempts && backoff == Backoff(p, k)
    ensures WithinPolicy(p, DoFrom(p, env, w, s, fn, attempt, backoff), attempt, k)
    decreases p.maxAttempts - attempt
  {
    OnceIs(p, env, w, s, fn, attempt == p.maxAttempts, backoff, k);
    match TryOnce(p, env, w, s, fn, attempt == p.maxAttempts, backoff)
    case Finished(_) =>
    case Paused(w', s', pause) =>
      var next, k' := NextBackoff(p, pause.failure, backoff), k + (if HasRetryAfter(pause.failure) then 0 else 1);
      DoFromPauses(p, env, w', s', fn, attempt + 1, next, k');
      OneMoreAttempt(p, DoFrom(p, env, w', s', fn, attempt + 1, next), pause, attempt, k, k');
  }

  /** The promise of Do: at most MaxAttempts calls, and pauses only after retryable failures, each with the backoff that is due
      after the plain failures before it. */
  lemma AttemptsAreBounded<T, R>(policy: Policy, env: Env, w: World, s: T, fn: (World, T) -> Attempt<T, R>)
    ensures var done, p := Doing(policy, env, w, s, fn), WithDefaults(policy);
            && done.attempts <= p.maxAttempts && |done.pauses| <= p.maxAttempts - 1
            && (done.result.Err? && IsRetryable(done.result.error) ==> done.attempts == p.maxAttempts)
            && forall i :: 0 <= i < |done.pauses| ==> IsPause(p, done.pauses[i], PlainFailures(done.pauses, i))
  {
    var p := WithDefaults(policy);
    DoFromPauses(p, env, w, s, fn, 1, p.baseBackoff, 0);
    var done := Doing(policy, env, w, s, fn);
    forall i | 0 <= i < |done.pauses|
      ensures IsPause(p, done.pauses[i], PlainFailures(done.pauses, i))
    {
      assert IsDue(done.pauses, i, 0, Due(p));
    }
  }

  // ----- The backoff in closed form

  function Closed(p: Policy, k: nat): int {
    if k == 0 then p.baseBackoff else Min(p.baseBackoff * Pow2(k), p.maxBackoff)
  }

  lemma DoublesBelow62Bits(p: Policy, backoff: int)
    requires 0 < backoff < TWO_TO_62
    ensures Doubled(p, backoff) == Min(2 * backoff, p.maxBackoff)
  {}

  lemma DoublingWraps(p: Policy, backoff: int)
    requires TWO_TO_62 <= backoff < TWO_TO_63 && 0 < p.maxBackoff
    ensures Doubled(p, backoff) <= 0
  {}

  lemma Twice(base: int, k: nat)
    ensures base * Pow2(k + 1) == 2 * (base * Pow2(k))
  {}

  lemma BasePositive(base: int, k: nat)
    requires base > 0
    ensures base * Pow2(k) > 0
  {}

  lemma {:induction false} BackoffIsClosed(p: Policy, k: nat)
    requires IsPolicy(p) && p.baseBackoff < TWO_TO_62 && p.maxBackoff < TWO_TO_62
    ensures Backoff(p, k) == Closed(p, k) && 0 < Backoff(p, k) < TWO_TO_62
  {
    if k > 0 {
      BackoffIsClosed(p, k - 1);
      DoublesBelow62Bits(p, Backoff(p, k - 1));
      Twice(p.baseBackoff, k - 1);
      BasePositive(p.baseBackoff, k);
      if k == 1 {
        assert p.baseBackoff * Pow2(0) == p.baseBackoff;
      }
    }
  }

  /** With a base or a maximum of 2^62 nanoseconds or more, some doubling wraps. */
  lemma WrapsSomewhere(p: Policy) returns (k: nat)
    requires IsPolicy(p) && p.baseBackoff < TWO_TO_63 && p.maxBackoff < TWO_TO_63
    requires p.baseBackoff >= TWO_TO_62 || p.maxBackoff >= TWO_TO_62
    ensures Backoff(p, k) != Closed(p, k)
  {
    k := 0;
    assert p.baseBackoff * Pow2(0) == p.baseBackoff;
    while p.baseBackoff * Pow2(k) < TWO_TO_62
      invariant p.baseBackoff >= TWO_TO_62 ==> k == 0
      decreases TWO_TO_62 - p.baseBackoff * Pow2(k)
    {
      Twice(p.baseBackoff, k);
      BasePositive(p.baseBackoff, k);
      k := k + 1;
    }
    if Backoff(p, k) == Closed(p, k) {
      DoublingWraps(p, Backoff(p, k));
      BasePositive(p.baseBackoff, k + 1);
      k := k + 1;
    }
  }

  /** The backoff is base * 2^k capped at the maximum, for every number of failures, exactly when both durations are below 2^62. */
  lemma BackoffIsClosedIff(p: Policy)
    requires IsPolicy(p) && p.baseBackoff < TWO_TO_63 && p.maxBackoff < TWO_TO_63
    ensures (p.baseBackoff < TWO_TO_62 && p.maxBackoff < TWO_TO_62) <==> forall k: nat :: Backoff(p, k) == Closed(p, k)
  {
    if p.baseBackoff < TWO_TO_62 && p.maxBackoff < TWO_TO_62 {
      forall k: nat
        ensures Backoff(p, k) == Closed(p, k)
      {
        BackoffIsClosed(p, k);
      }
    } else {
      var k := WrapsSomewhere(p);
    }
  }

  // ----- The time spent waiting

  function TotalWait(pauses: seq<Pause>): nat {
    if pauses == [] then 0 else TotalWait(pauses[..|pauses| - 1]) + Max(pauses[|pauses| - 1].wait, 0)
  }

  /** Twice the longest wait: one and a half times the longest backoff, or the longest retry-after. */
  function TwiceLongest(p: Policy): int { Max(3 * Max(p.baseBackoff, p.maxBackoff), 2 * p.maxRetryAfter) }

  lemma FloorIsBetween(x: real, base: int)
    requires base as real * 0.5 <= x <= base as real * 1.5
    ensures base <= 2 * x.Floor + 1 && 2 * x.Floor <= 3 * base
  {
    var f := x.Floor;
    assert f as real <= x < (f + 1) as real;
    assert (2 * f) as real == 2.0 * (f as real) && (3 * base) as real == 3.0 * (base as real);
    assert (2 * f) as real <= (3 * base) as real;
    assert base as real < (2 * f + 2) as real;
  }

  lemma Scaled(b: real, draw: real)
    requires b > 0.0 && 0.0 <= draw < 1.0
    ensures b * 0.5 <= b * (0.5 + draw) <= b * 1.5
  {
    assert b * (0.5 + draw) == b * 0.5 + b * draw;
  }

  /** Half to one and a half times the base. */
  lemma JitterIsBounded(base: int, draw: Fraction)
    requires base > 0
    ensures base <= 2 * Jittered(base, draw) + 1 && 2 * Jittered(base, draw) <= 3 * base
  {
    Scaled(base as real, draw);
    FloorIsBetween(base as real * (0.5 + draw), base);
  }

  lemma BackoffIsAtMost(p: Policy, k: nat)
    ensures Backoff(p, k) <= Max(p.baseBackoff, p.maxBackoff)
  {}

  lemma WaitIsBounded(p: Policy, pause: Pause, k: nat)
    requires IsPolicy(p) && IsPause(p, pause, k)
    ensures 2 * Max(pause.wait, 0) <= TwiceLongest(p)
  {
    BackoffIsAtMost(p, k);
    if pause.backoff > 0 {
      JitterIsBounded(pause.backoff, pause.draw);
    }
  }

  /** A pause in closed form: the retry-after up to its maximum, or the backoff, give or take a half of it with jitter. */
  lemma PauseIsClosed(p: Policy, pause: Pause, k: nat)
    requires IsPolicy(p) && p.baseBackoff < TWO_TO_62 && p.maxBackoff < TWO_TO_62 && IsPause(p, pause, k)
    ensures if TellsWhen(pause.failure) then pause.wait == Min(pause.failure.retryAfter, p.maxRetryAfter)
            else if p.jitter then Closed(p, k) <= 2 * pause.wait + 1 && 2 * pause.wait <= 3 * Closed(p, k)
            else pause.wait == Closed(p, k)
  {
    BackoffIsClosed(p, k);
    JitterIsBounded(pause.backoff, pause.draw);
  }

  lemma {:induction false} TotalIsBounded(pauses: seq<Pause>, twiceLongest: nat)
    requires forall i :: 0 <= i < |pauses| ==> 2 * Max(pauses[i].wait, 0) <= twiceLongest
    ensures 2 * TotalWait(pauses) <= |pauses| * twiceLongest
  {
    if pauses != [] {
      TotalIsBounded(pauses[..|pauses| - 1], twiceLongest);
      assert |pauses| * twiceLongest == (|pauses| - 1) * twiceLongest + twiceLongest;
    }
  }

  /** All pauses of a Do together: at most MaxAttempts - 1 times the longest wait. */
  lemma WaitingIsBounded<T, R>(policy: Policy, env: Env, w: World, s: T, fn: (World, T) -> Attempt<T, R>)
    ensures var p := WithDefaults(policy);
            2 * TotalWait(Doing(policy, env, w, s, fn).pauses) <= (p.maxAttempts - 1) * TwiceLongest(p)
  {
    var p, pauses := WithDefaults(policy), Doing(policy, env, w, s, fn).pauses;
    AttemptsAreBounded(policy, env, w, s, fn);
    forall i | 0 <= i < |pauses|
      ensures 2 * Max(pauses[i].wait, 0) <= TwiceLongest(p)
    {
      WaitIsBounded(p, pauses[i], PlainFailures(pauses, i));
    }
    TotalIsBounded(pauses, TwiceLongest(p));
    MoreTimes(|pauses|, p.maxAttempts - 1, TwiceLongest(p));
  }

  lemma MoreTimes(a: int, b: int, n: nat)
    requires a <= b
    ensures a * n <= b * n
  {}

  // ----- The calls one by one

  /** What a policy says where it says something, and else one attempt, half a second, thirty seconds and a minute. */
  lemma DefaultsAre(p: Policy)
    ensures WithDefaults(p).maxAttempts == Max(1, p.maxAttempts) && WithDefaults(p).jitter == p.jitter
    ensures WithDefaults(p).baseBackoff == (if p.baseBackoff > 0 then p.baseBackoff else 500_000_000)
    ensures WithDefaults(p).maxBackoff == (if p.maxBackoff > 0 then p.maxBackoff else 30_000_000_000)
    ensures WithDefaults(p).maxRetryAfter == (if p.maxRetryAfter > 0 then p.maxRetryAfter else 60_000_000_000)
  {}

  /** With jitter, the base times one half and the draw, rounded down. */
  lemma JitterIs(base: int, draw: Fraction)
    requires base > 0
    ensures Jittered(base, draw) as real <= base as real * (0.5 + draw) < (Jittered(base, draw) + 1) as real
    ensures Jittered(0, draw) == Jittered(-base, draw) == 0
  {}

  /** When and in which state the function is called. */
  datatype Trial<T> = Trial(world: World, state: T)

  /** The failure can be retried; the next call is in the state that the failed one left, and no earlier than its pause allows. */
  predicate IsRetrial<T(==), R>(fn: (World, T) -> Attempt<T, R>, trial: Trial<T>, pause: Pause, next: Trial<T>) {
    var tried := fn(trial.world, trial.state);
    && tried.answer.Err? && tried.answer.error == pause.failure && pause.failure.Classified? && pause.failure.retryable
    && next.state == tried.state && next.world.now >= tried.world.now + Max(0, pause.wait)
  }

  /** The last call settles the matter, unless the context was done before or after it. */
  ghost predicate IsSettled<T, R>(env: Env, s: T, fn: (World, T) -> Attempt<T, R>, trials: seq<Trial<T>>, done: Done<T, R>, left: int) {
    if trials == [] then done.result == Err(Cancelled) && done.state == s && exists step: nat :: env.cancelled(step)
    else
      var last := trials[|trials| - 1];
      var tried := fn(last.world, last.state);
      || (done.result == tried.answer && done.state == tried.state
          && (tried.answer.Ok? || !(tried.answer.error.Classified? && tried.answer.error.retryable) || |trials| == left))
      || (done.result == Err(Cancelled) && done.state == tried.state && exists step: nat :: env.cancelled(step))
  }

  /** The calls, the first in the state at hand, with a pause between any two. */
  ghost predicate IsChain<T, R>(env: Env, s: T, fn: (World, T) -> Attempt<T, R>, trials: seq<Trial<T>>, done: Done<T, R>, left: int) {
    && |trials| == done.attempts && |trials| <= left && |done.pauses| >= |trials| - 1
    && (trials != [] ==> trials[0].state == s)
    && (forall i :: 0 <= i < |trials| - 1 ==> IsRetrial(fn, trials[i], done.pauses[i], trials[i + 1]))
    && IsSettled(env, s, fn, trials, done, left)
  }

  lemma {:induction false} DoFromIsChain<T, R>(p: Policy, env: Env, w: World, s: T, fn: (World, T) -> Attempt<T, R>, attempt: nat,
                                               backoff: int) returns (trials: seq<Trial<T>>)
    requires 1 <= attempt <= p.maxAttempts
    ensures IsChain(env, s, fn, trials, DoFrom(p, env, w, s, fn, attempt, backoff), p.maxAttempts - attempt + 1)
    ensures trials != [] ==> trials[0].world == w.(step := w.step + 1)
    decreases p.maxAttempts - attempt
  {
    var looked := w.(step := w.step + 1);
    trials := if env.cancelled(w.step) then [] else [Trial(looked, s)];
    match TryOnce(p, env, w, s, fn, attempt == p.maxAttempts, backoff)
    case Finished(done) =>
    case Paused(w', s', pause) =>
      var rest := DoFromIsChain(p, env, w', s', fn, attempt + 1, NextBackoff(p, pause.failure, backoff));
      MoreTrials(p, env, w, s, fn, attempt, backoff, rest);
      trials := trials + rest;
  }

  lemma MoreTrials<T, R>(p: Policy, env: Env, w: World, s: T, fn: (World, T) -> Attempt<T, R>, attempt: nat, backoff: int,
                         rest: seq<Trial<T>>)
    requires 1 <= attempt < p.maxAttempts && TryOnce(p, env, w, s, fn, false, backoff).Paused?
    requires var once := TryOnce(p, env, w, s, fn, false, backoff);
             && IsChain(env, once.state, fn, rest,
                        DoFrom(p, env, once.world, once.state, fn, attempt + 1, NextBackoff(p, once.pause.failure, backoff)),
                        p.maxAttempts - attempt)
             && (rest != [] ==> rest[0].world == once.world.(step := once.world.step + 1))
    ensures IsChain(env, s, fn, [Trial(w.(step := w.step + 1), s)] + rest, DoFrom(p, env, w, s, fn, attempt, backoff),
                    p.maxAttempts - attempt + 1)
  {
    var once, first := TryOnce(p, env, w, s, fn, false, backoff), Trial(w.(step := w.step + 1), s);
    var later := DoFrom(p, env, once.world, once.state, fn, attempt + 1, NextBackoff(p, once.pause.failure, backoff));
    var all, done := [first] + rest, DoFrom(p, env, w, s, fn, attempt, backoff);
    assert done.pauses == [once.pause] + later.pauses;
    forall i | 0 <= i < |all| - 1
      ensures IsRetrial(fn, all[i], done.pauses[i], all[i + 1])
    {
      if i > 0 {
        assert IsRetrial(fn, rest[i - 1], later.pauses[i - 1], rest[i - 1 + 1]);
      }
    }
    if rest != [] {
      assert all[|all| - 1] == rest[|rest| - 1];
    }
  }

  /** Do, call by call: at most as many calls as the policy allows; each after the first only because the one before failed with an
      error that can be retried, in the state that one left, and after its pause; and the answer is that of the last call, which is a
      success, cannot be retried or is the last allowed, unless the context is done. */
  lemma DoIsAChain<T, R>(policy: Policy, env: Env, w: World, s: T, fn: (World, T) -> Attempt<T, R>) returns (trials: seq<Trial<T>>)
    ensures IsChain(env, s, fn, trials, Doing(policy, env, w, s, fn), Max(1, policy.maxAttempts))
    ensures trials != [] ==> trials[0].world.now == w.now && trials[0].world.log == w.log
  {
    var p := WithDefaults(policy);
    trials := DoFromIsChain(p, env, w, s, fn, 1, p.baseBackoff);
  }
}
