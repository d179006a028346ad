/** The health bookkeeping of lib/rpcchain/pool.go over whole runs of calls. */
module PoolHealth {
  import opened Prelude
  import opened Environment
  import opened Pools

  /** How often the endpoint has failed since it last answered. */
  function FailuresSince(log: seq<Visit>, endpoint: nat): nat {
    if log == [] then 0
    else
      var last, earlier := log[|log| - 1], FailuresSince(log[..|log| - 1], endpoint);
      if last.endpoint != endpoint || last.outcome.Skipped? then earlier
      else if last.outcome.Served? then 0
      else earlier + 1
  }

  lemma FailuresAfter(log: seq<Visit>, visit: Visit, endpoint: nat)
    ensures FailuresSince(log + [visit], endpoint) ==
            if visit.endpoint != endpoint || visit.outcome.Skipped? then FailuresSince(log, endpoint)
            else if visit.outcome.Served? then 0
            else FailuresSince(log, endpoint) + 1
  {
    assert (log + [visit])[..|log|] == log;
  }

  /** The counter is the number of failures since the last success, as a 32-bit integer, and an endpoint whose deadline is ahead
      has at least three of them. */
  predicate Tracks(count: int, deadline: int, failures: nat, now: int) {
    count == Wrap32(failures) && (deadline > now ==> failures >= 3)
  }

  predicate TracksAt(h: Health, w: World, e: nat)
    requires IsPool(h) && e < |h.errors|
  {
    Tracks(h.errors[e], h.downUntil[e], FailuresSince(w.log, e), w.now)
  }

  ghost predicate Healthy(h: Health, w: World)
    requires IsPool(h)
  {
    forall e: nat :: e < |h.errors| ==> TracksAt(h, w, e)
  }

  lemma CountsOn(failures: nat)
    ensures Wrap32(Wrap32(failures) + 1) == Wrap32(failures + 1)
    ensures Wrap32(failures) >= 3 ==> failures >= 3
  {
    if failures < 3 {
      assert Wrap32(failures) == failures;
    }
  }

  lemma TurnTracks<R>(h: Health, env: Env, w: World, fn: Fn<R>, idx: nat, e: nat)
    requires IsPool(h) && idx < |h.errors| && e < |h.errors|
    requires TracksAt(h, w, e)
    ensures var t := TakeTurn(h, env, w, fn, idx);
            IsPool(t.health) && |t.health.errors| == |h.errors| && TracksAt(t.health, t.world, e)
  {
    var t := TakeTurn(h, env, w, fn, idx);
    TurnIs(h, env, w, fn, idx);
    FailuresAfter(w.log, t.visit, e);
    CountsOn(FailuresSince(w.log, e));
    CountsOn(FailuresSince(w.log, e) + 1);
  }

  lemma TurnKeepsHealth<R>(h: Health, env: Env, w: World, fn: Fn<R>, idx: nat)
    requires IsPool(h) && idx < |h.errors| && Healthy(h, w)
    ensures var t := TakeTurn(h, env, w, fn, idx); IsPool(t.health) && |t.health.errors| == |h.errors| && Healthy(t.health, t.world)
  {
    TurnIs(h, env, w, fn, idx);
    forall e: nat | e < |h.errors|
      ensures TracksAt(TakeTurn(h, env, w, fn, idx).health, TakeTurn(h, env, w, fn, idx).world, e)
    {
      TurnTracks(h, env, w, fn, idx, e);
    }
  }

  lemma {:induction false} CallFromKeepsHealth<R>(h: Health, env: Env, w: World, fn: Fn<R>, start: nat, i: nat, lastErr: Option<Failure>)
    requires IsPool(h) && start < |h.errors| && i <= |h.errors| && Healthy(h, w)
    ensures Healthy(CallFrom(h, env, w, fn, start, i, lastErr).health, CallFrom(h, env, w, fn, start, i, lastErr).world)
    decreases |h.errors| - i
  {
    if i < |h.errors| {
      var idx := Rotated(start, i, |h.errors|);
      var turn := TakeTurn(h, env, w, fn, idx);
      TurnKeepsHealth(h, env, w, fn, idx);
      if turn.result.Err? {
        CallFromKeepsHealth(turn.health, env, turn.world, fn, start, i + 1, Some(turn.result.error));
      }
    }
  }

  /** After n failures in a row the next one puts the endpoint down. The counter has 32 bits, so this ends when it turns negative,
      and begins again when it is back at three. */
  predicate PutsDown(n: nat) { 2 <= n % TWO_TO_32 < TWO_TO_31 - 1 }

  lemma PutsDownIff(n: nat)
    ensures Wrap32(n + 1) >= 3 <==> PutsDown(n)
    ensures n < TWO_TO_31 - 1 ==> Wrap32(n + 1) == n + 1
  {
    var m := n % TWO_TO_32;
    assert n == n / TWO_TO_32 * TWO_TO_32 + m;
    assert (n + 1 + TWO_TO_31) % TWO_TO_32 == (m + 1 + TWO_TO_31) % TWO_TO_32;
  }

  /** The third failure in a row, and each after it while the counter lasts, puts the endpoint down for thirty seconds; the first
      two do not, and no turn changes another endpoint. */
  lemma FailurePutsDown<R>(h: Health, env: Env, w: World, fn: Fn<R>, idx: nat)
    requires IsPool(h) && idx < |h.errors| && Healthy(h, w)
    requires TakeTurn(h, env, w, fn, idx).visit.outcome.Failed?
    ensures var t := TakeTurn(h, env, w, fn, idx);
            && t.health.errors[idx] == Wrap32(FailuresSince(w.log, idx) + 1)
            && t.health.downUntil[idx] == (if PutsDown(FailuresSince(w.log, idx)) then t.world.now + 30 * SECOND else h.downUntil[idx])
            && forall e :: 0 <= e < |h.errors| && e != idx ==>
                 t.health.errors[e] == h.errors[e] && t.health.downUntil[e] == h.downUntil[e]
  {
    var n := FailuresSince(w.log, idx);
    assert TracksAt(h, w, idx);
    CountsOn(n);
    PutsDownIff(n);
  }

  lemma TimeKeepsHealth(h: Health, w: World, later: World)
    requires IsPool(h) && Healthy(h, w) && later.log == w.log && w.now <= later.now
    ensures Healthy(h, later)
  {
    forall e: nat | e < |h.errors|
      ensures TracksAt(h, later, e)
    {
      assert TracksAt(h, w, e);
    }
  }

  lemma CallKeepsHealth<R>(h: Health, env: Env, w: World, fn: Fn<R>)
    requires IsPool(h) && Healthy(h, w)
    ensures var out := Calling(h, env, w, fn); IsPool(out.health) && Healthy(out.health, out.world)
  {
    var read := Tick(env, w);
    PickIs(h, read.now);
    TimeKeepsHealth(h, w, read);
    CallFromKeepsHealth(h, env, read, fn, Pick(h, read.now), 0, None);
  }

  /** A run: calls with any functions, with any pauses before them. */
  function Run<R>(h: Health, env: Env, w: World, calls: seq<(nat, Fn<R>)>): (Health, World)
    requires IsPool(h)
    decreases |calls|
  {
    if calls == [] then (h, w)
    else
      var paused := w.(now := w.now + calls[0].0);
      var out := Calling(h, env, paused, calls[0].1);
      Run(out.health, env, out.world, calls[1..])
  }

  lemma {:induction false} RunKeepsHealth<R>(h: Health, env: Env, w: World, calls: seq<(nat, Fn<R>)>)
    requires IsPool(h) && Healthy(h, w)
    ensures var out := Run(h, env, w, calls); IsPool(out.0) && |out.0.errors| == |h.errors| && Healthy(out.0, out.1)
    decreases |calls|
  {
    if calls != [] {
      var paused := w.(now := w.now + calls[0].0);
      TimeKeepsHealth(h, w, paused);
      CallKeepsHealth(h, env, paused, calls[0].1);
      var out := Calling(h, env, paused, calls[0].1);
      RunKeepsHealth(out.health, env, out.world, calls[1..]);
    }
  }

  lemma FreshIsHealthy(n: nat, w: World)
    requires n > 0 && w.log == [] && w.now >= 0
    ensures IsPool(Fresh(n)) && Healthy(Fresh(n), w)
  {
    assert Wrap32(0) == 0;
  }

  /** Over every run from a new pool: the active endpoint is unknown or one of the pool's, and an endpoint that is down has
      failed three times or more since it last answered. */
  lemma DownMeansThreeFailures<R>(n: nat, env: Env, w: World, calls: seq<(nat, Fn<R>)>)
    requires n > 0 && w.log == [] && w.now >= 0
    ensures IsPool(Fresh(n))
    ensures var out := Run(Fresh(n), env, w, calls);
            && IsPool(out.0) && |out.0.errors| == n
            && forall e: nat :: e < |out.0.downUntil| && out.0.downUntil[e] > out.1.now ==> FailuresSince(out.1.log, e) >= 3
  {
    FreshIsHealthy(n, w);
    RunKeepsHealth(Fresh(n), env, w, calls);
    var out := Run(Fresh(n), env, w, calls);
    forall e: nat | e < |out.0.downUntil| && out.0.downUntil[e] > out.1.now
      ensures FailuresSince(out.1.log, e) >= 3
    {
      assert TracksAt(out.0, out.1, e);
    }
  }

  // ----- What one turn does

  /** A skip changes nothing; an answer ends the failures and makes the endpoint the active one, and leaves all deadlines; a failure
      is counted in 32 bits, and from three on puts the endpoint down for thirty seconds from then. Other endpoints keep theirs. */
  lemma TurnEffects<R>(h: Health, env: Env, w: World, fn: Fn<R>, idx: nat)
    requires IsPool(h) && idx < |h.errors|
    ensures var t, at := TakeTurn(h, env, w, fn, idx), w.now + env.elapsed(w.step);
            if at < h.downUntil[idx] then t.health == h && t.visit == Visit(idx, at, Skipped) && t.result == Err(AllEndpointsDown)
            else
              && t.result == fn(w.step + 1, idx, h.active)
              && match t.result
                 case Ok(_) =>
                   t.visit == Visit(idx, at, Served) && t.health == Health(h.errors[idx := 0], h.downUntil, idx)
                 case Err(e) =>
                   var count := (h.errors[idx] + 1 + 0x8000_0000) % 0x1_0000_0000 - 0x8000_0000;
                   && t.visit == Visit(idx, at, Failed(e))
                   && t.health == Health(h.errors[idx := count],
                                         if count >= 3 then h.downUntil[idx := t.world.now + 30_000_000_000] else h.downUntil, h.active)
  {}

  // ----- Down times, read off the log

  /** The turn puts its endpoint down: it fails, and it is at least the third failure since the endpoint last answered. */
  predicate IsPutDown(log: seq<Visit>, i: nat)
    requires i < |log|
  {
    log[i].outcome.Failed? && PutsDown(FailuresSince(log[..i], log[i].endpoint))
  }

  /** After a turn that puts an endpoint down, every turn of it in the next thirty seconds is skipped. */
  predicate IsLeftAlone(log: seq<Visit>, i: nat, j: nat)
    requires i < j < |log|
  {
    IsPutDown(log, i) && log[j].endpoint == log[i].endpoint && log[j].at < log[i].at + 30_000_000_000 ==> log[j].outcome.Skipped?
  }

  /** A turn is skipped only after one that put the endpoint down. */
  ghost predicate HasReason(log: seq<Visit>, j: nat)
    requires j < |log|
  {
    log[j].outcome.Skipped? ==> exists i: nat :: i < j && IsPutDown(log, i) && log[i].endpoint == log[j].endpoint
  }

  ghost predicate IsFairLog(log: seq<Visit>) {
    && (forall i: nat, j: nat :: i < j < |log| ==> IsLeftAlone(log, i, j))
    && (forall j: nat :: j < |log| ==> HasReason(log, j))
  }

  /** The endpoint's deadline is thirty seconds or more behind every turn that put it down, and it has one only after such a turn. */
  ghost predicate HasDeadline(h: Health, w: World, e: nat)
    requires IsPool(h) && e < |h.errors|
  {
    && h.downUntil[e] <= w.now + 30_000_000_000
    && (forall i: nat :: i < |w.log| && IsPutDown(w.log, i) && w.log[i].endpoint == e ==> w.log[i].at + 30_000_000_000 <= h.downUntil[e])
    && (h.downUntil[e] > 0 ==> exists i: nat :: i < |w.log| && IsPutDown(w.log, i) && w.log[i].endpoint == e)
  }

  ghost predicate IsLogged(h: Health, w: World)
    requires IsPool(h)
  {
    w.now >= 0 && Healthy(h, w) && IsFairLog(w.log) && forall e: nat :: e < |h.errors| ==> HasDeadline(h, w, e)
  }

  lemma EarlierPutDowns(log: seq<Visit>, visit: Visit, i: nat)
    requires i < |log|
    ensures IsPutDown(log + [visit], i) == IsPutDown(log, i)
  {
    assert (log + [visit])[..i] == log[..i];
  }

  lemma LastPutDown(log: seq<Visit>, visit: Visit)
    ensures IsPutDown(log + [visit], |log|) <==> visit.outcome.Failed? && PutsDown(FailuresSince(log, visit.endpoint))
  {
    assert (log + [visit])[..|log|] == log;
  }

  lemma MoreFairLog(log: seq<Visit>, visit: Visit)
    requires IsFairLog(log)
    requires forall i: nat :: i < |log| && IsPutDown(log, i) && log[i].endpoint == visit.endpoint && visit.at < log[i].at + 30_000_000_000
               ==> visit.outcome.Skipped?
    requires visit.outcome.Skipped? ==> exists i: nat :: i < |log| && IsPutDown(log, i) && log[i].endpoint == visit.endpoint
    ensures IsFairLog(log + [visit])
  {
    var more := log + [visit];
    forall i: nat | i < |log|
      ensures IsPutDown(more, i) == IsPutDown(log, i)
    {
      EarlierPutDowns(log, visit, i);
    }
    forall i: nat, j: nat | i < j < |more|
      ensures IsLeftAlone(more, i, j)
    {
      assert j < |log| ==> IsLeftAlone(log, i, j);
    }
    forall j: nat | j < |more|
      ensures HasReason(more, j)
    {
      if j < |log| {
        assert HasReason(log, j);
      }
    }
  }

  lemma TurnIsFair<R>(h: Health, env: Env, w: World, fn: Fn<R>, idx: nat)
    requires IsPool(h) && idx < |h.errors| && IsLogged(h, w)
    ensures IsFairLog(TakeTurn(h, env, w, fn, idx).world.log)
  {
    TurnIs(h, env, w, fn, idx);
    TurnEffects(h, env, w, fn, idx);
    assert HasDeadline(h, w, idx);
    MoreFairLog(w.log, TakeTurn(h, env, w, fn, idx).visit);
  }

  lemma TurnKeepsDeadline<R>(h: Health, env: Env, w: World, fn: Fn<R>, idx: nat, e: nat)
    requires IsPool(h) && idx < |h.errors| && e < |h.errors| && IsLogged(h, w)
    ensures var t := TakeTurn(h, env, w, fn, idx);
            IsPool(t.health) && |t.health.errors| == |h.errors| && HasDeadline(t.health, t.world, e)
  {
    var t := TakeTurn(h, env, w, fn, idx);
    TurnIs(h, env, w, fn, idx);
    TurnEffects(h, env, w, fn, idx);
    assert HasDeadline(h, w, e) && TracksAt(h, w, idx);
    forall i: nat | i < |w.log|
      ensures IsPutDown(t.world.log, i) == IsPutDown(w.log, i) && t.world.log[i] == w.log[i]
    {
      EarlierPutDowns(w.log, t.visit, i);
    }
    LastPutDown(w.log, t.visit);
    if t.visit.outcome.Failed? {
      FailurePutsDown(h, env, w, fn, idx);
    }
  }

  lemma TurnKeepsLog<R>(h: Health, env: Env, w: World, fn: Fn<R>, idx: nat)
    requires IsPool(h) && idx < |h.errors| && IsLogged(h, w)
    ensures var t := TakeTurn(h, env, w, fn, idx); IsPool(t.health) && |t.health.errors| == |h.errors| && IsLogged(t.health, t.world)
  {
    TurnKeepsHealth(h, env, w, fn, idx);
    TurnIs(h, env, w, fn, idx);
    TurnIsFair(h, env, w, fn, idx);
    forall e: nat | e < |h.errors|
      ensures HasDeadline(TakeTurn(h, env, w, fn, idx).health, TakeTurn(h, env, w, fn, idx).world, e)
    {
      TurnKeepsDeadline(h, env, w, fn, idx, e);
    }
  }

  lemma TimeKeepsLog(h: Health, w: World, later: World)
    requires IsPool(h) && IsLogged(h, w) && later.log == w.log && w.now <= later.now
    ensures IsLogged(h, later)
  {
    TimeKeepsHealth(h, w, later);
    forall e: nat | e < |h.errors|
      ensures HasDeadline(h, later, e)
    {
      assert HasDeadline(h, w, e);
    }
  }

  lemma {:induction false} CallFromKeepsLog<R>(h: Health, env: Env, w: World, fn: Fn<R>, start: nat, i: nat, lastErr: Option<Failure>)
    requires IsPool(h) && start < |h.errors| && i <= |h.errors| && IsLogged(h, w)
    ensures IsLogged(CallFrom(h, env, w, fn, start, i, lastErr).health, CallFrom(h, env, w, fn, start, i, lastErr).world)
    decreases |h.errors| - i
  {
    if i < |h.errors| {
      var idx := Rotated(start, i, |h.errors|);
      var turn := TakeTurn(h, env, w, fn, idx);
      TurnKeepsLog(h, env, w, fn, idx);
      if turn.result.Err? {
        CallFromKeepsLog(turn.health, env, turn.world, fn, start, i + 1, Some(turn.result.error));
      }
    }
  }

  lemma CallKeepsLog<R>(h: Health, env: Env, w: World, fn: Fn<R>)
    requires IsPool(h) && IsLogged(h, w)
    ensures var out := Calling(h, env, w, fn); IsPool(out.health) && IsLogged(out.health, out.world)
  {
    var read := Tick(env, w);
    PickIs(h, read.now);
    TimeKeepsLog(h, w, read);
    CallFromKeepsLog(h, env, read, fn, Pick(h, read.now), 0, None);
  }

  lemma {:induction false} RunKeepsLog<R>(h: Health, env: Env, w: World, calls: seq<(nat, Fn<R>)>)
    requires IsPool(h) && IsLogged(h, w)
    ensures var out := Run(h, env, w, calls); IsPool(out.0) && IsLogged(out.0, out.1)
    decreases |calls|
  {
    if calls != [] {
      var paused := w.(now := w.now + calls[0].0);
      TimeKeepsLog(h, w, paused);
      CallKeepsLog(h, env, paused, calls[0].1);
      var out := Calling(h, env, paused, calls[0].1);
      RunKeepsLog(out.health, env, out.world, calls[1..]);
    }
  }

  /** Over every run from a new pool, by the log alone: once a failure, the third or later since the endpoint last answered, has put
      it down, every turn of it in the next thirty seconds is skipped, in that call and in all later ones; and a turn is skipped only
      after such a failure. */
  lemma DownForThirtySeconds<R>(n: nat, env: Env, w: World, calls: seq<(nat, Fn<R>)>, i: nat, j: nat)
    requires n > 0 && w.log == [] && w.now >= 0 && IsPool(Fresh(n)) && i < j < |Run(Fresh(n), env, w, calls).1.log|
    ensures var log := Run(Fresh(n), env, w, calls).1.log;
            && (IsPutDown(log, i) && log[j].endpoint == log[i].endpoint && log[j].at < log[i].at + 30_000_000_000
                ==> log[j].outcome.Skipped?)
            && (log[j].outcome.Skipped? ==> exists k: nat :: k < j && IsPutDown(log, k) && log[k].endpoint == log[j].endpoint)
  {
    FreshIsHealthy(n, w);
    RunKeepsLog(Fresh(n), env, w, calls);
    var log := Run(Fresh(n), env, w, calls).1.log;
    assert IsLeftAlone(log, i, j) && HasReason(log, j);
  }
}
