/** lib/rpcchain/pool.go: rotation over RPC endpoints with passive health tracking. */
module Pools {
  import opened Prelude
  import opened Environment

  const DOWN_TIME: int := 30 * SECOND

  /** Per endpoint the error counter and the time it is down until; `active` is -1 until a call succeeds. */
  datatype Health = Health(errors: seq<int>, downUntil: seq<int>, active: int)

  predicate IsPool(h: Health) { |h.errors| == |h.downUntil| > 0 && -1 <= h.active < |h.errors| }

  type Endpoints = h: Health | IsPool(h) witness Health([0], [0], -1)

  /** The counters are atomic.Int32. */
  function Wrap32(n: int): int { (n + TWO_TO_31) % TWO_TO_32 - TWO_TO_31 }

  function Fresh(n: nat): Health { Health(seq(n, _ => 0), seq(n, _ => 0), -1) }

  // ----- Choosing where to start

  /** The first endpoint from i on whose deadline has passed; 0 if there is none. */
  function FirstUp(downUntil: seq<int>, now: int, i: nat): nat
    requires i <= |downUntil|
    decreases |downUntil| - i
  {
    if i == |downUntil| then 0
    else if now > downUntil[i] then i
    else FirstUp(downUntil, now, i + 1)
  }

  function Pick(h: Health, now: int): nat
    requires IsPool(h)
  {
    if h.active >= 0 && now > h.downUntil[h.active] then h.active else FirstUp(h.downUntil, now, 0)
  }

  lemma {:induction false} FirstUpIs(downUntil: seq<int>, now: int, i: nat)
    requires i <= |downUntil|
    ensures var k := FirstUp(downUntil, now, i);
            if forall j :: i <= j < |downUntil| ==> downUntil[j] >= now then k == 0
            else i <= k < |downUntil| && now > downUntil[k] && forall j :: i <= j < k ==> downUntil[j] >= now
    decreases |downUntil| - i
  {
    if i < |downUntil| && now <= downUntil[i] {
      FirstUpIs(downUntil, now, i + 1);
    }
  }

  /** A call starts at the active endpoint unless that is down, then at the first that is up, then at endpoint 0. */
  lemma PickIs(h: Health, now: int)
    requires IsPool(h)
    ensures var k := Pick(h, now);
            && k < |h.errors|
            && (h.active >= 0 && now > h.downUntil[h.active] ==> k == h.active)
            && (now <= h.downUntil[k] ==> k == 0 && forall j :: 0 <= j < |h.downUntil| ==> now <= h.downUntil[j])
            && (k != h.active ==> forall j :: 0 <= j < k ==> now <= h.downUntil[j])
  {
    FirstUpIs(h.downUntil, now, 0);
  }

  // ----- A call

  /** The endpoint at place i of the rotation. */
  function Rotated(start: nat, i: nat, n: nat): (index: nat)
    requires start < n && i < n
    ensures index == if start + i < n then start + i else start + i - n
  {
    (start + i) % n
  }

  datatype Called<+R> = Called(health: Health, world: World, result: Result<R, Failure>)

  /** What fn does is decided by the step of the run, the endpoint it is given and the active endpoint it may look up. */
  type Fn<R> = (nat, nat, int) -> Result<R, Failure>

  /** The endpoint failed at w: count it, and from the third failure on put it down. */
  function Punish(h: Health, env: Env, w: World, idx: nat): (Health, World)
    requires IsPool(h) && idx < |h.errors|
  {
    var count := Wrap32(h.errors[idx] + 1);
    var counted := h.(errors := h.errors[idx := count]);
    if count >= 3 then
      var read := Tick(env, w);
      (counted.(downUntil := h.downUntil[idx := read.now + DOWN_TIME]), read)
    else (counted, w)
  }

  datatype Turn<+R> = Turn(visit: Visit, health: Health, world: World, result: Result<R, Failure>)

  /** One endpoint's turn: skipped while it is down, otherwise called. */
  function TakeTurn<R>(h: Health, env: Env, w: World, fn: Fn<R>, idx: nat): (turn: Turn<R>)
    requires IsPool(h) && idx < |h.errors|
    ensures IsPool(turn.health) && |turn.health.errors| == |h.errors|
  {
    var read := Tick(env, w);
    if read.now < h.downUntil[idx] then
      var visit := Visit(idx, read.now, Skipped);
      Turn(visit, h, Record(read, visit), Err(AllEndpointsDown))
    else
      match fn(read.step, idx, h.active)
      case Ok(r) =>
        var visit := Visit(idx, read.now, Served);
        Turn(visit, h.(errors := h.errors[idx := 0], active := idx), Record(Tick(env, read), visit), Ok(r))
      case Err(e) =>
        var visit := Visit(idx, read.now, Failed(e));
        var (h', w') := Punish(h, env, Record(Tick(env, read), visit), idx);
        Turn(visit, h', w', Err(e))
  }

  /** The rotation from place i on. */
  function CallFrom<R>(h: Health, env: Env, w: World, fn: Fn<R>, start: nat, i: nat, lastErr: Option<Failure>): (out: Called<R>)
    requires IsPool(h) && start < |h.errors| && i <= |h.errors|
    ensures IsPool(out.health) && |out.health.errors| == |h.errors|
    decreases |h.errors| - i
  {
    if i == |h.errors| then Called(h, w, Err(if lastErr.None? then AllEndpointsDown else lastErr.value))
    else
      var turn := TakeTurn(h, env, w, fn, Rotated(start, i, |h.errors|));
      if turn.result.Ok? then Called(turn.health, turn.world, turn.result)
      else CallFrom(turn.health, env, turn.world, fn, start, i + 1, Some(turn.result.error))
  }

  /** One call of the pool. */
  function Calling<R>(h: Health, env: Env, w: World, fn: Fn<R>): (out: Called<R>)
    requires IsPool(h)
    ensures IsPool(out.health) && |out.health.errors| == |h.errors|
  {
    var read := Tick(env, w);
    PickIs(h, read.now);
    CallFrom(h, env, read, fn, Pick(h, read.now), 0, None)
  }

  class Pool {
    const errors: array<int>
    const downUntil: array<int>
    var active: int

    ghost function State(): Health
      reads this, errors, downUntil
    {
      Health(errors[..], downUntil[..], active)
    }

    ghost predicate Valid()
      reads this, errors, downUntil
    {
      errors != downUntil && IsPool(State())
    }

    constructor (count: nat)
      requires count > 0
      ensures Valid() && fresh(errors) && fresh(downUntil) && State() == Fresh(count)
    {
      errors := new int[count](_ => 0);
      downUntil := new int[count](_ => 0);
      active := -1;
    }

    method PickStart(now: int) returns (start: nat)
      requires Valid()
      ensures start == Pick(State(), now) && start < errors.Length
    {
      PickIs(State(), now);
      if active >= 0 && now > downUntil[active] {
        return active;
      }
      start := 0;
      while start < downUntil.Length
        invariant start <= downUntil.Length
        invariant FirstUp(downUntil[..], now, start) == FirstUp(downUntil[..], now, 0)
      {
        if now > downUntil[start] {
          return;
        }
        start := start + 1;
      }
      start := 0;
    }

    /** The failure branch of Call. */
    method CountFailure(env: Env, w: World, idx: nat) returns (world: World)
      requires Valid() && idx < errors.Length
      modifies errors, downUntil
      ensures Valid()
      ensures (State(), world) == Punish(old(State()), env, w, idx)
    {
      ghost var before := State();
      world := w;
      errors[idx] := Wrap32(errors[idx] + 1);
      assert errors[..] == before.errors[idx := Wrap32(before.errors[idx] + 1)];
      if errors[idx] >= 3 {
        world := Tick(env, world);
        downUntil[idx] := world.now + DOWN_TIME;
      }
    }

    /** The body of Call's loop. */
    method Visit<R>(env: Env, w: World, fn: Fn<R>, idx: nat) returns (world: World, answer: Result<R, Failure>)
      requires Valid() && idx < errors.Length
      modifies this, errors, downUntil
      ensures Valid()
      ensures var t := TakeTurn(old(State()), env, w, fn, idx); State() == t.health && world == t.world && answer == t.result
    {
      var read := Tick(env, w);
      if read.now < downUntil[idx] {
        return Record(read, Environment.Visit(idx, read.now, Skipped)), Err(AllEndpointsDown);
      }
      answer := fn(read.step, idx, active);
      world := Tick(env, read);
      if answer.Ok? {
        errors[idx] := 0;
        active := idx;
        return Record(world, Environment.Visit(idx, read.now, Served)), answer;
      }
      world := CountFailure(env, Record(world, Environment.Visit(idx, read.now, Failed(answer.error))), idx);
    }

    method Call<R>(env: Env, w: World, fn: Fn<R>) returns (world: World, result: Result<R, Failure>)
      requires Valid()
      modifies this, errors, downUntil
      ensures Valid()
      ensures Called(State(), world, result) == Calling(old(State()), env, w, fn)
    {
      world := Tick(env, w);
      var start := PickStart(world.now);
      var lastErr := None;
      for i := 0 to errors.Length
        invariant Valid() && |State().errors| == errors.Length
        invariant CallFrom(State(), env, world, fn, start, i, lastErr) == Calling(old(State()), env, w, fn)
      {
        world, result := Visit(env, world, fn, Rotated(start, i, errors.Length));
        if result.Ok? {
          return;
        }
        lastErr := Some(result.error);
      }
      result := Err(if lastErr.None? then AllEndpointsDown else lastErr.value);
    }
  }

  /** NewPool. */
  method NewPool(count: nat) returns (pool: Option<Pool>)
    ensures pool.Some? <==> count > 0
    ensures pool.Some? ==> pool.value.Valid() && fresh(pool.value) && pool.value.State() == Fresh(count)
  {
    if count == 0 {
      return None;
    }
    var p := new Pool(count);
    return Some(p);
  }

  // ----- Whom a call visits

  function Turns<R>(w: World, out: Called<R>): seq<Visit>
    requires w.log <= out.world.log
  {
    out.world.log[|w.log|..]
  }

  /** The turns from place i of the rotation on: one endpoint each, skipped exactly when it is down at that moment. */
  ghost predicate IsRotation(turns: seq<Visit>, downUntil: seq<int>, start: nat, i: nat)
    requires start < |downUntil|
  {
    && i + |turns| <= |downUntil|
    && forall k :: 0 <= k < |turns| ==>
         && turns[k].endpoint == Rotated(start, i + k, |downUntil|)
         && (turns[k].outcome.Skipped? <==> turns[k].at < downUntil[turns[k].endpoint])
  }

  /** The error a turn leaves behind. */
  function Reason(v: Visit): Failure
    requires !v.outcome.Served?
  {
    if v.outcome.Skipped? then AllEndpointsDown else v.outcome.failure
  }

  /** The first endpoint to answer ends the call; if none does, every one has had its turn and the last one's error is the result. */
  ghost predicate EndsWell<R>(turns: seq<Visit>, out: Called<R>, active: int, places: nat) {
    && (forall k :: 0 <= k < |turns| - 1 ==> !turns[k].outcome.Served?)
    && match out.result
       case Ok(_) => turns != [] && turns[|turns| - 1].outcome.Served? && out.health.active == turns[|turns| - 1].endpoint
       case Err(e) =>
         && |turns| == places && out.health.active == active
         && (turns != [] ==> !turns[|turns| - 1].outcome.Served? && e == Reason(turns[|turns| - 1]))
  }

  /** What one turn does to the pool. */
  ghost predicate IsTurn<R>(t: Turn<R>, w: World, h: Health, idx: nat)
    requires IsPool(h) && idx < |h.errors|
  {
    && IsPool(t.health) && |t.health.errors| == |h.errors|
    && Follows(t.world, w) && t.world.log == w.log + [t.visit]
    && t.visit.endpoint == idx && (t.visit.outcome.Skipped? <==> t.visit.at < h.downUntil[idx])
    && (t.result.Ok? <==> t.visit.outcome.Served?)
    && (t.result.Ok? ==> t.health.active == idx)
    && (t.result.Err? ==> t.health.active == h.active && t.result.error == Reason(t.visit))
    && forall e :: 0 <= e < |h.errors| && e != idx ==> t.health.downUntil[e] == h.downUntil[e]
  }

  lemma TurnIs<R>(h: Health, env: Env, w: World, fn: Fn<R>, idx: nat)
    requires IsPool(h) && idx < |h.errors|
    ensures IsTurn(TakeTurn(h, env, w, fn, idx), w, h, idx)
  {}

  /** One more turn at the front. */
  lemma OneMoreTurn(turn: Visit, rest: seq<Visit>, before: seq<int>, after: seq<int>, start: nat, i: nat)
    requires |before| == |after| && start < |before| && i < |before|
    requires turn.endpoint == Rotated(start, i, |before|) && (turn.outcome.Skipped? <==> turn.at < before[turn.endpoint])
    requires IsRotation(rest, after, start, i + 1)
    requires forall e :: 0 <= e < |before| && e != turn.endpoint ==> after[e] == before[e]
    ensures IsRotation([turn] + rest, before, start, i)
  {
    forall k | 0 <= k < |rest|
      ensures rest[k].endpoint == Rotated(start, i + 1 + k, |before|) != turn.endpoint
    {}
  }

  lemma EndsLater<R>(turn: Visit, rest: seq<Visit>, out: Called<R>, active: int, places: nat)
    requires EndsWell(rest, out, active, places) && !turn.outcome.Served?
    requires rest == [] ==> out.result == Err(Reason(turn))
    ensures EndsWell([turn] + rest, out, active, places + 1)
  {}

  lemma SplitLog(log: seq<Visit>, turn: Visit, whole: seq<Visit>)
    requires log + [turn] <= whole
    ensures whole[|log|..] == [turn] + whole[|log| + 1..] && log <= whole
  {}

  /** What the rest of a call, from place i on, adds to the log. */
  ghost predicate IsRest<R>(out: Called<R>, w: World, h: Health, start: nat, i: nat)
    requires IsPool(h) && start < |h.errors| && i <= |h.errors|
  {
    && IsPool(out.health) && |out.health.errors| == |h.errors| && Follows(out.world, w)
    && IsRotation(Turns(w, out), h.downUntil, start, i)
    && EndsWell(Turns(w, out), out, h.active, |h.errors| - i)
  }

  lemma RestWithTurn<R>(t: Turn<R>, out: Called<R>, w: World, h: Health, start: nat, i: nat)
    requires IsPool(h) && start < |h.errors| && i < |h.errors| && IsTurn(t, w, h, Rotated(start, i, |h.errors|)) && t.result.Err?
    requires IsRest(out, t.world, t.health, start, i + 1)
    requires Turns(t.world, out) == [] ==> out.result == Err(t.result.error)
    ensures IsRest(out, w, h, start, i)
  {
    SplitLog(w.log, t.visit, out.world.log);
    var rest := Turns(t.world, out);
    assert rest == out.world.log[|w.log| + 1..];
    OneMoreTurn(t.visit, rest, h.downUntil, t.health.downUntil, start, i);
    EndsLater(t.visit, rest, out, h.active, |h.errors| - i - 1);
  }

  lemma LastTurn<R>(t: Turn<R>, w: World, h: Health, start: nat, i: nat)
    requires IsPool(h) && start < |h.errors| && i < |h.errors| && IsTurn(t, w, h, Rotated(start, i, |h.errors|)) && t.result.Ok?
    ensures IsRest(Called(t.health, t.world, t.result), w, h, start, i)
  {
    assert Turns(w, Called(t.health, t.world, t.result)) == [t.visit];
  }

  lemma NoTurnsLeft<R>(h: Health, env: Env, w: World, fn: Fn<R>, start: nat, i: nat, lastErr: Failure)
    requires IsPool(h) && start < |h.errors| && i <= |h.errors|
    requires IsRest(CallFrom(h, env, w, fn, start, i, Some(lastErr)), w, h, start, i)
    ensures var out := CallFrom(h, env, w, fn, start, i, Some(lastErr));
            Turns(w, out) == [] ==> out.result == Err(lastErr)
  {}

  lemma {:induction false} CallFromTurns<R>(h: Health, env: Env, w: World, fn: Fn<R>, start: nat, i: nat, lastErr: Option<Failure>)
    requires IsPool(h) && start < |h.errors| && i <= |h.errors|
    ensures IsRest(CallFrom(h, env, w, fn, start, i, lastErr), w, h, start, i)
    decreases |h.errors| - i
  {
    if i < |h.errors| {
      var idx := Rotated(start, i, |h.errors|);
      var turn := TakeTurn(h, env, w, fn, idx);
      TurnIs(h, env, w, fn, idx);
      if turn.result.Err? {
        CallFromTurns(turn.health, env, turn.world, fn, start, i + 1, Some(turn.result.error));
        NoTurnsLeft(turn.health, env, turn.world, fn, start, i + 1, turn.result.error);
        RestWithTurn(turn, CallFrom(h, env, w, fn, start, i, lastErr), w, h, start, i);
      } else {
        LastTurn(turn, w, h, start, i);
      }
    }
  }

  /** One call: the endpoints take turns in rotation from the one picked, each at most once, skipping exactly those down at the
      time; the call succeeds exactly when one answers, which is then the active one. */
  lemma CallVisitsInRotation<R>(h: Health, env: Env, w: World, fn: Fn<R>)
    requires IsPool(h)
    ensures Pick(h, Tick(env, w).now) < |h.errors|
    ensures IsRest(Calling(h, env, w, fn), w, h, Pick(h, Tick(env, w).now), 0)
  {
    var read := Tick(env, w);
    PickIs(h, read.now);
    CallFromTurns(h, env, read, fn, Pick(h, read.now), 0, None);
  }

  lemma TurnsAreDistinct(turns: seq<Visit>, downUntil: seq<int>, start: nat)
    requires start < |downUntil| && IsRotation(turns, downUntil, start, 0)
    ensures forall j, k :: 0 <= j < k < |turns| ==> turns[j].endpoint != turns[k].endpoint
  {}
}
