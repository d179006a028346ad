/** Whether the pagination of internal/client/stellar/resilient_client.go ever stops. */
module PaginationStop {
  import opened Prelude
  import opened Environment
  import opened Throttles
  import opened Pools
  import opened Retries
  import opened ResilientClients
  import opened Pagination

  /** Every page a server may answer with is short enough. */
  ghost predicate ShortPages<E>(server: Server<E>, most: int) {
    forall step: nat, endpoint: nat, request: PageRequest ::
      server(step, endpoint, request).Ok? ==> |server(step, endpoint, request).value.events| <= most
  }

  lemma PageIsShort<E>(job: Job<E>, at: Paging<E>, most: int)
    requires ShortPages(job.net.server, most)
    ensures var done := PageCall(job, at); done.result.Ok? ==> |done.result.value.events| <= most
  {
    PageIsAnswer(job, at);
  }

  /** The quota left falls on each page that is not the last. */
  ghost predicate QuotaFalls<E>(at: Paging<E>, progress: Progress<E>, limit: nat) {
    progress.Going? ==> |at.events| < |progress.paging.events| < limit
  }

  lemma PageTakesQuota<E>(job: Job<E>, at: Paging<E>)
    requires job.input.limit > 0 && |at.events| < job.input.limit && ShortPages(job.net.server, TWO_TO_32 - job.input.limit)
    ensures QuotaFalls(at, NextPage(job, at), job.input.limit)
  {
    PageIsShort(job, at, TWO_TO_32 - job.input.limit);
  }

  lemma {:induction false} StopsWithin<E(!new)>(next: Paging<E> -> Progress<E>, at: Paging<E>, limit: nat, fuel: nat)
    requires |at.events| < limit <= fuel + |at.events|
    requires forall at': Paging<E> :: |at'.events| < limit ==> QuotaFalls(at', next(at'), limit)
    ensures FetchFrom(next, at, fuel).Stopped?
    decreases fuel
  {
    assert QuotaFalls(at, next(at), limit);
    if next(at).Going? {
      StopsWithin(next, next(at).paging, limit, fuel - 1);
    }
  }

  /** With a positive limit a pagination stops, within as many pages as the limit, whatever the servers do, as long as their pages
      are no longer than 2^32 less the limit. */
  lemma PaginationStops<E(!new)>(net: Network<E>, policy: Policy, env: Env, w: World, s: Shared, input: FetchInput)
    requires input.limit > 0 && ShortPages(net.server, TWO_TO_32 - input.limit)
    ensures Fetching(net, policy, env, w, s, input, input.limit).Stopped?
  {
    var job := Job(net, policy, env, input, s.health.active);
    forall at: Paging<E> | |at.events| < input.limit
      ensures QuotaFalls(at, Turner(job)(at), input.limit)
    {
      PageTakesQuota(job, at);
    }
    StopsWithin(Turner(job), Begin(w, s, input), input.limit, input.limit);
  }

  // ----- A call that is answered at once

  datatype Moment = Moment(world: World, shared: Shared)

  predicate NoneDown(h: Endpoints, now: int) { forall e :: 0 <= e < |h.downUntil| ==> h.downUntil[e] < now }

  /** No endpoint is down, and the active one, if known, is the one the pagination began with. */
  predicate IsUp(m: Moment, start: int) {
    NoneDown(m.shared.health, m.world.now) && (start >= 0 ==> m.shared.health.active == start)
  }

  /** All is up as before, and steps have been taken. */
  predicate StaysUp(later: Moment, m: Moment) {
    && later.world.step > m.world.step && later.world.now >= m.world.now
    && later.shared.health.downUntil == m.shared.health.downUntil
    && (m.shared.health.active >= 0 ==> later.shared.health.active == m.shared.health.active)
  }

  function Always(): Fn<bool> { (step: nat, endpoint: nat, active: int) => Ok(true) }

  /** What any endpoint answers from one step to another. */
  ghost predicate AnswersFrom<R>(fn: Fn<R>, active: int, first: nat, last: nat, r: R) {
    forall step: nat, endpoint: nat :: first <= step < last ==> fn(step, endpoint, active) == Ok(r)
  }

  /** When every endpoint answers, the first one asked does, and what it answers makes no difference to the pool or the clock. */
  lemma AnsweredAtOnce<R>(h: Endpoints, env: Env, w: World, fn: Fn<R>, r: R)
    requires NoneDown(h, w.now) && AnswersFrom(fn, h.active, w.step, Calling(h, env, w, Always()).world.step, r)
    ensures var out, plain := Calling(h, env, w, fn), Calling(h, env, w, Always());
            && out.result == Ok(r) && out.health == plain.health && out.world == plain.world
            && plain.health.downUntil == h.downUntil && plain.world.now >= w.now && plain.world.step > w.step
            && (h.active >= 0 ==> plain.health.active == h.active)
  {
    var read := Tick(env, w);
    PickIs(h, read.now);
    var start := Pick(h, read.now);
    assert Rotated(start, 0, |h.errors|) == start;
    assert fn(Tick(env, read).step, start, h.active) == Ok(r);
  }

  lemma DoneAtOnce<T, R>(policy: Policy, env: Env, w: World, s: T, fn: (World, T) -> Attempt<T, R>)
    requires !env.cancelled(w.step) && fn(w.(step := w.step + 1), s).answer.Ok?
    ensures var done, tried := Doing(policy, env, w, s, fn), fn(w.(step := w.step + 1), s);
            done.result == tried.answer && done.state == tried.state && done.world == tried.world
  {}

  lemma TriedAtOnce<R>(env: Env, w: World, s: Shared, fn: Fn<R>, r: R)
    requires NoneDown(s.health, w.now) && forall step: nat :: !env.cancelled(step)
    requires AnswersFrom(fn, s.health.active, w.step, Trying(env, Always(), w, s).world.step, r)
    ensures var tried, plain := Trying(env, fn, w, s), Trying(env, Always(), w, s);
            && tried.answer == Ok(r) && plain.answer == Ok(true) && tried.state == plain.state && tried.world == plain.world
            && StaysUp(Moment(plain.world, plain.state), Moment(w, s))
  {
    var waited := Waiting(s.limiter, env, w);
    AnsweredAtOnce(s.health, env, waited.world, Always(), true);
    AnsweredAtOnce(s.health, env, waited.world, fn, r);
  }

  function CallAfter(policy: Policy, env: Env, m: Moment): Moment {
    var done := CallOf(policy, env, m.world, m.shared, Always());
    Moment(done.world, done.state)
  }

  lemma CallIsTried<R>(policy: Policy, env: Env, m: Moment, fn: Fn<R>)
    requires !env.cancelled(m.world.step) && Trying(env, fn, m.world.(step := m.world.step + 1), m.shared).answer.Ok?
    ensures var done, tried := CallOf(policy, env, m.world, m.shared, fn), Trying(env, fn, m.world.(step := m.world.step + 1), m.shared);
            done.result == tried.answer && done.state == tried.state && done.world == tried.world
  {
    DoneAtOnce(policy, env, m.world, m.shared, AttemptOf(env, fn));
  }

  lemma PlainCall(policy: Policy, env: Env, m: Moment)
    requires NoneDown(m.shared.health, m.world.now) && forall step: nat :: !env.cancelled(step)
    ensures StaysUp(CallAfter(policy, env, m), m)
    ensures var plain := Trying(env, Always(), m.world.(step := m.world.step + 1), m.shared);
            CallAfter(policy, env, m) == Moment(plain.world, plain.state)
  {
    TriedAtOnce(env, m.world.(step := m.world.step + 1), m.shared, Always(), true);
    CallIsTried(policy, env, m, Always());
  }

  lemma CalledAtOnce<R>(policy: Policy, env: Env, m: Moment, fn: Fn<R>, r: R, last: nat)
    requires NoneDown(m.shared.health, m.world.now) && forall step: nat :: !env.cancelled(step)
    requires last == CallAfter(policy, env, m).world.step && AnswersFrom(fn, m.shared.health.active, m.world.step, last, r)
    ensures var done := CallOf(policy, env, m.world, m.shared, fn);
            done.result == Ok(r) && Moment(done.world, done.state) == CallAfter(policy, env, m)
  {
    PlainCall(policy, env, m);
    TriedAtOnce(env, m.world.(step := m.world.step + 1), m.shared, fn, r);
    CallIsTried(policy, env, m, fn);
  }

  // ----- The steps at which the pages are asked for

  /** Where n steps of `after` lead. */
  function Trail<M>(after: M -> M, m: M, n: nat): M {
    if n == 0 then m else after(Trail(after, m, n - 1))
  }

  predicate Rises<M>(after: M -> M, good: M -> bool, height: M -> nat, m: M) {
    good(m) ==> good(after(m)) && height(m) < height(after(m))
  }

  lemma {:induction false} TrailRises<M(!new)>(after: M -> M, good: M -> bool, height: M -> nat, m: M, n: nat)
    requires good(m) && forall m': M :: Rises(after, good, height, m')
    ensures good(Trail(after, m, n)) && height(Trail(after, m, n)) < height(Trail(after, m, n + 1))
  {
    if n > 0 {
      TrailRises(after, good, height, m, n - 1);
      assert Rises(after, good, height, Trail(after, m, n - 1));
    }
    assert Rises(after, good, height, Trail(after, m, n));
  }

  function Calls(policy: Policy, env: Env): Moment -> Moment { (m: Moment) => CallAfter(policy, env, m) }

  function Up(start: int): Moment -> bool { (m: Moment) => IsUp(m, start) }

  function StepOf(): Moment -> nat { (m: Moment) => m.world.step }

  /** The step before page n, when all pages are answered. */
  function StepsOf(after: Moment -> Moment, m: Moment): nat -> nat { (n: nat) => Trail(after, m, n).world.step }

  lemma CallRises(policy: Policy, env: Env, start: int, m: Moment)
    requires forall step: nat :: !env.cancelled(step)
    ensures Rises(Calls(policy, env), Up(start), StepOf(), m)
  {
    if IsUp(m, start) {
      PlainCall(policy, env, m);
    }
  }

  lemma TrailIsUp(policy: Policy, env: Env, m: Moment, n: nat, start: int)
    requires IsUp(m, start) && forall step: nat :: !env.cancelled(step)
    ensures IsUp(Trail(Calls(policy, env), m, n), start) && Climbs(StepsOf(Calls(policy, env), m), n)
  {
    forall m': Moment
      ensures Rises(Calls(policy, env), Up(start), StepOf(), m')
    {
      CallRises(policy, env, start, m');
    }
    TrailRises(Calls(policy, env), Up(start), StepOf(), m, n);
  }

  predicate Climbs(steps: nat -> nat, n: nat) { steps(n) < steps(n + 1) }

  lemma {:induction false} Climbed(steps: nat -> nat, i: nat, j: nat)
    requires i <= j && forall n: nat :: Climbs(steps, n)
    ensures steps(i) + (j - i) <= steps(j)
  {
    if i < j {
      Climbed(steps, i, j - 1);
      assert Climbs(steps, j - 1);
    }
  }

  /** The last page up to number n that is asked for no later than that step. */
  function PageAt(steps: nat -> nat, step: nat, n: nat): nat {
    if n == 0 || steps(n) <= step then n else PageAt(steps, step, n - 1)
  }

  lemma {:induction false} PageAtIs(steps: nat -> nat, step: nat, n: nat, page: nat)
    requires (forall k: nat :: Climbs(steps, k)) && steps(page) <= step < steps(page + 1) && page <= n
    ensures PageAt(steps, step, n) == page
  {
    if page < n {
      Climbed(steps, page + 1, n);
      PageAtIs(steps, step, n - 1, page);
    }
  }

  // ----- A server that feeds a pagination for ever

  /** The length of page n: one event, and whenever the 32-bit count is just below the limit, as many as make it wrap. */
  function FeedSize(limit: Ledger, n: nat): nat {
    if limit == 0 || n % limit < limit - 1 then 1 else TWO_TO_32 + 1 - limit
  }

  function FeedPage<E>(limit: Ledger, n: nat, cursor: string, e: E): Page<E> { Page(seq(FeedSize(limit, n), _ => e), cursor, 0) }

  /** Always the same cursor; the pages are told apart by the step. */
  function FeedServer<E>(steps: nat -> nat, limit: Ledger, cursor: string, e: E): Server<E> {
    (step: nat, endpoint: nat, r: PageRequest) => Ok(FeedPage(limit, PageAt(steps, step, step), cursor, e))
  }

  lemma FeedIsShort<E>(steps: nat -> nat, limit: Ledger, cursor: string, e: E, most: int)
    requires most >= 1 && (limit > 0 ==> TWO_TO_32 + 1 - limit <= most)
    ensures ShortPages(FeedServer(steps, limit, cursor, e), most)
  {
    forall step: nat, endpoint: nat, r: PageRequest
      ensures FeedServer(steps, limit, cursor, e)(step, endpoint, r).Ok?
      ensures |FeedServer(steps, limit, cursor, e)(step, endpoint, r).value.events| <= most
    {
      var n := PageAt(steps, step, step);
      assert FeedServer(steps, limit, cursor, e)(step, endpoint, r) == Ok(FeedPage(limit, n, cursor, e));
      assert |FeedPage(limit, n, cursor, e).events| == FeedSize(limit, n);
    }
  }

  lemma Fed<E>(steps: nat -> nat, limit: Ledger, cursor: string, e: E, n: nat, step: nat, endpoint: nat, r: PageRequest)
    requires (forall k: nat :: Climbs(steps, k)) && steps(n) <= step < steps(n + 1)
    ensures FeedServer(steps, limit, cursor, e)(step, endpoint, r) == Ok(FeedPage(limit, n, cursor, e))
  {
    Climbed(steps, 0, n);
    PageAtIs(steps, step, step, n);
  }

  predicate IsBefore(input: FetchInput, ledger: Ledger) { input.endLedger == 0 || ledger < input.endLedger }

  /** A page with this cursor may be followed by another: it parses, and does not lie at or past the end ledger. */
  predicate LeadsOn(ledgerOf: string -> Option<Ledger>, parses: string -> bool, input: FetchInput, cursor: string) {
    cursor != "" && parses(cursor) && (ledgerOf(cursor).Some? ==> IsBefore(input, ledgerOf(cursor).value))
  }

  /** Before page n: the cursor can be asked for, the position is before the end, and the 32-bit count is below the limit. */
  predicate IsFed<E>(job: Job<E>, at: Paging<E>, m: Moment, n: nat) {
    && Moment(at.world, at.shared) == m
    && CanAsk(job.net, at.cursor) && IsBefore(job.input, at.from)
    && (job.input.limit > 0 ==> |at.events| % TWO_TO_32 == n % job.input.limit)
  }

  lemma Counts(total: nat, tally: nat, more: nat)
    requires total % TWO_TO_32 == tally && tally + more <= TWO_TO_32
    ensures (total + more) % TWO_TO_32 == if tally + more == TWO_TO_32 then 0 else tally + more
  {}

  lemma NextRemainder(n: nat, d: nat)
    requires d > 0
    ensures (n + 1) % d == if n % d == d - 1 then 0 else n % d + 1
  {
    var q, r := n / d, n % d;
    assert n == q * d + r && (q + 1) * d == q * d + d;
    if r == d - 1 {
      QuotientIs(n + 1, d, q + 1, 0);
    } else {
      QuotientIs(n + 1, d, q, r + 1);
    }
  }

  lemma FeedCounts(limit: Ledger, total: nat, n: nat)
    requires limit > 0 && total % TWO_TO_32 == n % limit
    ensures (total + FeedSize(limit, n)) % TWO_TO_32 == (n + 1) % limit
  {
    NextRemainder(n, limit);
    Counts(total, n % limit, FeedSize(limit, n));
  }

  lemma FeedGoesOn<E>(job: Job<E>, at: Paging<E>, m: Moment, n: nat, cursor: string, e: E)
    requires IsFed(job, at, m, n) && LeadsOn(job.net.ledgerOf, job.net.parses, job.input, cursor)
    ensures var progress := Received(job, at, FeedPage(job.input.limit, n, cursor, e));
            progress.Going? && IsFed(job, progress.paging, m, n + 1)
  {
    var page := FeedPage(job.input.limit, n, cursor, e);
    assert |page.events| == FeedSize(job.input.limit, n) > 0;
    if job.input.limit > 0 {
      FeedCounts(job.input.limit, |at.events|, n);
    }
    assert |at.events + page.events| == |at.events| + |page.events|;
  }

  /** The pages are answered in a pagination that began at m. */
  ghost predicate Feeds<E>(job: Job<E>, after: Moment -> Moment, m: Moment, cursor: string, e: E) {
    after == Calls(job.policy, job.env) && job.net.server == FeedServer(StepsOf(after, m), job.input.limit, cursor, e)
  }

  lemma PageIsFed<E>(job: Job<E>, at: Paging<E>, n: nat, cursor: string, e: E, steps: nat -> nat)
    requires job.net.server == FeedServer(steps, job.input.limit, cursor, e) && forall k: nat :: Climbs(steps, k)
    requires CanAsk(job.net, at.cursor) && (job.start >= 0 ==> at.shared.health.active == job.start)
    ensures AnswersFrom(PageFn(job.net, job.start, RequestOf(job.input, at.from, at.cursor)), at.shared.health.active, steps(n), steps(n + 1),
                    FeedPage(job.input.limit, n, cursor, e))
  {
    var request := RequestOf(job.input, at.from, at.cursor);
    forall step: nat, endpoint: nat | steps(n) <= step < steps(n + 1)
      ensures PageFn(job.net, job.start, request)(step, endpoint, at.shared.health.active) == Ok(FeedPage(job.input.limit, n, cursor, e))
    {
      Fed(steps, job.input.limit, cursor, e, n, step, endpoint, request);
    }
  }

  lemma NextIsFed<E>(job: Job<E>, after: Moment -> Moment, at: Paging<E>, m: Moment, n: nat, cursor: string, e: E)
    requires IsUp(m, job.start) && forall step: nat :: !job.env.cancelled(step)
    requires Feeds(job, after, m, cursor, e) && LeadsOn(job.net.ledgerOf, job.net.parses, job.input, cursor)
    requires IsFed(job, at, Trail(after, m, n), n)
    ensures var progress := NextPage(job, at);
            progress.Going? && IsFed(job, progress.paging, Trail(after, m, n + 1), n + 1)
  {
    var steps := StepsOf(after, m);
    forall k: nat
      ensures Climbs(steps, k)
    {
      TrailIsUp(job.policy, job.env, m, k, job.start);
    }
    TrailIsUp(job.policy, job.env, m, n, job.start);
    PageIsFed(job, at, n, cursor, e, steps);
    CalledAtOnce(job.policy, job.env, Trail(after, m, n), PageFn(job.net, job.start, RequestOf(job.input, at.from, at.cursor)),
                 FeedPage(job.input.limit, n, cursor, e), steps(n + 1));
    var done := PageCall(job, at);
    FeedGoesOn(job, at.(world := done.world, shared := done.state), Moment(done.world, done.state), n, cursor, e);
  }

  predicate KeepsGoing<E>(next: Paging<E> -> Progress<E>, inv: (Paging<E>, nat) -> bool, at: Paging<E>, n: nat) {
    inv(at, n) ==> next(at).Going? && inv(next(at).paging, n + 1)
  }

  lemma {:induction false} NeverStops<E(!new)>(next: Paging<E> -> Progress<E>, at: Paging<E>, n: nat, fuel: nat, inv: (Paging<E>, nat) -> bool)
    requires inv(at, n) && forall at': Paging<E>, k: nat :: KeepsGoing(next, inv, at', k)
    ensures FetchFrom(next, at, fuel).Going?
    decreases fuel
  {
    if fuel > 0 {
      assert KeepsGoing(next, inv, at, n);
      NeverStops(next, next(at).paging, n + 1, fuel - 1, inv);
    }
  }

  function Feeding<E>(job: Job<E>, after: Moment -> Moment, m: Moment): (Paging<E>, nat) -> bool {
    (at: Paging<E>, n: nat) => IsFed(job, at, Trail(after, m, n), n)
  }

  lemma FeedingGoesOn<E>(job: Job<E>, after: Moment -> Moment, at: Paging<E>, m: Moment, n: nat, cursor: string, e: E)
    requires IsUp(m, job.start) && forall step: nat :: !job.env.cancelled(step)
    requires Feeds(job, after, m, cursor, e) && LeadsOn(job.net.ledgerOf, job.net.parses, job.input, cursor)
    ensures KeepsGoing(Turner(job), Feeding(job, after, m), at, n)
  {
    if Feeding(job, after, m)(at, n) {
      NextIsFed(job, after, at, m, n, cursor, e);
    }
  }

  lemma FedForEver<E(!new)>(job: Job<E>, after: Moment -> Moment, at: Paging<E>, m: Moment, cursor: string, e: E, fuel: nat)
    requires IsUp(m, job.start) && forall step: nat :: !job.env.cancelled(step)
    requires Feeds(job, after, m, cursor, e) && LeadsOn(job.net.ledgerOf, job.net.parses, job.input, cursor)
    requires Feeding(job, after, m)(at, 0)
    ensures FetchFrom(Turner(job), at, fuel).Going?
  {
    forall at': Paging<E>, n: nat
      ensures KeepsGoing(Turner(job), Feeding(job, after, m), at', n)
    {
      FeedingGoesOn(job, after, at', m, n, cursor, e);
    }
    NeverStops(Turner(job), at, 0, fuel, Feeding(job, after, m));
  }

  /** Whatever the policy, the environment and the limit: while all endpoints are up and nobody cancels, a server of pages no longer
      than 2^32 + 1 less the limit, or of single events without a limit, and with one cursor that parses, keeps a pagination going
      for ever that has no end ledger at or behind its start or that cursor. */
  lemma PaginationMayNotStop<E(!new)>(ledgerOf: string -> Option<Ledger>, parses: string -> bool, policy: Policy, env: Env, w: World,
                                      s: Shared, input: FetchInput, cursor: string, e: E) returns (server: Server<E>)
    requires NoneDown(s.health, w.now) && forall step: nat :: !env.cancelled(step)
    requires IsBefore(input, input.startLedger) && (input.cursor == "" || parses(input.cursor))
    requires LeadsOn(ledgerOf, parses, input, cursor)
    ensures ShortPages(server, if input.limit == 0 then 1 else TWO_TO_32 + 1 - input.limit)
    ensures forall fuel: nat :: Fetching(Network(server, ledgerOf, parses), policy, env, w, s, input, fuel).Going?
  {
    var after := Calls(policy, env);
    var steps := StepsOf(after, Moment(w, s));
    server := FeedServer(steps, input.limit, cursor, e);
    FeedIsShort(steps, input.limit, cursor, e, if input.limit == 0 then 1 else TWO_TO_32 + 1 - input.limit);
    var job := Job(Network(server, ledgerOf, parses), policy, env, input, s.health.active);
    forall fuel: nat
      ensures Fetching(job.net, policy, env, w, s, input, fuel).Going?
    {
      FedForEver(job, after, Begin(w, s, input), Moment(w, s), cursor, e, fuel);
    }
  }

  // ----- Exactly when it stops

  ghost predicate Stops<E>(net: Network<E>, policy: Policy, env: Env, w: World, s: Shared, input: FetchInput) {
    exists fuel: nat :: Fetching(net, policy, env, w, s, input, fuel).Stopped?
  }

  /** Pagination stops for all servers whose pages are no longer than `most`, in every environment. */
  ghost predicate AlwaysStops<E(!new)>(ledgerOf: string -> Option<Ledger>, parses: string -> bool, input: FetchInput, most: nat) {
    forall server: Server<E>, policy: Policy, env: Env, w: World, s: Shared ::
      ShortPages(server, most) ==> Stops(Network(server, ledgerOf, parses), policy, env, w, s, input)
  }

  /** What can be seen before the call: the pages are empty or cannot make the 32-bit count wrap past a positive limit, the start is
      at or past the end, the cursor given does not parse, or no cursor leads on. */
  ghost predicate MustStop(ledgerOf: string -> Option<Ledger>, parses: string -> bool, input: FetchInput, most: nat) {
    || most == 0
    || 0 < input.limit <= TWO_TO_32 - most
    || !IsBefore(input, input.startLedger)
    || (input.cursor != "" && !parses(input.cursor))
    || forall c: string :: !LeadsOn(ledgerOf, parses, input, c)
  }

  /** Past the end ledger, or with empty pages only, the first page is the last. */
  lemma StopsAtOnce<E>(net: Network<E>, policy: Policy, env: Env, w: World, s: Shared, input: FetchInput, most: nat)
    requires ShortPages(net.server, most) && (most == 0 || !IsBefore(input, input.startLedger))
    ensures Fetching(net, policy, env, w, s, input, 1).Stopped?
  {
    var job := Job(net, policy, env, input, s.health.active);
    PageIsShort(job, Begin(w, s, input), most);
  }

  /** A cursor that does not parse ends the pagination. */
  lemma RefusedPage<E>(job: Job<E>, at: Paging<E>)
    requires !CanAsk(job.net, at.cursor)
    ensures NextPage(job, at).Stopped?
  {
    PageIsAnswer(job, at);
  }

  lemma RefusedStops<E>(net: Network<E>, policy: Policy, env: Env, w: World, s: Shared, input: FetchInput)
    requires !CanAsk(net, input.cursor)
    ensures Fetching(net, policy, env, w, s, input, 1).Stopped?
  {
    RefusedPage(Job(net, policy, env, input, s.health.active), Begin(w, s, input));
  }

  /** When no cursor leads on, the second page is never answered. */
  lemma StopsInTwo<E>(net: Network<E>, policy: Policy, env: Env, w: World, s: Shared, input: FetchInput)
    requires forall c: string :: !LeadsOn(net.ledgerOf, net.parses, input, c)
    ensures Fetching(net, policy, env, w, s, input, 2).Stopped?
  {
    var job := Job(net, policy, env, input, s.health.active);
    var first := NextPage(job, Begin(w, s, input));
    if first.Going? {
      assert !LeadsOn(net.ledgerOf, net.parses, input, first.paging.cursor);
      RefusedPage(job, first.paging);
    }
  }

  lemma MustStopStops<E(!new)>(net: Network<E>, policy: Policy, env: Env, w: World, s: Shared, input: FetchInput, most: nat)
    requires ShortPages(net.server, most) && MustStop(net.ledgerOf, net.parses, input, most)
    ensures Stops(net, policy, env, w, s, input)
  {
    if 0 < input.limit <= TWO_TO_32 - most {
      PaginationStops(net, policy, env, w, s, input);
      assert Fetching(net, policy, env, w, s, input, input.limit).Stopped?;
    } else if most == 0 || !IsBefore(input, input.startLedger) {
      StopsAtOnce(net, policy, env, w, s, input, most);
      assert Fetching(net, policy, env, w, s, input, 1).Stopped?;
    } else if !CanAsk(net, input.cursor) {
      RefusedStops(net, policy, env, w, s, input);
      assert Fetching(net, policy, env, w, s, input, 1).Stopped?;
    } else {
      StopsInTwo(net, policy, env, w, s, input);
      assert Fetching(net, policy, env, w, s, input, 2).Stopped?;
    }
  }

  function NoDraw(n: nat): Fraction { 0.0 }

  lemma ShorterPages<E>(server: Server<E>, most: int, more: int)
    requires ShortPages(server, most) && most <= more
    ensures ShortPages(server, more)
  {}

  lemma SomeServerNeverStops<E(!new)>(ledgerOf: string -> Option<Ledger>, parses: string -> bool, input: FetchInput, most: nat, e: E)
    requires !MustStop(ledgerOf, parses, input, most)
    ensures !AlwaysStops<E>(ledgerOf, parses, input, most)
  {
    var cursor :| LeadsOn(ledgerOf, parses, input, cursor);
    var env := Env((n: nat) => 0, (n: nat) => false, NoDraw);
    var policy, w, s := Policy(1, 1, 1, 1, false), World(0, 1, []), Shared(Limiter(0, []), Fresh(1));
    var server := PaginationMayNotStop(ledgerOf, parses, policy, env, w, s, input, cursor, e);
    ShorterPages(server, if input.limit == 0 then 1 else TWO_TO_32 + 1 - input.limit, most);
    assert !Stops(Network(server, ledgerOf, parses), policy, env, w, s, input);
  }

  /** Whatever cursors parse and whatever ledgers they tell: pagination stops for all servers whose pages have at most `most` events
      if and only if it must. */
  lemma PaginationStopsIff<E(!new)>(ledgerOf: string -> Option<Ledger>, parses: string -> bool, input: FetchInput, most: nat, e: E)
    ensures AlwaysStops<E>(ledgerOf, parses, input, most) <==> MustStop(ledgerOf, parses, input, most)
  {
    if MustStop(ledgerOf, parses, input, most) {
      forall server: Server<E>, policy: Policy, env: Env, w: World, s: Shared | ShortPages(server, most)
        ensures Stops(Network(server, ledgerOf, parses), policy, env, w, s, input)
      {
        MustStopStops(Network(server, ledgerOf, parses), policy, env, w, s, input, most);
      }
    } else {
      SomeServerNeverStops(ledgerOf, parses, input, most, e);
    }
  }
}
