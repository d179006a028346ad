/** internal/client/stellar/resilient_client.go: calls through throttle, retries and pool, and the pagination over them. */
module ResilientClients {
  import opened Prelude
  import opened Environment
  import opened Throttles
  import opened Pools
  import opened Retries

  // ----- One call

  /** What all calls share. */
  datatype Shared = Shared(limiter: Limiter, health: Endpoints)

  /** What Do retries: wait for the throttle, then call the pool. */
  function Trying<R>(env: Env, fn: Fn<R>, w: World, s: Shared): Attempt<Shared, R> {
    var waited := Waiting(s.limiter, env, w);
    if !waited.granted then Attempt(waited.world, s.(limiter := waited.limiter), Err(Cancelled))
    else
      var called := Calling(s.health, env, waited.world, fn);
      Attempt(called.world, Shared(waited.limiter, called.health), called.result)
  }

  function AttemptOf<R>(env: Env, fn: Fn<R>): (World, Shared) -> Attempt<Shared, R> {
    (w: World, s: Shared) => Trying(env, fn, w, s)
  }

  function CallOf<R>(policy: Policy, env: Env, w: World, s: Shared, fn: Fn<R>): Done<Shared, R> {
    Doing(policy, env, w, s, AttemptOf(env, fn))
  }

  // ----- Pages

  type Ledger = x: int | 0 <= x < TWO_TO_32

  datatype FetchInput = FetchInput(startLedger: Ledger, endLedger: Ledger, limit: Ledger, cursor: string, contractIDs: seq<string>)

  datatype PageRequest = PageRequest(startLedger: Ledger, cursor: string, limit: Ledger, contractIDs: seq<string>)

  datatype Page<+E> = Page(events: seq<E>, cursor: string, latestLedger: Ledger)

  /** What an endpoint answers at a step of the run. */
  type Server<E> = (nat, nat, PageRequest) -> Result<Page<E>, Failure>

  /** The servers, the ledger at the front of a cursor, and the cursors the RPC library parses before it asks a server. */
  datatype Network<!E> = Network(server: Server<E>, ledgerOf: string -> Option<Ledger>, parses: string -> bool)

  /** A page asked for from a ledger and a cursor, and the endpoint that served it. */
  datatype Turned<+E> = Turned(endpoint: int, from: Ledger, cursor: string, page: Page<E>)

  predicate CanAsk<E>(net: Network<E>, cursor: string) { cursor == "" || net.parses(cursor) }

  /** The function given to the pool: no endpoint but the one the pagination began with may continue it, and a cursor that does
      not parse is an error that no attempt repeats. */
  function PageFn<E>(net: Network<E>, start: int, request: PageRequest): Fn<Page<E>> {
    (step: nat, endpoint: nat, active: int) =>
      if start >= 0 && request.cursor != "" && active >= 0 && active != start then Err(Reanchor)
      else if !CanAsk(net, request.cursor) then Err(Plain("parse rpc cursor"))
      else net.server(step, endpoint, request)
  }

  function RequestOf(input: FetchInput, from: Ledger, cursor: string): PageRequest {
    PageRequest(from, cursor, if input.limit == 0 then 1000 else input.limit, input.contractIDs)
  }

  function NextLedger<E>(ledgerOf: string -> Option<Ledger>, from: Ledger, page: Page<E>): (next: Ledger)
    ensures next == Max(Max(from, page.latestLedger),
                        if page.cursor == "" || ledgerOf(page.cursor).None? then 0 else ledgerOf(page.cursor).value)
  {
    var parsed := if page.cursor != "" && ledgerOf(page.cursor).Some? then ledgerOf(page.cursor).value else from;
    var next := if parsed > from then parsed else from;
    if page.latestLedger > next then page.latestLedger else next
  }

  /** Why pagination stops after a page; the count of events is compared as a 32-bit number. */
  predicate IsLast<E>(input: FetchInput, page: Page<E>, total: nat, next: Ledger) {
    || page.cursor == "" || page.events == []
    || (input.limit > 0 && total % TWO_TO_32 >= input.limit)
    || (input.endLedger > 0 && next >= input.endLedger)
  }

  datatype Ending<+E> =
    | Fetched(events: seq<E>, next: Ledger)
    | Aborted(next: Ledger, error: Failure)

  /** What a pagination is about, and what it has come to. */
  datatype Job<!E> = Job(net: Network<E>, policy: Policy, env: Env, input: FetchInput, start: int)

  datatype Paging<+E> = Paging(world: World, shared: Shared, from: Ledger, cursor: string, events: seq<E>, pages: seq<Turned<E>>)

  datatype Progress<+E> = Stopped(paging: Paging<E>, outcome: Ending<E>) | Going(paging: Paging<E>)

  /** The page is in: stop, or go on after it. */
  function Received<E>(job: Job<E>, at: Paging<E>, page: Page<E>): Progress<E> {
    var next := NextLedger(job.net.ledgerOf, at.from, page);
    var got := at.(events := at.events + page.events, pages := at.pages + [Turned(at.shared.health.active, at.from, at.cursor, page)]);
    if IsLast(job.input, page, |got.events|, next) then Stopped(got, Fetched(got.events, next))
    else Going(got.(from := next, cursor := page.cursor))
  }

  /** The call for the page at hand. */
  function PageCall<E>(job: Job<E>, at: Paging<E>): Done<Shared, Page<E>> {
    CallOf(job.policy, job.env, at.world, at.shared, PageFn(job.net, job.start, RequestOf(job.input, at.from, at.cursor)))
  }

  function Answered<E>(job: Job<E>, at: Paging<E>, answer: Result<Page<E>, Failure>): Progress<E> {
    match answer
    case Err(e) => Stopped(at, Aborted(at.from, e))
    case Ok(page) => Received(job, at, page)
  }

  /** One turn of the loop. */
  function NextPage<E>(job: Job<E>, at: Paging<E>): Progress<E> {
    var done := PageCall(job, at);
    Answered(job, at.(world := done.world, shared := done.state), done.result)
  }

  function Turner<E>(job: Job<E>): Paging<E> -> Progress<E> { (at: Paging<E>) => NextPage(job, at) }

  /** The pagination, at most `fuel` pages of it. */
  function FetchFrom<E>(next: Paging<E> -> Progress<E>, at: Paging<E>, fuel: nat): Progress<E>
    decreases fuel
  {
    if fuel == 0 then Going(at)
    else
      var progress := next(at);
      if progress.Stopped? then progress else FetchFrom(next, progress.paging, fuel - 1)
  }

  function Begin<E>(w: World, s: Shared, input: FetchInput): Paging<E> {
    Paging(w, s, input.startLedger, input.cursor, [], [])
  }

  function Fetching<E>(net: Network<E>, policy: Policy, env: Env, w: World, s: Shared, input: FetchInput, fuel: nat): Progress<E> {
    FetchFrom(Turner(Job(net, policy, env, input, s.health.active)), Begin(w, s, input), fuel)
  }

  class ResilientClient {
    const policy: Policy
    const pool: Pool
    const throttle: Throttle

    ghost predicate Valid()
      reads this, pool, pool.errors, pool.downUntil, throttle
    {
      pool.Valid() && throttle.Valid()
    }

    ghost function State(): Shared
      requires Valid()
      reads this, pool, pool.errors, pool.downUntil, throttle
    {
      Shared(throttle.State(), pool.State())
    }

    constructor (policy: Policy, pool: Pool, throttle: Throttle)
      requires pool.Valid() && throttle.Valid()
      ensures this.policy == policy && this.pool == pool && this.throttle == throttle && Valid()
    {
      this.policy, this.pool, this.throttle := policy, pool, throttle;
    }

    /** One attempt of call. */
    method Try<R>(env: Env, w: World, fn: Fn<R>) returns (world: World, answer: Result<R, Failure>)
      requires Valid()
      modifies pool, pool.errors, pool.downUntil, throttle
      ensures Valid()
      ensures Attempt(world, State(), answer) == Trying(env, fn, w, old(State()))
    {
      var granted;
      world, granted := throttle.Wait(env, w);
      if !granted {
        return world, Err(Cancelled);
      }
      world, answer := pool.Call(env, world, fn);
    }

    /** call: the loop of Do around Try. */
    method Call<R>(env: Env, w: World, fn: Fn<R>) returns (world: World, result: Result<R, Failure>)
      requires Valid()
      modifies pool, pool.errors, pool.downUntil, throttle
      ensures Valid()
      ensures var done := CallOf(policy, env, w, old(State()), fn);
              world == done.world && State() == done.state && result == done.result
    {
      var p := WithDefaults(policy);
      var backoff, attempt := p.baseBackoff, 1;
      ghost var whole := CallOf(policy, env, w, State(), fn);
      world := w;
      while true
        invariant Valid() && 1 <= attempt <= p.maxAttempts
        invariant var rest := DoFrom(p, env, world, State(), AttemptOf(env, fn), attempt, backoff);
                  rest.world == whole.world && rest.state == whole.state && rest.result == whole.result
        decreases p.maxAttempts - attempt
      {
        var isDone := env.cancelled(world.step);
        world := world.(step := world.step + 1);
        if isDone {
          return world, Err(Cancelled);
        }
        world, result := Try(env, world, fn);
        if result.Ok? || !IsRetryable(result.error) || attempt == p.maxAttempts {
          return;
        }
        var wait := WaitFor(p, result.error, backoff, env.jitter(world.step));
        world := world.(step := world.step + 1);
        if env.cancelled(world.step) {
          return Tick(env, world), Err(Cancelled);
        }
        world := Sleep(env, world, wait);
        backoff := NextBackoff(p, result.error, backoff);
        attempt := attempt + 1;
      }
    }

    /** The call for one page. */
    method CallPage<E>(job: Job<E>, w: World, startLedger: Ledger, cursor: string, ghost at: Paging<E>)
      returns (world: World, answer: Result<Page<E>, Failure>)
      requires Valid() && job.policy == policy && at.world == w && at.shared == State() && at.from == startLedger && at.cursor == cursor
      modifies pool, pool.errors, pool.downUntil, throttle
      ensures Valid()
      ensures Turner(job)(at) == Answered(job, at.(world := world, shared := State()), answer)
    {
      world, answer := Call(job.env, w, PageFn(job.net, job.start, RequestOf(job.input, startLedger, cursor)));
    }

    /** The pagination, given up after `fuel` pages: nothing else would stop it without a limit. */
    method FetchEvents<E>(net: Network<E>, env: Env, w: World, input: FetchInput, fuel: nat)
      returns (world: World, outcome: Option<Ending<E>>)
      requires Valid()
      modifies pool, pool.errors, pool.downUntil, throttle
      ensures Valid()
      ensures var progress := Fetching(net, policy, env, w, old(State()), input, fuel);
              && world == progress.paging.world && State() == progress.paging.shared
              && outcome == if progress.Stopped? then Some(progress.outcome) else None
    {
      ghost var whole := Fetching(net, policy, env, w, State(), input, fuel);
      var job := Job(net, policy, env, input, pool.active);
      var allEvents: seq<E> := [];
      var cursor, startLedger := input.cursor, input.startLedger;
      ghost var pages: seq<Turned<E>> := [];
      world := w;
      for left := fuel downto 0
        invariant Valid()
        invariant FetchFrom(Turner(job), Paging(world, State(), startLedger, cursor, allEvents, pages), left) == whole
      {
        var answer;
        world, answer := CallPage(job, world, startLedger, cursor, Paging(world, State(), startLedger, cursor, allEvents, pages));
        if answer.Err? {
          return world, Some(Aborted(startLedger, answer.error));
        }
        var page := answer.value;
        pages := pages + [Turned(pool.active, startLedger, cursor, page)];
        allEvents := allEvents + page.events;
        var next := NextLedger(net.ledgerOf, startLedger, page);
        if IsLast(input, page, |allEvents|, next) {
          return world, Some(Fetched(allEvents, next));
        }
        cursor, startLedger := page.cursor, next;
      }
      outcome := None;
    }
  }
}
