/** What a pagination of internal/client/stellar/resilient_client.go comes to, layer over layer. */
module Pagination {
  import opened Prelude
  import opened Environment
  import opened Throttles
  import opened Pools
  import opened Retries
  import opened ResilientClients

  // ----- What holds of every attempt holds of a call

  ghost predicate Settles<T, R>(a: Attempt<T, R>, inv: T -> bool, good: (T, R) -> bool, bad: Failure -> bool) {
    match a.answer
    case Ok(r) => good(a.state, r)
    case Err(e) => inv(a.state) && bad(e)
  }

  lemma {:induction false} DoSettles<T(!new), R>(p: Policy, env: Env, w: World, s: T, fn: (World, T) -> Attempt<T, R>, attempt: nat,
                                                 backoff: int, inv: T -> bool, good: (T, R) -> bool, bad: Failure -> bool)
    requires 1 <= attempt <= p.maxAttempts && inv(s) && bad(Cancelled)
    requires forall w': World, s': T :: inv(s') ==> Settles(fn(w', s'), inv, good, bad)
    ensures var done := DoFrom(p, env, w, s, fn, attempt, backoff);
            Settles(Attempt(done.world, done.state, done.result), inv, good, bad)
    decreases p.maxAttempts - attempt
  {
    var looked := w.(step := w.step + 1);
    assert Settles(fn(looked, s), inv, good, bad);
    var once := TryOnce(p, env, w, s, fn, attempt == p.maxAttempts, backoff);
    if once.Paused? {
      DoSettles(p, env, once.world, once.state, fn, attempt + 1, NextBackoff(p, once.pause.failure, backoff), inv, good, bad);
    }
  }

  lemma CallSettles<R>(policy: Policy, env: Env, w: World, s: Shared, fn: Fn<R>, inv: Shared -> bool, good: (Shared, R) -> bool,
                       bad: Failure -> bool)
    requires inv(s) && bad(Cancelled)
    requires forall w': World, s': Shared :: inv(s') ==> Settles(Trying(env, fn, w', s'), inv, good, bad)
    ensures var done := CallOf(policy, env, w, s, fn); Settles(Attempt(done.world, done.state, done.result), inv, good, bad)
  {
    var p := WithDefaults(policy);
    forall w': World, s': Shared | inv(s')
      ensures Settles(AttemptOf(env, fn)(w', s'), inv, good, bad)
    {
      assert Settles(Trying(env, fn, w', s'), inv, good, bad);
    }
    DoSettles(p, env, w, s, AttemptOf(env, fn), 1, p.baseBackoff, inv, good, bad);
  }

  // ----- A page is an answer of the endpoint that is active after it

  /** A call that succeeds returns what fn gave for the endpoint that is active now. */
  lemma {:induction false} AnsweredByActive<R>(h: Health, env: Env, w: World, fn: Fn<R>, start: nat, i: nat, lastErr: Option<Failure>)
    requires IsPool(h) && start < |h.errors| && i <= |h.errors|
    ensures var out := CallFrom(h, env, w, fn, start, i, lastErr);
            out.result.Ok? ==> out.health.active >= 0 && exists step: nat :: fn(step, out.health.active, h.active) == out.result
    decreases |h.errors| - i
  {
    if i < |h.errors| {
      var idx := Rotated(start, i, |h.errors|);
      var turn := TakeTurn(h, env, w, fn, idx);
      TurnIs(h, env, w, fn, idx);
      if turn.result.Err? {
        AnsweredByActive(turn.health, env, turn.world, fn, start, i + 1, Some(turn.result.error));
      } else {
        assert fn(Tick(env, w).step, idx, h.active) == turn.result;
      }
    }
  }

  /** The endpoint could be asked and has answered the request with the page. */
  ghost predicate IsAnswer<E>(net: Network<E>, request: PageRequest, endpoint: int, page: Page<E>) {
    endpoint >= 0 && CanAsk(net, request.cursor) && exists step: nat :: net.server(step, endpoint, request) == Ok(page)
  }

  lemma TriedAnswer<E>(env: Env, net: Network<E>, start: int, request: PageRequest, w: World, s: Shared)
    ensures var tried := Trying(env, PageFn(net, start, request), w, s);
            tried.answer.Ok? ==> IsAnswer(net, request, tried.state.health.active, tried.answer.value)
  {
    var fn := PageFn(net, start, request);
    var waited := Waiting(s.limiter, env, w);
    var read := Tick(env, waited.world);
    PickIs(s.health, read.now);
    AnsweredByActive(s.health, env, read, fn, Pick(s.health, read.now), 0, None);
    var out := Calling(s.health, env, waited.world, fn);
    if waited.granted && out.result.Ok? {
      var step: nat :| fn(step, out.health.active, s.health.active) == out.result;
      assert net.server(step, out.health.active, request) == out.result;
    }
  }

  lemma PageIsAnswer<E>(job: Job<E>, at: Paging<E>)
    ensures var done, request := PageCall(job, at), RequestOf(job.input, at.from, at.cursor);
            done.result.Ok? ==> IsAnswer(job.net, request, done.state.health.active, done.result.value)
  {
    var request := RequestOf(job.input, at.from, at.cursor);
    var fn := PageFn(job.net, job.start, request);
    var inv, bad := (s: Shared) => true, (e: Failure) => true;
    var good := (s: Shared, page: Page<E>) => IsAnswer(job.net, request, s.health.active, page);
    forall w: World, s: Shared
      ensures Settles(Trying(job.env, fn, w, s), inv, good, bad)
    {
      TriedAnswer(job.env, job.net, job.start, request, w, s);
    }
    CallSettles(job.policy, job.env, at.world, at.shared, fn, inv, good, bad);
  }

  // ----- A switch of endpoints ends the pagination

  /** Every endpoint refuses while `active` is the active one. */
  ghost predicate Refuses<R>(fn: Fn<R>, active: int, failure: Failure) {
    forall step: nat, endpoint: nat :: fn(step, endpoint, active) == Err(failure)
  }

  /** The error of a call all endpoints refuse: that of the last endpoint of the rotation. */
  function RefusalOf(log: seq<Visit>, failure: Failure): Failure {
    if log != [] && log[|log| - 1].outcome.Skipped? then AllEndpointsDown else failure
  }

  lemma {:induction false} RefusedFrom<R>(h: Health, env: Env, w: World, fn: Fn<R>, start: nat, i: nat, lastErr: Option<Failure>,
                                          failure: Failure)
    requires IsPool(h) && start < |h.errors| && i <= |h.errors| && Refuses(fn, h.active, failure)
    requires i == |h.errors| ==> lastErr == Some(RefusalOf(w.log, failure))
    ensures var out := CallFrom(h, env, w, fn, start, i, lastErr);
            out.result == Err(RefusalOf(out.world.log, failure)) && out.health.active == h.active
    decreases |h.errors| - i
  {
    if i < |h.errors| {
      var idx := Rotated(start, i, |h.errors|);
      var turn := TakeTurn(h, env, w, fn, idx);
      TurnIs(h, env, w, fn, idx);
      assert fn(Tick(env, w).step, idx, h.active) == Err(failure);
      assert turn.world.log[|w.log|] == turn.visit;
      RefusedFrom(turn.health, env, turn.world, fn, start, i + 1, Some(turn.result.error), failure);
    }
  }

  lemma RefusedCall<R>(h: Endpoints, env: Env, w: World, fn: Fn<R>, failure: Failure)
    requires Refuses(fn, h.active, failure)
    ensures var out := Calling(h, env, w, fn);
            out.result == Err(RefusalOf(out.world.log, failure)) && out.health.active == h.active
  {
    var read := Tick(env, w);
    PickIs(h, read.now);
    RefusedFrom(h, env, read, fn, Pick(h, read.now), 0, None, failure);
  }

  lemma RefusedTry<R>(env: Env, fn: Fn<R>, w: World, s: Shared, failure: Failure)
    requires Refuses(fn, s.health.active, failure)
    ensures var tried := Trying(env, fn, w, s);
            && tried.answer.Err? && tried.state.health.active == s.health.active
            && (tried.answer.error == Cancelled || tried.answer.error == RefusalOf(tried.world.log, failure))
  {
    RefusedCall(s.health, env, Waiting(s.limiter, env, w).world, fn, failure);
  }

  /** An attempt that fails for good is the only one. */
  lemma FailsAtOnce<T, R>(policy: Policy, env: Env, w: World, s: T, fn: (World, T) -> Attempt<T, R>)
    requires var answer := fn(w.(step := w.step + 1), s).answer; answer.Err? && !IsRetryable(answer.error)
    ensures var done, tried := Doing(policy, env, w, s, fn), fn(w.(step := w.step + 1), s);
            && done.pauses == []
            && ((done.result == Err(Cancelled) && done.state == s)
                || (done.result == tried.answer && done.state == tried.state && done.world == tried.world))
  {}

  /** The pagination began with `start`, has a cursor, and another endpoint is active. */
  predicate HasSwitched(start: int, cursor: string, active: int) {
    start >= 0 && cursor != "" && active >= 0 && active != start
  }

  /** Then the call for the next page fails at its first attempt: with the re-anchor error, unless the context is done or the last
      endpoint of the rotation is down at its turn. */
  lemma SwitchIsReported<E>(job: Job<E>, at: Paging<E>)
    requires HasSwitched(job.start, at.cursor, at.shared.health.active)
    ensures var done := PageCall(job, at);
            && done.result.Err? && done.state.health.active == at.shared.health.active && done.pauses == []
            && (done.result.error == Cancelled || done.result.error == RefusalOf(done.world.log, Reanchor))
  {
    var fn := PageFn(job.net, job.start, RequestOf(job.input, at.from, at.cursor));
    RefusedTry(job.env, fn, at.world.(step := at.world.step + 1), at.shared, Reanchor);
    FailsAtOnce(job.policy, job.env, at.world, at.shared, AttemptOf(job.env, fn));
  }

  // ----- What holds of every page holds of a pagination

  /** The invariant is kept while the pagination goes on, and gives the result when it stops. */
  ghost predicate Keeps<E>(progress: Progress<E>, inv: Paging<E> -> bool, result: (Paging<E>, Ending<E>) -> bool) {
    match progress
    case Going(at) => inv(at)
    case Stopped(at, outcome) => result(at, outcome)
  }

  lemma {:induction false} PagingKeeps<E(!new)>(next: Paging<E> -> Progress<E>, at: Paging<E>, fuel: nat, inv: Paging<E> -> bool,
                                                result: (Paging<E>, Ending<E>) -> bool)
    requires inv(at) && forall at': Paging<E> :: inv(at') ==> Keeps(next(at'), inv, result)
    ensures Keeps(FetchFrom(next, at, fuel), inv, result)
    decreases fuel
  {
    if fuel > 0 {
      assert Keeps(next(at), inv, result);
      if next(at).Going? {
        PagingKeeps(next, next(at).paging, fuel - 1, inv, result);
      }
    }
  }

  /** Endpoint affinity: all pages but the last came from the endpoint the pagination began with. */
  ghost predicate AllButLastFrom<E>(pages: seq<Turned<E>>, start: int) {
    forall i :: 0 <= i < |pages| - 1 ==> pages[i].endpoint == start
  }

  ghost predicate Anchored<E>(at: Paging<E>, start: int) {
    && AllButLastFrom(at.pages, start)
    && if at.pages == [] then at.shared.health.active == start
       else at.cursor != "" && at.shared.health.active == at.pages[|at.pages| - 1].endpoint >= 0
  }

  lemma StaysAnchored<E>(job: Job<E>, at: Paging<E>)
    requires job.start >= 0 && Anchored(at, job.start)
    ensures var progress := NextPage(job, at);
            if progress.Going? then Anchored(progress.paging, job.start)
            else progress.outcome.Fetched? ==> AllButLastFrom(progress.paging.pages, job.start)
  {
    if at.shared.health.active != job.start {
      SwitchIsReported(job, at);
    } else {
      PageIsAnswer(job, at);
    }
  }

  /** Every page is what its endpoint answered to its request. */
  ghost predicate AllAnswers<E>(job: Job<E>, pages: seq<Turned<E>>) {
    forall i :: 0 <= i < |pages| ==> IsAnswer(job.net, AskedAt(job.input, pages[i].from, pages[i].cursor), pages[i].endpoint, pages[i].page)
  }

  /** The request from a position on: for the input's contracts, with its limit, or 1000 if it has none. */
  function AskedAt(input: FetchInput, from: Ledger, cursor: string): PageRequest {
    PageRequest(from, cursor, if input.limit > 0 then input.limit else 1000, input.contractIDs)
  }

  /** However a pagination ends, every page it has is an answer of the endpoint it is noted under. */
  lemma PagesAreAnswers<E(!new)>(net: Network<E>, policy: Policy, env: Env, w: World, s: Shared, input: FetchInput, fuel: nat)
    ensures AllAnswers(Job(net, policy, env, input, s.health.active), Fetching(net, policy, env, w, s, input, fuel).paging.pages)
  {
    var job := Job(net, policy, env, input, s.health.active);
    var inv := (at: Paging<E>) => AllAnswers(job, at.pages);
    var result := (at: Paging<E>, outcome: Ending<E>) => AllAnswers(job, at.pages);
    forall at: Paging<E> | inv(at)
      ensures Keeps(Turner(job)(at), inv, result)
    {
      PageIsAnswer(job, at);
    }
    PagingKeeps(Turner(job), Begin(w, s, input), fuel, inv, result);
  }

  /** A pagination that starts with a known active endpoint and returns without error had every page but the last answered by it,
      and the last one answered by the endpoint it is noted under. */
  lemma EndpointAffinity<E(!new)>(net: Network<E>, policy: Policy, env: Env, w: World, s: Shared, input: FetchInput, fuel: nat)
    requires s.health.active >= 0
    ensures var progress := Fetching(net, policy, env, w, s, input, fuel);
            progress.Stopped? && progress.outcome.Fetched? ==>
              && AllButLastFrom(progress.paging.pages, s.health.active)
              && AllAnswers(Job(net, policy, env, input, s.health.active), progress.paging.pages)
  {
    var job := Job(net, policy, env, input, s.health.active);
    var inv := (at: Paging<E>) => Anchored(at, job.start);
    var result := (at: Paging<E>, outcome: Ending<E>) => outcome.Fetched? ==> AllButLastFrom(at.pages, job.start);
    forall at: Paging<E> | inv(at)
      ensures Keeps(Turner(job)(at), inv, result)
    {
      StaysAnchored(job, at);
    }
    PagingKeeps(Turner(job), Begin(w, s, input), fuel, inv, result);
    PagesAreAnswers(net, policy, env, w, s, input, fuel);
  }

  // ----- Which pages, and where it ends

  /** The events of the first n pages, in order. */
  function EventsOf<E>(pages: seq<Turned<E>>, n: nat): seq<E>
    requires n <= |pages|
  {
    if n == 0 then [] else EventsOf(pages, n - 1) + pages[n - 1].page.events
  }

  lemma {:induction false} EventsOfMore<E>(pages: seq<Turned<E>>, more: Turned<E>, n: nat)
    requires n <= |pages|
    ensures EventsOf(pages + [more], n) == EventsOf(pages, n)
  {
    if n > 0 {
      EventsOfMore(pages, more, n - 1);
    }
  }

  function After<E>(job: Job<E>, turned: Turned<E>): Ledger { NextLedger(job.net.ledgerOf, turned.from, turned.page) }

  /** Pagination goes on after the first n pages. */
  ghost predicate GoesOn<E>(job: Job<E>, pages: seq<Turned<E>>, n: nat)
    requires 0 < n <= |pages|
  {
    !IsLast(job.input, pages[n - 1].page, |EventsOf(pages, n)|, After(job, pages[n - 1]))
  }

  /** Page i is asked for from where page i - 1 led. */
  ghost predicate Follow<E>(job: Job<E>, pages: seq<Turned<E>>, i: nat)
    requires i < |pages|
  {
    if i == 0 then pages[0].from == job.input.startLedger && pages[0].cursor == job.input.cursor
    else pages[i].from == After(job, pages[i - 1]) && pages[i].cursor == pages[i - 1].page.cursor && GoesOn(job, pages, i)
  }

  ghost predicate IsChain<E>(job: Job<E>, pages: seq<Turned<E>>) {
    forall i: nat :: i < |pages| ==> Follow(job, pages, i)
  }

  /** Between two pages: the events so far are those of the pages, and the position is where the last page led. */
  ghost predicate Between<E>(job: Job<E>, at: Paging<E>) {
    && IsChain(job, at.pages) && at.events == EventsOf(at.pages, |at.pages|)
    && if at.pages == [] then at.from == job.input.startLedger && at.cursor == job.input.cursor
       else
         && at.from == After(job, at.pages[|at.pages| - 1]) && at.cursor == at.pages[|at.pages| - 1].page.cursor
         && GoesOn(job, at.pages, |at.pages|)
  }

  /** What a pagination returns. */
  ghost predicate EndsAt<E>(job: Job<E>, pages: seq<Turned<E>>, outcome: Ending<E>) {
    && IsChain(job, pages)
    && match outcome
       case Fetched(events, next) =>
         pages != [] && !GoesOn(job, pages, |pages|) && events == EventsOf(pages, |pages|) && next == After(job, pages[|pages| - 1])
       case Aborted(next, _) =>
         if pages == [] then next == job.input.startLedger
         else next == After(job, pages[|pages| - 1]) && GoesOn(job, pages, |pages|)
  }

  lemma ChainGrows<E>(job: Job<E>, at: Paging<E>, turned: Turned<E>)
    requires Between(job, at) && turned.from == at.from && turned.cursor == at.cursor
    ensures IsChain(job, at.pages + [turned])
    ensures EventsOf(at.pages + [turned], |at.pages| + 1) == at.events + turned.page.events
  {
    var pages, n := at.pages + [turned], |at.pages|;
    EventsOfMore(at.pages, turned, n);
    forall i: nat | i < |pages|
      ensures Follow(job, pages, i)
    {
      if i < n {
        assert Follow(job, at.pages, i);
      }
      if i > 0 {
        EventsOfMore(at.pages, turned, i);
      }
    }
  }

  lemma PageIsBetween<E>(job: Job<E>, at: Paging<E>)
    requires Between(job, at)
    ensures var progress := NextPage(job, at);
            if progress.Going? then Between(job, progress.paging) else EndsAt(job, progress.paging.pages, progress.outcome)
  {
    var done := PageCall(job, at);
    if done.result.Ok? {
      var turned := Turned(done.state.health.active, at.from, at.cursor, done.result.value);
      ChainGrows(job, at, turned);
    }
  }

  /** A pagination returns its pages' events in order; each page is asked for from where the one before led, only if that one was
      not the last; and the ledger returned is where the last page led. */
  lemma PagesAreChained<E(!new)>(net: Network<E>, policy: Policy, env: Env, w: World, s: Shared, input: FetchInput, fuel: nat)
    ensures var progress, job := Fetching(net, policy, env, w, s, input, fuel), Job(net, policy, env, input, s.health.active);
            progress.Stopped? ==> EndsAt(job, progress.paging.pages, progress.outcome)
  {
    var job := Job(net, policy, env, input, s.health.active);
    var inv := (at: Paging<E>) => Between(job, at);
    var result := (at: Paging<E>, outcome: Ending<E>) => EndsAt(job, at.pages, outcome);
    forall at: Paging<E> | inv(at)
      ensures Keeps(Turner(job)(at), inv, result)
    {
      PageIsBetween(job, at);
    }
    PagingKeeps(Turner(job), Begin(w, s, input), fuel, inv, result);
  }

  /** A page that is followed by another has a cursor and events, keeps below the limit, and stays before the end ledger. */
  lemma GoesOnOnlyWhile<E>(job: Job<E>, pages: seq<Turned<E>>, i: nat)
    requires IsChain(job, pages) && i + 1 < |pages|
    ensures pages[i].page.cursor != "" && pages[i].page.events != []
    ensures job.input.limit > 0 ==> |EventsOf(pages, i + 1)| % TWO_TO_32 < job.input.limit
    ensures job.input.endLedger > 0 ==> pages[i + 1].from < job.input.endLedger
    ensures pages[i + 1].cursor == pages[i].page.cursor
  {
    assert Follow(job, pages, i + 1);
  }

  /** The last page has no cursor or no events, or brings the 32-bit count to the limit, or leads to the end ledger. */
  lemma EndsOnlyWhen<E>(job: Job<E>, pages: seq<Turned<E>>, outcome: Ending<E>)
    requires EndsAt(job, pages, outcome) && outcome.Fetched?
    ensures pages != [] && outcome.events == EventsOf(pages, |pages|)
    ensures var last := pages[|pages| - 1].page;
            || last.cursor == "" || last.events == []
            || (job.input.limit > 0 && |outcome.events| % 0x1_0000_0000 >= job.input.limit)
            || (job.input.endLedger > 0 && outcome.next >= job.input.endLedger)
  {}

  /** The position after a page is the furthest of the one before it, the ledger of its cursor if that can be read, and the latest
      ledger the server knows. */
  lemma PositionAfter<E>(job: Job<E>, turned: Turned<E>)
    ensures var next, told := After(job, turned), if turned.page.cursor == "" then None else job.net.ledgerOf(turned.page.cursor);
            && next >= turned.from && next >= turned.page.latestLedger && (told.Some? ==> next >= told.value)
            && (next == turned.from || next == turned.page.latestLedger || (told.Some? && next == told.value))
  {}

  /** The page asked for last failed with the error reported, after those the pagination has. */
  ghost predicate FailedAfter<E(!new)>(job: Job<E>, pages: seq<Turned<E>>, error: Failure) {
    exists at: Paging<E> :: PageCall(job, at).result == Err(error) && at.pages == pages
  }

  /** A pagination that aborts reports the error of a page call. */
  lemma AbortIsReported<E(!new)>(net: Network<E>, policy: Policy, env: Env, w: World, s: Shared, input: FetchInput, fuel: nat)
    ensures var progress, job := Fetching(net, policy, env, w, s, input, fuel), Job(net, policy, env, input, s.health.active);
            progress.Stopped? && progress.outcome.Aborted? ==> FailedAfter(job, progress.paging.pages, progress.outcome.error)
  {
    var job := Job(net, policy, env, input, s.health.active);
    var inv := (at: Paging<E>) => true;
    var result := (at: Paging<E>, outcome: Ending<E>) => outcome.Aborted? ==> FailedAfter(job, at.pages, outcome.error);
    forall at: Paging<E> | inv(at)
      ensures Keeps(Turner(job)(at), inv, result)
    {
      if PageCall(job, at).result.Err? {
        assert FailedAfter(job, at.pages, PageCall(job, at).result.error);
      }
    }
    PagingKeeps(Turner(job), Begin(w, s, input), fuel, inv, result);
  }

  lemma {:induction false} LedgersRise<E>(job: Job<E>, pages: seq<Turned<E>>, i: nat, j: nat)
    requires IsChain(job, pages) && i <= j < |pages|
    ensures job.input.startLedger <= pages[i].from <= pages[j].from <= After(job, pages[j])
    decreases j
  {
    assert Follow(job, pages, j);
    if i < j {
      LedgersRise(job, pages, i, j - 1);
    } else if i > 0 {
      LedgersRise(job, pages, i - 1, i - 1);
    }
  }

  /** The position never moves below the start and never backwards. */
  lemma LedgerNeverFalls<E>(job: Job<E>, pages: seq<Turned<E>>, outcome: Ending<E>)
    requires EndsAt(job, pages, outcome)
    ensures job.input.startLedger <= outcome.next
    ensures forall i, j :: 0 <= i <= j < |pages| ==> job.input.startLedger <= pages[i].from <= pages[j].from <= outcome.next
  {
    forall i, j | 0 <= i <= j < |pages|
      ensures job.input.startLedger <= pages[i].from <= pages[j].from <= outcome.next
    {
      LedgersRise(job, pages, i, j);
      LedgersRise(job, pages, j, |pages| - 1);
    }
    if pages != [] {
      LedgersRise(job, pages, 0, |pages| - 1);
    }
  }

  /** No page is so long that the 32-bit count could wrap before the limit is seen. */
  ghost predicate PagesFit<E>(pages: seq<Turned<E>>, limit: Ledger) {
    forall i :: 0 <= i < |pages| ==> |pages[i].page.events| <= TWO_TO_32 - limit
  }

  lemma {:induction false} BelowLimit<E>(job: Job<E>, pages: seq<Turned<E>>, n: nat)
    requires IsChain(job, pages) && PagesFit(pages, job.input.limit) && job.input.limit > 0 && n < |pages|
    ensures |EventsOf(pages, n)| < job.input.limit
  {
    if n > 0 {
      BelowLimit(job, pages, n - 1);
      assert Follow(job, pages, n);
    }
  }

  /** With a limit, the events returned are fewer than the limit and the last page together, the earlier ones being counted in
      32 bits; as long as no page can make that count wrap, they are simply fewer. */
  lemma FewerThanLimitAndPage<E>(job: Job<E>, pages: seq<Turned<E>>, outcome: Ending<E>)
    requires EndsAt(job, pages, outcome) && outcome.Fetched? && job.input.limit > 0
    ensures var before := |outcome.events| - |pages[|pages| - 1].page.events|;
            before % TWO_TO_32 < job.input.limit && (PagesFit(pages, job.input.limit) ==> before < job.input.limit)
  {
    var n := |pages| - 1;
    assert outcome.events == EventsOf(pages, n) + pages[n].page.events;
    if PagesFit(pages, job.input.limit) {
      BelowLimit(job, pages, n);
    }
    if n > 0 {
      GoesOnOnlyWhile(job, pages, n - 1);
    }
  }

  // ----- How often the endpoints are asked

  /** The turns of one endpoint. */
  function TurnsOf(log: seq<Visit>, endpoint: nat): nat {
    if log == [] then 0
    else TurnsOf(log[..|log| - 1], endpoint) + (if log[|log| - 1].endpoint == endpoint then 1 else 0)
  }

  lemma {:induction false} NoTurnsMore(log: seq<Visit>, turns: seq<Visit>, endpoint: nat)
    requires forall k :: 0 <= k < |turns| ==> turns[k].endpoint != endpoint
    ensures TurnsOf(log + turns, endpoint) == TurnsOf(log, endpoint)
  {
    if turns == [] {
      assert log + turns == log;
    } else {
      NoTurnsMore(log, turns[..|turns| - 1], endpoint);
      assert (log + turns)[..|log + turns| - 1] == log + turns[..|turns| - 1];
    }
  }

  lemma {:induction false} OneTurnMore(log: seq<Visit>, turns: seq<Visit>, endpoint: nat)
    requires forall j, k :: 0 <= j < k < |turns| ==> turns[j].endpoint != turns[k].endpoint
    ensures TurnsOf(log + turns, endpoint) <= TurnsOf(log, endpoint) + 1
  {
    if turns == [] {
      assert log + turns == log;
    } else {
      var init := turns[..|turns| - 1];
      assert (log + turns)[..|log + turns| - 1] == log + init;
      if turns[|turns| - 1].endpoint == endpoint {
        NoTurnsMore(log, init, endpoint);
      } else {
        OneTurnMore(log, init, endpoint);
      }
    }
  }

  lemma CallGivesOneTurn<R>(h: Endpoints, env: Env, w: World, fn: Fn<R>, endpoint: nat)
    ensures TurnsOf(Calling(h, env, w, fn).world.log, endpoint) <= TurnsOf(w.log, endpoint) + 1
  {
    var out := Calling(h, env, w, fn);
    CallVisitsInRotation(h, env, w, fn);
    TurnsAreDistinct(Turns(w, out), h.downUntil, Pick(h, Tick(env, w).now));
    OneTurnMore(w.log, Turns(w, out), endpoint);
    assert out.world.log == w.log + Turns(w, out);
  }

  /** An attempt adds at most so much to the size of the log. */
  ghost predicate Grows<T, R>(a: Attempt<T, R>, log: seq<Visit>, size: seq<Visit> -> nat, most: nat, inv: T -> bool) {
    size(a.world.log) <= size(log) + most && inv(a.state)
  }

  lemma {:induction false} DoGrows<T(!new), R>(p: Policy, env: Env, w: World, s: T, fn: (World, T) -> Attempt<T, R>, attempt: nat,
                                               backoff: int, size: seq<Visit> -> nat, most: nat, inv: T -> bool)
    requires 1 <= attempt <= p.maxAttempts && inv(s)
    requires forall w': World, s': T :: inv(s') ==> Grows(fn(w', s'), w'.log, size, most, inv)
    ensures var done := DoFrom(p, env, w, s, fn, attempt, backoff); size(done.world.log) <= size(w.log) + done.attempts * most
    decreases p.maxAttempts - attempt
  {
    assert Grows(fn(w.(step := w.step + 1), s), w.log, size, most, inv);
    var once := TryOnce(p, env, w, s, fn, attempt == p.maxAttempts, backoff);
    if once.Paused? {
      var next := NextBackoff(p, once.pause.failure, backoff);
      DoGrows(p, env, once.world, once.state, fn, attempt + 1, next, size, most, inv);
      OneMore(DoFrom(p, env, once.world, once.state, fn, attempt + 1, next).attempts, most);
    }
  }

  lemma OneMore(times: nat, n: nat)
    ensures (times + 1) * n == times * n + n
  {}

  /** A call gives each endpoint at most MaxAttempts turns. */
  lemma VisitsAreBounded<R>(policy: Policy, env: Env, w: World, s: Shared, fn: Fn<R>, endpoint: nat)
    ensures TurnsOf(CallOf(policy, env, w, s, fn).world.log, endpoint) <= TurnsOf(w.log, endpoint) + WithDefaults(policy).maxAttempts
  {
    var p, size, inv := WithDefaults(policy), (log: seq<Visit>) => TurnsOf(log, endpoint), (s': Shared) => true;
    forall w': World, s': Shared
      ensures Grows(AttemptOf(env, fn)(w', s'), w'.log, size, 1, inv)
    {
      CallGivesOneTurn(s'.health, env, Waiting(s'.limiter, env, w').world, fn, endpoint);
    }
    DoGrows(p, env, w, s, AttemptOf(env, fn), 1, p.baseBackoff, size, 1, inv);
    AttemptsAreBounded(policy, env, w, s, AttemptOf(env, fn));
  }

  /** All endpoints together have at most MaxAttempts turns for each of them. */
  lemma AllVisitsAreBounded<R>(policy: Policy, env: Env, w: World, s: Shared, fn: Fn<R>)
    ensures |CallOf(policy, env, w, s, fn).world.log| <= |w.log| + WithDefaults(policy).maxAttempts * |s.health.errors|
  {
    var p, n, size := WithDefaults(policy), |s.health.errors|, (log: seq<Visit>) => |log|;
    var inv := (s': Shared) => |s'.health.errors| == n;
    forall w': World, s': Shared | inv(s')
      ensures Grows(AttemptOf(env, fn)(w', s'), w'.log, size, n, inv)
    {
      CallVisitsInRotation(s'.health, env, Waiting(s'.limiter, env, w').world, fn);
    }
    DoGrows(p, env, w, s, AttemptOf(env, fn), 1, p.baseBackoff, size, n, inv);
    AttemptsAreBounded(policy, env, w, s, AttemptOf(env, fn));
    MoreTimes(CallOf(policy, env, w, s, fn).attempts, p.maxAttempts, n);
  }
}
