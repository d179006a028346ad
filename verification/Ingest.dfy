/** internal/module/ingest/service: one cycle of the ingest worker, and the cursor it moves. */
module IngestWorker {
  import opened Prelude
  import opened Text
  import opened Decimal
  import opened Environment
  import opened ResilientClients
  import opened EventStores

  // ----- Where a cycle starts

  datatype StartError = BadOffset | BadLedger

  /** strconv.ParseUint(s, 10, 32). */
  function ParseUint32(s: string): Option<Ledger> {
    if s == "" || !AllDigits(s) || NatValue(s) >= TWO_TO_32 then None else Some(NatValue(s))
  }

  const LATEST: string := "latest-"

  /** ParseStartLedger of config/config.go: blank, a ledger, or an offset from the latest. */
  function ParseStartLedger(raw: string, latest: Ledger): Result<Ledger, StartError> {
    var trimmed := TrimSpace(raw);
    var lower := ToLower(trimmed);
    if trimmed == "" then Ok(0)
    else if LATEST <= lower then
      match ParseUint32(lower[|LATEST|..])
      case None => Err(BadOffset)
      case Some(offset) => Ok(if latest <= offset then 1 else latest - offset)
    else
      match ParseUint32(trimmed)
      case None => Err(BadLedger)
      case Some(ledger) => Ok(ledger)
  }

  function ResolveColdStart(last: Ledger, latest: Ledger, retention: Ledger, startRaw: string): Result<Ledger, StartError> {
    if last > 0 then Ok(last)
    else if startRaw != "" then ParseStartLedger(startRaw, latest)
    else if latest <= retention then Ok(0)
    else Ok(latest - retention)
  }

  function ReorgFromLedger(last: Ledger, window: Ledger): Ledger {
    if window == 0 || last <= window then 0 else last - window
  }

  lemma {:induction false} DigitsAreNoSpace(s: string)
    requires AllDigits(s)
    ensures TrimSpace(s) == s && ToLower(s) == s
  {
    if s != "" {
      assert IsDigit(s[0]) && IsDigit(s[|s| - 1]);
    }
    assert forall i :: 0 <= i < |s| ==> IsDigit(s[i]) && LowerChar(s[i]) == s[i];
  }

  /** A ledger in decimal is that ledger, up to the largest of 32 bits; a larger number is an error. */
  lemma LedgerReadsBack(n: nat, latest: Ledger)
    ensures ParseStartLedger(NatString(n), latest) == if n < TWO_TO_32 then Ok(n) else Err(BadLedger)
  {
    var s := NatString(n);
    DigitsAreNoSpace(s);
    assert IsDigit(s[0]) && LATEST[0] == 'l';
  }

  /** An offset counts back from the latest ledger, and stops at ledger 1. */
  lemma OffsetReadsBack(k: nat, latest: Ledger)
    ensures ParseStartLedger(LATEST + NatString(k), latest) == if k < TWO_TO_32 then Ok(Max(1, latest - k)) else Err(BadOffset)
  {
    var digits := NatString(k);
    DigitsAreNoSpace(digits);
    NoSpaceAround(digits);
    LowerPrefix(digits);
    assert (LATEST + digits)[|LATEST|..] == digits;
  }

  lemma NoSpaceAround(digits: string)
    requires AllDigits(digits) && digits != ""
    ensures TrimSpace(LATEST + digits) == LATEST + digits
  {
    var s := LATEST + digits;
    assert s[0] == 'l' && s[|s| - 1] == digits[|digits| - 1] && IsDigit(s[|s| - 1]);
  }

  lemma LowerPrefix(rest: string)
    requires ToLower(rest) == rest
    ensures ToLower(LATEST + rest) == LATEST + rest
  {
    var s := LATEST + rest;
    forall i | 0 <= i < |s|
      ensures LowerChar(s[i]) == s[i]
    {
      if i >= |LATEST| {
        assert s[i] == rest[i - |LATEST|] == ToLower(rest)[i - |LATEST|];
      }
    }
  }

  /** Spaces around a start text do not matter, nor the case of "latest-", nor leading zeros; blank is ledger 0. */
  lemma StartTextIs(raw: string, digits: string, latest: Ledger)
    requires AllDigits(digits) && digits != ""
    ensures TrimSpace(raw) == "" ==> ParseStartLedger(raw, latest) == Ok(0)
    ensures TrimSpace(raw) == digits ==>
              ParseStartLedger(raw, latest) == if NatValue(digits) < 0x1_0000_0000 then Ok(NatValue(digits)) else Err(BadLedger)
    ensures ToLower(TrimSpace(raw)) == "latest-" + digits ==>
              ParseStartLedger(raw, latest) == if NatValue(digits) < 0x1_0000_0000 then Ok(Max(1, latest - NatValue(digits))) else Err(BadOffset)
  {
    assert ("latest-" + digits)[|LATEST|..] == digits && LATEST <= "latest-" + digits;
    if TrimSpace(raw) == digits {
      DigitsAreNoSpace(digits);
      assert IsDigit(digits[0]) && LATEST[0] == 'l';
    }
  }

  /** Any other start text is an error: a bad offset behind "latest-", or a bad ledger. */
  lemma OtherStartText(raw: string, rest: string, latest: Ledger)
    ensures ToLower(TrimSpace(raw)) == "latest-" + rest && !(rest != "" && AllDigits(rest)) ==> ParseStartLedger(raw, latest) == Err(BadOffset)
    ensures TrimSpace(raw) != "" && !AllDigits(TrimSpace(raw)) && !("latest-" <= ToLower(TrimSpace(raw))) ==>
              ParseStartLedger(raw, latest) == Err(BadLedger)
  {
    if ToLower(TrimSpace(raw)) == "latest-" + rest {
      assert ("latest-" + rest)[|LATEST|..] == rest && LATEST <= "latest-" + rest;
    }
  }

  // ----- The filter batches

  /** Slices of `size`, the last one what is left; no contract at all means one batch without a filter. */
  function BatchesOf(ids: seq<string>, size: nat): seq<seq<string>>
    requires size > 0
    decreases |ids|
  {
    if |ids| <= size then [ids] else [ids[..size]] + BatchesOf(ids[size..], size)
  }

  function Joined(batches: seq<seq<string>>): seq<string> {
    if batches == [] then [] else batches[0] + Joined(batches[1..])
  }

  /** Every contract is in one batch, in order, and all batches but the last are full. */
  lemma {:induction false} BatchesCover(ids: seq<string>, size: nat)
    requires size > 0
    ensures var batches := BatchesOf(ids, size);
            && Joined(batches) == ids && batches != []
            && (forall i :: 0 <= i < |batches| - 1 ==> |batches[i]| == size)
            && |batches[|batches| - 1]| <= size && (ids != [] ==> batches[|batches| - 1] != [])
    decreases |ids|
  {
    var batches := BatchesOf(ids, size);
    if |ids| <= size {
      assert Joined(batches[1..]) == [];
    } else {
      BatchesCover(ids[size..], size);
      assert batches[1..] == BatchesOf(ids[size..], size);
      assert ids == ids[..size] + ids[size..];
    }
  }

  method BuildFilterBatches(contractIDs: seq<string>, batchSize: int) returns (batches: seq<seq<string>>)
    ensures batches == BatchesOf(contractIDs, if batchSize <= 0 then 25 else batchSize)
  {
    var size := if batchSize <= 0 then 25 else batchSize;
    if |contractIDs| == 0 {
      return [[]];
    }
    batches := [];
    var i := 0;
    while i < |contractIDs|
      invariant 0 <= i <= |contractIDs|
      invariant BatchesOf(contractIDs, size) ==
                if i < |contractIDs| then batches + BatchesOf(contractIDs[i..], size) else batches
    {
      var end := Min(i + size, |contractIDs|);
      ghost var before, rest := batches, contractIDs[i..];
      if |rest| > size {
        assert rest[..size] == contractIDs[i..end] && rest[size..] == contractIDs[end..];
        assert before + ([rest[..size]] + BatchesOf(rest[size..], size)) == before + [rest[..size]] + BatchesOf(rest[size..], size);
      } else {
        assert rest == contractIDs[i..end];
      }
      batches := batches + [contractIDs[i..end]];
      i := end;
    }
  }

  // ----- The answers of the outside

  datatype Config = Config(retention: Ledger, startRaw: string, contractIDs: seq<string>, pageLimit: int, batchSize: int,
                           reorgWindow: Ledger, reorgInterval: int)

  datatype Events = Events(events: seq<Event>, next: Ledger)

  /** What a cycle meets: the cursor read, the head, the clock, the answer to each fetch by its number, the schemas, the landing of
      each batch insert by its number, and the cursor write. */
  datatype Answers = Answers(
    cursorRead: bool,
    latest: Result<Ledger, Failure>,
    now: int,
    fetch: (nat, FetchInput) -> Result<Events, Failure>,
    enrich: Event -> string,
    landings: nat -> Landing,
    cursorWritten: bool)

  ghost predicate AllLand(a: Answers) { forall i: nat :: a.landings(i).ok }

  function InputFor(cfg: Config, from: Ledger, to: Ledger, batch: seq<string>): FetchInput {
    FetchInput(from, to, cfg.pageLimit % TWO_TO_32, "", batch)
  }

  function InputsFor(cfg: Config, from: Ledger, to: Ledger, batches: seq<seq<string>>): seq<FetchInput> {
    seq(|batches|, i requires 0 <= i < |batches| => InputFor(cfg, from, to, batches[i]))
  }

  /** Fetch number first + i is of input i. */
  function Fetched(a: Answers, first: nat, inputs: seq<FetchInput>, i: nat): Result<Events, Failure>
    requires i < |inputs|
  {
    a.fetch(first + i, inputs[i])
  }

  /** The events of the first n fetches. */
  function Gathered(a: Answers, first: nat, inputs: seq<FetchInput>, n: nat): seq<Event>
    requires n <= |inputs|
  {
    if n == 0 then []
    else
      var fetched := Fetched(a, first, inputs, n - 1);
      Gathered(a, first, inputs, n - 1) + (if fetched.Ok? then fetched.value.events else [])
  }

  /** The furthest ledger of the first n fetches. */
  function Furthest(a: Answers, first: nat, inputs: seq<FetchInput>, n: nat, start: Ledger): (ledger: Ledger)
    requires n <= |inputs|
    ensures ledger >= start
  {
    if n == 0 then start
    else
      var fetched := Fetched(a, first, inputs, n - 1);
      var before := Furthest(a, first, inputs, n - 1, start);
      if fetched.Ok? && fetched.value.next > before then fetched.value.next else before
  }

  ghost predicate AllFetched(a: Answers, first: nat, inputs: seq<FetchInput>, n: nat)
    requires n <= |inputs|
  {
    forall i: nat :: i < n ==> Fetched(a, first, inputs, i).Ok?
  }

  lemma OneMoreFetched(a: Answers, first: nat, inputs: seq<FetchInput>, n: nat)
    requires n < |inputs| && AllFetched(a, first, inputs, n) && Fetched(a, first, inputs, n).Ok?
    ensures AllFetched(a, first, inputs, n + 1)
  {}

  datatype Stop = FetchFailed(error: Failure) | StoreFailed | ReadFailed | BadStart(start: StartError) | CursorFailed

  // ----- Fetching and persisting

  lemma EnrichedMore(x: Extractors, a: seq<Event>, b: seq<Event>, enrich: Event -> string)
    ensures CycleLog(x, a + b, enrich) == Both(CycleLog(x, a, enrich), CycleLog(x, b, enrich))
  {
    FullLogMore(x, Enriched(a, enrich), Enriched(b, enrich));
    assert Enriched(a + b, enrich) == Enriched(a, enrich) + Enriched(b, enrich);
  }

  /** More fetches only add to what is to be written. */
  lemma {:induction false} CutOfLater(x: Extractors, a: Answers, first: nat, inputs: seq<FetchInput>, n: nat, m: nat, cut: Log)
    requires n <= m <= |inputs| && IsCutOf(cut, CycleLog(x, Gathered(a, first, inputs, n), a.enrich))
    ensures IsCutOf(cut, CycleLog(x, Gathered(a, first, inputs, m), a.enrich))
  {
    if n < m {
      CutOfLater(x, a, first, inputs, n, m - 1, cut);
      CutOfNext(x, a, first, inputs, m - 1, cut);
    }
  }

  lemma CutOfNext(x: Extractors, a: Answers, first: nat, inputs: seq<FetchInput>, n: nat, cut: Log)
    requires n < |inputs| && IsCutOf(cut, CycleLog(x, Gathered(a, first, inputs, n), a.enrich))
    ensures IsCutOf(cut, CycleLog(x, Gathered(a, first, inputs, n + 1), a.enrich))
  {
    var fetched := Fetched(a, first, inputs, n);
    MoreEvents(x, Gathered(a, first, inputs, n), if fetched.Ok? then fetched.value.events else [], a.enrich, cut);
  }

  lemma MoreEvents(x: Extractors, events: seq<Event>, more: seq<Event>, enrich: Event -> string, cut: Log)
    requires IsCutOf(cut, CycleLog(x, events, enrich))
    ensures IsCutOf(cut, CycleLog(x, events + more, enrich))
  {
    EnrichedMore(x, events, more, enrich);
    CutOfMore(cut, CycleLog(x, events, enrich), CycleLog(x, more, enrich));
  }

  /** What batch i adds to what the batches before it have written. */
  lemma BatchWritten(x: Extractors, a: Answers, first: nat, inputs: seq<FetchInput>, i: nat, before: Log, more: Log)
    requires i < |inputs| && Fetched(a, first, inputs, i).Ok?
    requires before == CycleLog(x, Gathered(a, first, inputs, i), a.enrich)
    requires IsCutOf(more, CycleLog(x, Fetched(a, first, inputs, i).value.events, a.enrich))
    ensures IsCutOf(Both(before, more), CycleLog(x, Gathered(a, first, inputs, |inputs|), a.enrich))
    ensures more == CycleLog(x, Fetched(a, first, inputs, i).value.events, a.enrich) ==>
              Both(before, more) == CycleLog(x, Gathered(a, first, inputs, i + 1), a.enrich)
  {
    var events := Fetched(a, first, inputs, i).value.events;
    EnrichedMore(x, Gathered(a, first, inputs, i), events, a.enrich);
    BothIsCut(before, more, CycleLog(x, events, a.enrich));
    CutOfLater(x, a, first, inputs, i + 1, |inputs|, Both(before, more));
  }

  /** The events of fetch i, materialized and persisted after those before it. */
  method PersistFetched(w: Warehouse, x: Extractors, batchSize: int, a: Answers, first: nat, ghost inputs: seq<FetchInput>, ghost i: nat,
                        events: seq<Event>, call: nat, ghost initial: Stores, ghost before: Log)
    returns (ok: bool, next: nat, ghost written: Log)
    requires i < |inputs| && Fetched(a, first, inputs, i).Ok? && events == Fetched(a, first, inputs, i).value.events
    requires before == CycleLog(x, Gathered(a, first, inputs, i), a.enrich) && w.State() == Write(initial, before)
    modifies w
    ensures w.State() == Write(initial, written) && next >= call
    ensures IsCutOf(written, CycleLog(x, Gathered(a, first, inputs, |inputs|), a.enrich))
    ensures ok ==> written == CycleLog(x, Gathered(a, first, inputs, i + 1), a.enrich)
    ensures (forall i :: call <= i ==> a.landings(i).ok) ==> ok
  {
    ghost var more;
    ok, next, more := Persist(w, x, Enriched(events, a.enrich), batchSize, a.landings, call);
    WriteMore(initial, before, more);
    BatchWritten(x, a, first, inputs, i, before, more);
    written := Both(before, more);
  }

  /** Why the batch stopped the loop: its fetch, or a batch insert. */
  ghost predicate IsReason(stop: Stop, a: Answers, fetched: Result<Events, Failure>, call: nat) {
    match fetched
    case Err(e) => stop == FetchFailed(e)
    case Ok(_) => stop == StoreFailed && exists i :: call <= i && !a.landings(i).ok
  }

  /** What the first n fetches come to in rows. */
  function Wanted(x: Extractors, a: Answers, first: nat, inputs: seq<FetchInput>): nat -> Log {
    (n: nat) => CycleLog(x, Gathered(a, first, inputs, if n <= |inputs| then n else |inputs|), a.enrich)
  }

  ghost predicate IsWanted(want: nat -> Log, x: Extractors, a: Answers, first: nat, inputs: seq<FetchInput>, n: nat)
    requires n <= |inputs|
  {
    want(n) == CycleLog(x, Gathered(a, first, inputs, n), a.enrich)
  }

  lemma WantedIs(x: Extractors, a: Answers, first: nat, inputs: seq<FetchInput>)
    ensures forall n: nat :: n <= |inputs| ==> IsWanted(Wanted(x, a, first, inputs), x, a, first, inputs, n)
  {}

  /** Batch i: fetch, materialize, persist. */
  method FetchBatch(w: Warehouse, x: Extractors, batchSize: int, a: Answers, first: nat, inputs: seq<FetchInput>, i: nat, call: nat,
                    ghost initial: Stores, ghost before: Log, ghost want: nat -> Log)
    returns (stop: Option<Stop>, ledger: Ledger, next: nat, ghost written: Log)
    requires i < |inputs| && forall n: nat :: n <= |inputs| ==> IsWanted(want, x, a, first, inputs, n)
    requires before == want(i) && w.State() == Write(initial, before)
    modifies w
    ensures w.State() == Write(initial, written) && next >= call
    ensures IsCutOf(written, want(|inputs|))
    ensures stop.None? ==>
              && Fetched(a, first, inputs, i).Ok? && ledger == Fetched(a, first, inputs, i).value.next
              && written == want(i + 1)
    ensures stop.Some? ==> IsReason(stop.value, a, Fetched(a, first, inputs, i), call)
  {
    assert IsWanted(want, x, a, first, inputs, i) && IsWanted(want, x, a, first, inputs, i + 1);
    assert IsWanted(want, x, a, first, inputs, |inputs|);
    var fetched := a.fetch(first + i, inputs[i]);
    if fetched.Err? {
      CutOfLater(x, a, first, inputs, i, |inputs|, before);
      return Some(FetchFailed(fetched.error)), 0, call, before;
    }
    var ok;
    ok, next, written := PersistFetched(w, x, batchSize, a, first, inputs, i, fetched.value.events, call, initial, before);
    return if ok then None else Some(StoreFailed), fetched.value.next, next, written;
  }

  /** The loop over the filter batches, which a cycle and a rescan share: fetch, materialize, persist. `first` numbers its fetches
      and `call` its batch inserts. */
  method FetchAndPersist(w: Warehouse, x: Extractors, batchSize: int, a: Answers, inputs: seq<FetchInput>, start: Ledger,
                         first: nat, call: nat, ghost want: nat -> Log)
    returns (stop: Option<Stop>, furthest: Ledger, next: nat, ghost passed: nat, ghost written: Log)
    requires forall n: nat :: n <= |inputs| ==> IsWanted(want, x, a, first, inputs, n)
    modifies w
    ensures w.State() == Write(old(w.State()), written) && next >= call
    ensures IsCutOf(written, want(|inputs|))
    ensures passed <= |inputs| && AllFetched(a, first, inputs, passed)
    ensures stop.None? ==>
              passed == |inputs| && furthest == Furthest(a, first, inputs, passed, start) && written == want(|inputs|)
    ensures stop.Some? ==> passed < |inputs| && IsReason(stop.value, a, Fetched(a, first, inputs, passed), call)
  {
    ghost var initial := w.State();
    stop, furthest, next, passed, written := None, start, call, 0, NOTHING;
    NoEvents(x, a.enrich);
    assert IsWanted(want, x, a, first, inputs, 0);
    for i := 0 to |inputs|
      invariant stop.None? && next >= call && passed == i && AllFetched(a, first, inputs, i)
      invariant furthest == Furthest(a, first, inputs, i, start)
      invariant written == want(i) && w.State() == Write(initial, written)
    {
      var ledger;
      stop, ledger, next, written := FetchBatch(w, x, batchSize, a, first, inputs, i, next, initial, written, want);
      if stop.Some? {
        return;
      }
      OneMoreFetched(a, first, inputs, i);
      furthest := if ledger > furthest then ledger else furthest;
      passed := passed + 1;
    }
  }

  // ----- The cursor

  /** The ingest_state table: the last ledger of each network. */
  class CursorRepository {
    var rows: map<string, Ledger>

    function Last(network: string): Ledger
      reads this
    {
      if network in rows then rows[network] else 0
    }

    method Get(network: string) returns (last: Ledger)
      ensures last == Last(network)
    {
      last := if network in rows then rows[network] else 0;
    }

    /** INSERT ... ON CONFLICT DO UPDATE with GREATEST. */
    method Upsert(network: string, last: Ledger)
      modifies this
      ensures Last(network) == Max(old(Last(network)), last)
      ensures forall other :: other != network ==> Last(other) == old(Last(other))
    {
      rows := rows[network := if network in rows && rows[network] > last then rows[network] else last];
    }
  }

  /** The cursor a completed cycle writes. */
  function NextCursor(last: Ledger, latest: Ledger, furthest: Ledger): Ledger {
    if furthest <= last then latest else furthest
  }

  predicate RescanIsDue(cfg: Config, last: Ledger, start: Ledger, now: int, lastReorg: int) {
    var from := ReorgFromLedger(last, cfg.reorgWindow);
    cfg.reorgWindow != 0 && !(lastReorg > 0 && now - lastReorg < cfg.reorgInterval) && from != 0 && from < start
  }

  datatype Cycle = Abandoned(stop: Stop) | Reanchored | UpToDate | Completed(next: Ledger, caughtUp: bool)

  /** What a cycle sets out to do: from where to where, and the rescan before it. */
  datatype Plan = Plan(start: Ledger, latest: Ledger, inputs: seq<FetchInput>, rescan: Option<seq<FetchInput>>)

  function PlanOf(cfg: Config, last: Ledger, a: Answers, lastReorg: int): Result<Plan, Stop> {
    if !a.cursorRead then Err(ReadFailed)
    else if a.latest.Err? then Err(FetchFailed(a.latest.error))
    else
      match ResolveColdStart(last, a.latest.value, cfg.retention, cfg.startRaw)
      case Err(e) => Err(BadStart(e))
      case Ok(start) =>
        var batches := BatchesOf(cfg.contractIDs, 25);
        Ok(Plan(start, a.latest.value, InputsFor(cfg, start, a.latest.value, batches),
                RescanOf(cfg, last, start, a.now, lastReorg, batches)))
  }

  /** The fetches of the rescan, if one is due. */
  function RescanOf(cfg: Config, last: Ledger, start: Ledger, now: int, lastReorg: int, batches: seq<seq<string>>): Option<seq<FetchInput>> {
    if RescanIsDue(cfg, last, start, now, lastReorg)
    then Some(InputsFor(cfg, ReorgFromLedger(last, cfg.reorgWindow), start, batches))
    else None
  }

  /** The events of the rescan, if any. */
  function RescanEvents(a: Answers, plan: Plan): seq<Event> {
    if plan.rescan.None? then [] else Gathered(a, 0, plan.rescan.value, |plan.rescan.value|)
  }

  function FirstFetch(plan: Plan): nat { if plan.rescan.None? then 0 else |plan.rescan.value| }

  function CycleEvents(a: Answers, plan: Plan): seq<Event> { Gathered(a, FirstFetch(plan), plan.inputs, |plan.inputs|) }

  /** Everything a cycle may write. */
  function WholeLog(x: Extractors, a: Answers, plan: Plan): Log {
    CycleLog(x, RescanEvents(a, plan) + CycleEvents(a, plan), a.enrich)
  }

  ghost predicate AllAnswered(a: Answers, plan: Plan) {
    AllFetched(a, FirstFetch(plan), plan.inputs, |plan.inputs|) && IsRescanned(a, plan)
  }

  ghost predicate IsRescanned(a: Answers, plan: Plan) {
    plan.rescan.Some? ==> AllFetched(a, 0, plan.rescan.value, |plan.rescan.value|)
  }

  /** Some fetch, the first to fail, meets a switched endpoint. */
  ghost predicate MeetsReanchor(a: Answers, first: nat, inputs: seq<FetchInput>) {
    exists i: nat :: i < |inputs| && AllFetched(a, first, inputs, i) && Fetched(a, first, inputs, i) == Err(Reanchor)
  }

  function CursorOf(a: Answers, plan: Plan, last: Ledger): Ledger {
    NextCursor(last, plan.latest, Furthest(a, FirstFetch(plan), plan.inputs, |plan.inputs|, plan.start))
  }

  class IngestWorkerService {
    const network: string
    const x: Extractors
    const cursors: CursorRepository
    const warehouse: Warehouse
    var lastReorg: int

    constructor (network: string, x: Extractors, cursors: CursorRepository, warehouse: Warehouse)
      ensures this.network == network && this.x == x && this.cursors == cursors && this.warehouse == warehouse && lastReorg == 0
    {
      this.network, this.x, this.cursors, this.warehouse, lastReorg := network, x, cursors, warehouse, 0;
    }

    /** maybeRescanReorg: any error, the re-anchor error too, is returned; the time is noted only when a rescan is complete. */
    method MaybeRescanReorg(cfg: Config, a: Answers, last: Ledger, start: Ledger, batches: seq<seq<string>>, ghost p: Plan)
      returns (stop: Option<Stop>, first: nat, call: nat, ghost written: Log)
      requires p.rescan == RescanOf(cfg, last, start, a.now, lastReorg, batches)
      modifies this`lastReorg, warehouse
      ensures warehouse.State() == Write(old(warehouse.State()), written)
      ensures lastReorg == if p.rescan.Some? && stop.None? then a.now else old(lastReorg)
      ensures IsCutOf(written, CycleLog(x, RescanEvents(a, p), a.enrich))
      ensures stop.Some? ==> p.rescan.Some?
      ensures stop.None? ==> IsRescanned(a, p) && first == FirstFetch(p) && written == CycleLog(x, RescanEvents(a, p), a.enrich)
      ensures IsRescanned(a, p) && AllLand(a) ==> stop.None?
    {
      stop, first, call, written := None, 0, 0, NOTHING;
      NoEvents(x, a.enrich);
      if cfg.reorgWindow == 0 {
        return;
      }
      if lastReorg > 0 && a.now - lastReorg < cfg.reorgInterval {
        return;
      }
      var reorgFrom := ReorgFromLedger(last, cfg.reorgWindow);
      if reorgFrom == 0 || reorgFrom >= start {
        return;
      }
      var furthest, inputs := start, InputsFor(cfg, reorgFrom, start, batches);
      ghost var passed, want := 0, Wanted(x, a, 0, inputs);
      WantedIs(x, a, 0, inputs);
      stop, furthest, call, passed, written := FetchAndPersist(warehouse, x, cfg.batchSize, a, inputs, reorgFrom, 0, 0, want);
      if stop.None? {
        first := |batches|;
        lastReorg := a.now;
      }
    }

    /** The fetches of the cycle itself, after those of the rescan. */
    method FetchCycle(cfg: Config, a: Answers, start: Ledger, latest: Ledger, batches: seq<seq<string>>, first: nat, call: nat, ghost p: Plan)
      returns (stop: Option<Stop>, furthest: Ledger, ghost written: Log)
      requires p.start == start && p.inputs == InputsFor(cfg, start, latest, batches) && first == FirstFetch(p)
      modifies warehouse
      ensures warehouse.State() == Write(old(warehouse.State()), written)
      ensures IsCutOf(written, CycleLog(x, CycleEvents(a, p), a.enrich))
      ensures stop.None? ==>
                && AllFetched(a, first, p.inputs, |p.inputs|) && written == CycleLog(x, CycleEvents(a, p), a.enrich)
                && furthest == Furthest(a, first, p.inputs, |p.inputs|, start)
      ensures stop == Some(FetchFailed(Reanchor)) ==> MeetsReanchor(a, first, p.inputs)
      ensures AllFetched(a, first, p.inputs, |p.inputs|) && AllLand(a) ==> stop.None?
    {
      var inputs := InputsFor(cfg, start, latest, batches);
      ghost var passed, want := 0, Wanted(x, a, first, inputs);
      WantedIs(x, a, first, inputs);
      assert IsWanted(want, x, a, first, inputs, |inputs|);
      var next;
      stop, furthest, next, passed, written := FetchAndPersist(warehouse, x, cfg.batchSize, a, inputs, start, first, call, want);
    }

    /** The rescan, if due, and then the fetches of the cycle. */
    method Collect(cfg: Config, a: Answers, last: Ledger, start: Ledger, latest: Ledger, ghost p: Plan)
      returns (stop: Option<Stop>, rescanning: bool, furthest: Ledger, ghost written: Log)
      requires PlanOf(cfg, last, a, lastReorg) == Ok(p) && p.start == start && p.latest == latest
      modifies this`lastReorg, warehouse
      ensures warehouse.State() == Write(old(warehouse.State()), written)
      ensures IsCutOf(written, WholeLog(x, a, p))
      ensures stop.None? ==>
                && AllAnswered(a, p) && written == WholeLog(x, a, p)
                && furthest == Furthest(a, FirstFetch(p), p.inputs, |p.inputs|, start)
      ensures NotesRescan(x, a, p, old(lastReorg), lastReorg, written)
      ensures stop.None? && p.rescan.Some? ==> lastReorg == a.now
      ensures stop.Some? && rescanning ==> p.rescan.Some?
      ensures stop == Some(FetchFailed(Reanchor)) && !rescanning ==> MeetsReanchor(a, FirstFetch(p), p.inputs)
      ensures AllAnswered(a, p) && AllLand(a) ==> stop.None?
    {
      var batches := BuildFilterBatches(cfg.contractIDs, 25);
      var first, call;
      ghost var more, before;
      stop, first, call, before := MaybeRescanReorg(cfg, a, last, start, batches, p);
      RescanIsCut(x, a, p, before);
      if stop.Some? {
        return stop, true, start, before;
      }
      stop, furthest, more := FetchCycle(cfg, a, start, latest, batches, first, call, p);
      WriteMore(old(warehouse.State()), before, more);
      written := Both(before, more);
      BothParts(x, a, p, before, more);
      rescanning := false;
    }

    /** The part of a cycle that has something to do. */
    method Advance(cfg: Config, a: Answers, last: Ledger, start: Ledger, latest: Ledger, ghost p: Plan)
      returns (cycle: Cycle, ghost written: Log)
      requires PlanOf(cfg, last, a, lastReorg) == Ok(p) && p.start == start && p.latest == latest && last == cursors.Last(network)
      modifies this`lastReorg, cursors, warehouse
      ensures warehouse.State() == Write(old(warehouse.State()), written)
      ensures forall other :: other != network ==> cursors.Last(other) == old(cursors.Last(other))
      ensures cursors.Last(network) == if cycle.Completed? then Max(last, cycle.next) else last
      ensures IsOutcome(x, a, p, last, cycle, written) && NotesRescan(x, a, p, old(lastReorg), lastReorg, written)
      ensures cycle.Completed? && p.rescan.Some? ==> lastReorg == a.now
    {
      var stop, rescanning, furthest;
      stop, rescanning, furthest, written := Collect(cfg, a, last, start, latest, p);
      if stop.Some? {
        return if stop.value == FetchFailed(Reanchor) && !rescanning then Reanchored else Abandoned(stop.value), written;
      }
      var next := NextCursor(last, latest, furthest);
      if !a.cursorWritten {
        return Abandoned(CursorFailed), written;
      }
      cursors.Upsert(network, next);
      return Completed(next, next >= latest), written;
    }

    /** One cycle. The cursor is written only by a cycle that completes, after everything it fetched is in the tables, and the time
        of a rescan is noted only when all of that is there. */
    method IngestOnce(cfg: Config, a: Answers) returns (cycle: Cycle, ghost written: Log)
      modifies this`lastReorg, cursors, warehouse
      ensures warehouse.State() == Write(old(warehouse.State()), written)
      ensures forall other :: other != network ==> cursors.Last(other) == old(cursors.Last(other))
      ensures IsCycle(x, old(cursors.Last(network)), Record(cfg, a, old(lastReorg), lastReorg, cycle, written), cursors.Last(network))
    {
      written := NOTHING;
      if !a.cursorRead {
        return Abandoned(ReadFailed), written;
      }
      var last := cursors.Get(network);
      if a.latest.Err? {
        return Abandoned(FetchFailed(a.latest.error)), written;
      }
      var latest := a.latest.value;
      var resolved := ResolveColdStart(last, latest, cfg.retention, cfg.startRaw);
      if resolved.Err? {
        return Abandoned(BadStart(resolved.error)), written;
      }
      var start := resolved.value;
      if start >= latest {
        return UpToDate, written;
      }
      cycle, written := Advance(cfg, a, last, start, latest, PlanOf(cfg, last, a, lastReorg).value);
    }
  }

  /** How a cycle that has something to do may end, and what it has written by then. */
  ghost predicate IsOutcome(x: Extractors, a: Answers, p: Plan, last: Ledger, cycle: Cycle, written: Log) {
    && !cycle.UpToDate?
    && IsCutOf(written, WholeLog(x, a, p))
    && (cycle.Completed? ==>
          && AllAnswered(a, p) && written == WholeLog(x, a, p)
          && cycle.next == CursorOf(a, p, last) && (cycle.caughtUp <==> cycle.next >= p.latest))
    && (cycle.Reanchored? ==> MeetsReanchor(a, FirstFetch(p), p.inputs))
    && (cycle == Abandoned(FetchFailed(Reanchor)) ==> p.rescan.Some?)
    && (AllAnswered(a, p) && AllLand(a) && a.cursorWritten ==> cycle.Completed?)
  }

  /** What is written begins with the whole rescan; the rest is cut from the fetches of the cycle. */
  ghost predicate HoldsRescan(x: Extractors, a: Answers, p: Plan, written: Log) {
    && IsRescanned(a, p)
    && exists more :: IsCutOf(more, CycleLog(x, CycleEvents(a, p), a.enrich))
                      && written == Both(CycleLog(x, RescanEvents(a, p), a.enrich), more)
  }

  /** The time of a rescan is left as it was, or noted with the rescan complete in the tables. */
  ghost predicate NotesRescan(x: Extractors, a: Answers, p: Plan, lastReorg: int, noted: int, written: Log) {
    noted == lastReorg || (p.rescan.Some? && noted == a.now && HoldsRescan(x, a, p, written))
  }

  /** What a cycle met, what became of it, and what it wrote; the time of the last rescan, as it found and left it. */
  datatype Record = Record(cfg: Config, a: Answers, lastReorg: int, noted: int, cycle: Cycle, written: Log)

  /** The promise of a cycle that found one cursor and left another: only a completed one moves it, never downwards. */
  ghost predicate IsCycle(x: Extractors, before: Ledger, r: Record, after: Ledger) {
    && after == (if r.cycle.Completed? then Max(before, r.cycle.next) else before)
    && match PlanOf(r.cfg, before, r.a, r.lastReorg)
       case Err(stop) => r.cycle == Abandoned(stop) && r.written == NOTHING && r.noted == r.lastReorg
       case Ok(p) =>
         && (r.cycle.UpToDate? <==> p.start >= p.latest)
         && (if r.cycle.UpToDate? then r.written == NOTHING && r.noted == r.lastReorg
             else IsOutcome(x, r.a, p, before, r.cycle, r.written) && NotesRescan(x, r.a, p, r.lastReorg, r.noted, r.written))
         && (r.cycle.Completed? && p.rescan.Some? ==> r.noted == r.a.now)
  }

  lemma RescanIsCut(x: Extractors, a: Answers, p: Plan, rescanned: Log)
    requires IsCutOf(rescanned, CycleLog(x, RescanEvents(a, p), a.enrich))
    ensures IsCutOf(rescanned, WholeLog(x, a, p))
  {
    EnrichedMore(x, RescanEvents(a, p), CycleEvents(a, p), a.enrich);
    CutOfMore(rescanned, CycleLog(x, RescanEvents(a, p), a.enrich), CycleLog(x, CycleEvents(a, p), a.enrich));
  }

  lemma BothParts(x: Extractors, a: Answers, p: Plan, rescanned: Log, more: Log)
    requires rescanned == CycleLog(x, RescanEvents(a, p), a.enrich) && IsCutOf(more, CycleLog(x, CycleEvents(a, p), a.enrich))
    ensures IsCutOf(Both(rescanned, more), WholeLog(x, a, p))
    ensures more == CycleLog(x, CycleEvents(a, p), a.enrich) ==> Both(rescanned, more) == WholeLog(x, a, p)
    ensures IsRescanned(a, p) ==> HoldsRescan(x, a, p, Both(rescanned, more))
  {
    EnrichedMore(x, RescanEvents(a, p), CycleEvents(a, p), a.enrich);
    BothIsCut(rescanned, more, CycleLog(x, CycleEvents(a, p), a.enrich));
  }

  // ----- Progress

  /** The cursor a completed cycle writes is above the one it read. */
  lemma CursorAdvances(cfg: Config, last: Ledger, a: Answers, lastReorg: int)
    requires PlanOf(cfg, last, a, lastReorg).Ok?
    requires PlanOf(cfg, last, a, lastReorg).value.start < PlanOf(cfg, last, a, lastReorg).value.latest
    ensures CursorOf(a, PlanOf(cfg, last, a, lastReorg).value, last) > last
  {}

  /** A run of cycles of any outcome, under any configurations, with the cursor before, between and after them. */
  ghost predicate IsRun(x: Extractors, run: seq<Record>, cursors: seq<Ledger>) {
    |cursors| == |run| + 1 && forall i: nat :: i < |run| ==> IsCycle(x, cursors[i], run[i], cursors[i + 1])
  }

  function Completions(run: seq<Record>, n: nat): nat
    requires n <= |run|
  {
    if n == 0 then 0 else Completions(run, n - 1) + (if run[n - 1].cycle.Completed? then 1 else 0)
  }

  predicate MovesUp(before: Ledger, r: Record, after: Ledger) { if r.cycle.Completed? then after > before else after == before }

  /** A cycle moves the cursor strictly up if it completes, and not at all if it does not. */
  lemma CycleMovesUp(x: Extractors, before: Ledger, r: Record, after: Ledger)
    requires IsCycle(x, before, r, after)
    ensures MovesUp(before, r, after)
  {
    if r.cycle.Completed? {
      CursorAdvances(r.cfg, before, r.a, r.lastReorg);
    }
  }

  lemma {:induction false} Rises(run: seq<Record>, cursors: seq<Ledger>, i: nat, j: nat)
    requires |cursors| == |run| + 1 && i <= j <= |run|
    requires forall k: nat :: k < |run| ==> MovesUp(cursors[k], run[k], cursors[k + 1])
    ensures cursors[j] - cursors[i] >= Completions(run, j) - Completions(run, i) >= 0
    decreases j
  {
    if i < j {
      Rises(run, cursors, i, j - 1);
      assert MovesUp(cursors[j - 1], run[j - 1], cursors[j]);
    }
  }

  /** The cursor never falls over a run, and has risen by at least one for every completed cycle in between. */
  lemma {:induction false} CursorNeverFalls(x: Extractors, run: seq<Record>, cursors: seq<Ledger>, i: nat, j: nat)
    requires IsRun(x, run, cursors) && i <= j <= |run|
    ensures cursors[j] - cursors[i] >= Completions(run, j) - Completions(run, i) >= 0
  {
    forall k: nat | k < |run|
      ensures MovesUp(cursors[k], run[k], cursors[k + 1])
    {
      assert IsCycle(x, cursors[k], run[k], cursors[k + 1]);
      CycleMovesUp(x, cursors[k], run[k], cursors[k + 1]);
    }
    Rises(run, cursors, i, j);
  }

  /** A cycle at this cursor has nothing to do. */
  predicate AtHead(cfg: Config, last: Ledger, head: Ledger) {
    var start := ResolveColdStart(last, head, cfg.retention, cfg.startRaw);
    start.Ok? && start.value >= head
  }

  /** A head is reached by as many completed cycles as it is ahead of the cursor, whatever failed, re-anchored or idle cycles lie
      between them; a cycle that then sees it has nothing to do, under any configuration. */
  lemma HeadIsReached(x: Extractors, run: seq<Record>, cursors: seq<Ledger>, head: Ledger, cfg: Config)
    requires IsRun(x, run, cursors) && head > 0 && Completions(run, |run|) >= head - cursors[0]
    ensures cursors[|run|] >= head && AtHead(cfg, cursors[|run|], head)
  {
    CursorNeverFalls(x, run, cursors, 0, |run|);
  }

  /** And no more cycles than that complete while the head stays where it is. */
  lemma {:induction false} CompletionsAreBounded(x: Extractors, run: seq<Record>, cursors: seq<Ledger>, head: Ledger, n: nat)
    requires IsRun(x, run, cursors) && n <= |run| && cursors[0] <= head
    requires forall i :: 0 <= i < |run| ==> run[i].a.latest == Ok(head)
    ensures Completions(run, n) <= head - cursors[0]
  {
    if n > 0 {
      CompletionsAreBounded(x, run, cursors, head, n - 1);
      if run[n - 1].cycle.Completed? {
        assert IsCycle(x, cursors[n - 1], run[n - 1], cursors[n]);
        BelowHead(x, cursors[n - 1], run[n - 1], cursors[n], head);
        CursorNeverFalls(x, run, cursors, 0, n - 1);
      }
    }
  }

  lemma BelowHead(x: Extractors, before: Ledger, r: Record, after: Ledger, head: Ledger)
    requires IsCycle(x, before, r, after) && r.cycle.Completed? && r.a.latest == Ok(head)
    ensures before < head
  {}

  /** The first cycle of an unconfigured start reads exactly the ledgers below the head that are no older than the retention, and
      rescans nothing. */
  lemma FirstCycleReadsRetention(cfg: Config, a: Answers, lastReorg: int, ledger: int)
    requires a.cursorRead && a.latest.Ok? && cfg.startRaw == ""
    ensures var plan := PlanOf(cfg, 0, a, lastReorg);
            && plan.Ok? && plan.value.rescan.None?
            && (plan.value.start <= ledger < plan.value.latest
                <==> 0 <= ledger < a.latest.value && a.latest.value - ledger <= cfg.retention)
  {}

  /** A completed cycle leaves no gap and no overlap: under whatever configuration, the next one starts at the cursor it wrote, and
      its rescan, if any, ends there and begins below it, by no more than the window and not below the first ledger. */
  lemma NextCycleResumes(x: Extractors, before: Ledger, r: Record, after: Ledger, cfg: Config, a: Answers, lastReorg: int)
    requires IsCycle(x, before, r, after) && r.cycle.Completed?
    requires a.cursorRead && a.latest.Ok?
    ensures var plan := PlanOf(cfg, after, a, lastReorg);
            && plan.Ok? && plan.value.start == after
            && (forall i :: 0 <= i < |plan.value.inputs| ==>
                  plan.value.inputs[i].startLedger == after && plan.value.inputs[i].endLedger == a.latest.value)
            && (plan.value.rescan.Some? ==>
                  forall i :: 0 <= i < |plan.value.rescan.value| ==>
                    var input := plan.value.rescan.value[i];
                    input.endLedger == after && 1 <= input.startLedger < after <= input.startLedger + cfg.reorgWindow)
  {
    CycleMovesUp(x, before, r, after);
  }

  // ----- What a plan asks for, and a completed cycle has got

  /** The contracts that the fetches ask for, in order. */
  function AskedFor(inputs: seq<FetchInput>): seq<string> {
    if inputs == [] then [] else inputs[0].contractIDs + AskedFor(inputs[1..])
  }

  /** The fetches ask, from the first page on, for these ledgers of all configured contracts, in order and at most 25 at a time, or
      once for all contracts if none is configured. */
  ghost predicate AsksForAll(inputs: seq<FetchInput>, cfg: Config, from: Ledger, upTo: Ledger) {
    && AskedFor(inputs) == cfg.contractIDs
    && (if cfg.contractIDs == [] then |inputs| == 1
        else forall i :: 0 <= i < |inputs| ==> 1 <= |inputs[i].contractIDs| <= 25)
    && forall i :: 0 <= i < |inputs| ==>
         && inputs[i].startLedger == from && inputs[i].endLedger == upTo
         && inputs[i].limit == cfg.pageLimit % 0x1_0000_0000 && inputs[i].cursor == ""
  }

  lemma {:induction false} AskedForIs(cfg: Config, from: Ledger, upTo: Ledger, batches: seq<seq<string>>)
    ensures AskedFor(InputsFor(cfg, from, upTo, batches)) == Joined(batches)
  {
    if batches != [] {
      AskedForIs(cfg, from, upTo, batches[1..]);
      assert InputsFor(cfg, from, upTo, batches)[1..] == InputsFor(cfg, from, upTo, batches[1..]);
    }
  }

  lemma BatchesAreSmall(ids: seq<string>)
    ensures if ids == [] then BatchesOf(ids, 25) == [[]] else forall i :: 0 <= i < |BatchesOf(ids, 25)| ==> 1 <= |BatchesOf(ids, 25)[i]| <= 25
  {
    BatchesCover(ids, 25);
  }

  lemma InputsAskForAll(cfg: Config, from: Ledger, upTo: Ledger)
    ensures AsksForAll(InputsFor(cfg, from, upTo, BatchesOf(cfg.contractIDs, 25)), cfg, from, upTo)
  {
    BatchesAreSmall(cfg.contractIDs);
    BatchesCover(cfg.contractIDs, 25);
    AskedForIs(cfg, from, upTo, BatchesOf(cfg.contractIDs, 25));
  }

  /** Every plan asks for all configured contracts from its start to the head: its start is the cursor, else the configured one, else
      as far back as is retained. A rescan is planned if it is configured, its interval is over and its window begins above ledger 0,
      and asks for all contracts from there to the start. */
  lemma PlanAsksForAll(cfg: Config, last: Ledger, a: Answers, lastReorg: int)
    requires PlanOf(cfg, last, a, lastReorg).Ok?
    ensures var p := PlanOf(cfg, last, a, lastReorg).value;
            && a.latest == Ok(p.latest) && AsksForAll(p.inputs, cfg, p.start, p.latest)
            && (last > 0 ==> p.start == last)
            && (last == 0 && cfg.startRaw == "" ==> p.start == Max(0, p.latest - cfg.retention))
            && (last == 0 && cfg.startRaw != "" ==> ParseStartLedger(cfg.startRaw, p.latest) == Ok(p.start))
            && (p.rescan.Some? <==>
                  && cfg.reorgWindow > 0 && 0 < last - cfg.reorgWindow < p.start
                  && (lastReorg <= 0 || a.now - lastReorg >= cfg.reorgInterval))
            && (p.rescan.Some? ==> AsksForAll(p.rescan.value, cfg, last - cfg.reorgWindow, p.start))
  {
    var p := PlanOf(cfg, last, a, lastReorg).value;
    InputsAskForAll(cfg, p.start, p.latest);
    if p.rescan.Some? {
      InputsAskForAll(cfg, last - cfg.reorgWindow, p.start);
    }
  }

  /** Each of the fetches, numbered from `first`, was answered, and all rows of its events are written. */
  ghost predicate AreFetched(a: Answers, x: Extractors, first: nat, inputs: seq<FetchInput>, written: Log) {
    forall i: nat :: i < |inputs| ==>
      a.fetch(first + i, inputs[i]).Ok? && AllStored(written, x, a.fetch(first + i, inputs[i]).value.events, a.enrich)
  }

  /** The furthest ledger that the fetches told, or the start. */
  ghost predicate IsFurthest(a: Answers, first: nat, inputs: seq<FetchInput>, n: nat, start: Ledger, furthest: Ledger)
    requires n <= |inputs|
  {
    && furthest >= start
    && (forall i: nat :: i < n && a.fetch(first + i, inputs[i]).Ok? ==> a.fetch(first + i, inputs[i]).value.next <= furthest)
    && (furthest == start || exists i: nat :: i < n && a.fetch(first + i, inputs[i]).Ok? && a.fetch(first + i, inputs[i]).value.next == furthest)
  }

  lemma {:induction false} FurthestIs(a: Answers, first: nat, inputs: seq<FetchInput>, n: nat, start: Ledger)
    requires n <= |inputs|
    ensures IsFurthest(a, first, inputs, n, start, Furthest(a, first, inputs, n, start))
  {
    if n > 0 {
      FurthestIs(a, first, inputs, n - 1, start);
    }
  }

  lemma {:induction false} GatheredAll(a: Answers, first: nat, inputs: seq<FetchInput>, n: nat, i: nat, e: Event)
    requires i < n <= |inputs| && Fetched(a, first, inputs, i).Ok? && e in Fetched(a, first, inputs, i).value.events
    ensures e in Gathered(a, first, inputs, n)
  {
    if i < n - 1 {
      GatheredAll(a, first, inputs, n - 1, i, e);
    }
  }

  lemma FetchesAreStored(a: Answers, x: Extractors, first: nat, inputs: seq<FetchInput>, written: Log)
    requires AllFetched(a, first, inputs, |inputs|) && AllStored(written, x, Gathered(a, first, inputs, |inputs|), a.enrich)
    ensures AreFetched(a, x, first, inputs, written)
  {
    forall i: nat | i < |inputs|
      ensures a.fetch(first + i, inputs[i]).Ok? && AllStored(written, x, a.fetch(first + i, inputs[i]).value.events, a.enrich)
    {
      assert Fetched(a, first, inputs, i).Ok?;
      forall e | e in a.fetch(first + i, inputs[i]).value.events
        ensures IsStored(written, x, e, a.enrich(e))
      {
        GatheredAll(a, first, inputs, |inputs|, i, e);
      }
    }
  }

  /** A completed cycle has fetched every configured contract from the cursor (or the start, if there is none) to the head, and all
      rows of what it fetched are written, as are those of its rescan; the cursor it writes is the furthest ledger it was told, or the
      head if that is no further than the cursor it found. */
  lemma CompletedCycleIsWhole(x: Extractors, before: Ledger, r: Record, after: Ledger) returns (p: Plan, first: nat, furthest: Ledger)
    requires IsCycle(x, before, r, after) && r.cycle.Completed?
    ensures r.a.latest == Ok(p.latest) && p.start < p.latest && (before > 0 ==> p.start == before)
    ensures AsksForAll(p.inputs, r.cfg, p.start, p.latest) && AreFetched(r.a, x, first, p.inputs, r.written)
    ensures p.rescan.Some? ==>
              && before > r.cfg.reorgWindow && AsksForAll(p.rescan.value, r.cfg, before - r.cfg.reorgWindow, p.start)
              && AreFetched(r.a, x, 0, p.rescan.value, r.written) && first == |p.rescan.value|
    ensures p.rescan.None? ==> first == 0
    ensures IsFurthest(r.a, first, p.inputs, |p.inputs|, p.start, furthest)
    ensures after == (if furthest <= before then p.latest else furthest)
  {
    p := PlanOf(r.cfg, before, r.a, r.lastReorg).value;
    first := FirstFetch(p);
    furthest := Furthest(r.a, first, p.inputs, |p.inputs|, p.start);
    PlanAsksForAll(r.cfg, before, r.a, r.lastReorg);
    FurthestIs(r.a, first, p.inputs, |p.inputs|, p.start);
    CursorAdvances(r.cfg, before, r.a, r.lastReorg);
    WholeIsStored(x, r.a, p);
    FetchesAreStored(r.a, x, first, p.inputs, r.written);
    if p.rescan.Some? {
      FetchesAreStored(r.a, x, 0, p.rescan.value, r.written);
    }
  }

  lemma WholeIsStored(x: Extractors, a: Answers, p: Plan)
    ensures AllStored(WholeLog(x, a, p), x, CycleEvents(a, p), a.enrich) && AllStored(WholeLog(x, a, p), x, RescanEvents(a, p), a.enrich)
  {
    EventsAreStored(x, RescanEvents(a, p) + CycleEvents(a, p), a.enrich);
  }

  // ----- The poll interval

  /** NextAdaptivePoll on durations that cannot overflow; `/` is Go's on the positive values that reach it. */
  function NextAdaptivePoll(current: int, min: int, max: int, caughtUp: bool): int {
    var low := if min <= 0 then SECOND else min;
    var high := if max <= 0 then current else max;
    var now := if current <= 0 then low else current;
    if caughtUp then (if now + now / 2 > high then high else now + now / 2)
    else if now / 2 < low then low
    else now / 2
  }

  /** From wherever it is, the interval grows by half up to its upper bound while there is nothing to do, and halves down to its
      lower bound while there is: it passes neither bound, never moves away from one, and stays between them once there. */
  lemma PollStaysInBounds(current: int, min: int, max: int, caughtUp: bool)
    ensures var low, high := if min <= 0 then SECOND else min, if max <= 0 then current else max;
            var now, next := if current <= 0 then low else current, NextAdaptivePoll(current, min, max, caughtUp);
            && (if caughtUp then Min(now, high) <= next <= high && 2 * next <= 3 * now && (next == high || 2 * next >= 3 * now - 1)
                else low <= next <= Max(now, low) && 2 * next >= now - 1 && (next == low || 2 * next <= now))
            && (low <= now <= high ==> low <= next <= high)
  {}
}
