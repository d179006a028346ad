/** Failed cycles of the ingest worker and the cycle that completes after them: what the tables hold in the end. */
module IngestRerun {
  import opened Prelude
  import opened ResilientClients
  import opened EventStores
  import opened IngestWorker

  // ----- Attempts at the same work

  type Truth = FetchInput -> seq<Event>

  /** Every fetch that is answered brings the events there are. */
  ghost predicate Brings(a: Answers, truth: Truth) {
    forall k: nat, input: FetchInput :: a.fetch(k, input).Ok? ==> a.fetch(k, input).value.events == truth(input)
  }

  function Brought(truth: Truth, inputs: seq<FetchInput>, n: nat): seq<Event>
    requires n <= |inputs|
  {
    if n == 0 then [] else Brought(truth, inputs, n - 1) + truth(inputs[n - 1])
  }

  lemma {:induction false} GatheredIs(a: Answers, first: nat, inputs: seq<FetchInput>, n: nat, truth: Truth)
    requires n <= |inputs| && Brings(a, truth)
    ensures IsPart(Gathered(a, first, inputs, n), Brought(truth, inputs, n))
    ensures AllFetched(a, first, inputs, n) ==> Gathered(a, first, inputs, n) == Brought(truth, inputs, n)
  {
    if n > 0 {
      GatheredIs(a, first, inputs, n - 1, truth);
      assert IngestWorker.Fetched(a, first, inputs, n - 1) == a.fetch(first + (n - 1), inputs[n - 1]);
    }
  }

  /** The settings that decide what is fetched; the chunk size is not among them. */
  predicate SameSettings(a: Config, b: Config) { a.(batchSize := 0) == b.(batchSize := 0) }

  /** An attempt under these settings, which finds this head if any and these events. */
  ghost predicate IsAttempt(r: Record, cfg: Config, head: Ledger, truth: Truth) {
    SameSettings(r.cfg, cfg) && Brings(r.a, truth) && (r.a.latest.Ok? ==> r.a.latest.value == head)
  }

  /** The next attempt: the clock has not gone back, and the time of the last rescan is still known, or lost in a restart. */
  predicate IsNext(r: Record, next: Record) { next.a.now >= r.a.now && (next.lastReorg == r.noted || next.lastReorg == 0) }

  /** A run in which only the last cycle completes, all of them being attempts at the same work. */
  ghost predicate IsRerun(x: Extractors, run: seq<Record>, cursors: seq<Ledger>, head: Ledger, truth: Truth) {
    && run != [] && IsRun(x, run, cursors)
    && (forall i: nat :: i < |run| ==> IsAttempt(run[i], run[0].cfg, head, truth))
    && (forall i: nat :: i < |run| ==> (run[i].cycle.Completed? <==> i == |run| - 1))
    && (forall i: nat :: i < |run| - 1 ==> IsNext(run[i], run[i + 1]))
  }

  function PlanAt(r: Record, last: Ledger): Result<Plan, Stop> { PlanOf(r.cfg, last, r.a, r.lastReorg) }

  predicate Rescans(r: Record, last: Ledger) { PlanAt(r, last).Ok? && PlanAt(r, last).value.rescan.Some? }

  lemma {:induction false} SameCursor(x: Extractors, run: seq<Record>, cursors: seq<Ledger>, head: Ledger, truth: Truth, i: nat)
    requires IsRerun(x, run, cursors, head, truth) && i < |run|
    ensures cursors[i] == cursors[0] && IsCycle(x, cursors[0], run[i], cursors[i + 1])
  {
    if i > 0 {
      SameCursor(x, run, cursors, head, truth, i - 1);
      assert !run[i - 1].cycle.Completed?;
    }
  }

  /** All attempts that get as far as a plan have the same fetches before them, and the same rescan if one is due. */
  lemma PlansAgree(r: Record, q: Record, last: Ledger, cfg: Config, head: Ledger, truth: Truth)
    requires IsAttempt(r, cfg, head, truth) && IsAttempt(q, cfg, head, truth) && PlanAt(r, last).Ok? && PlanAt(q, last).Ok?
    ensures var p, p' := PlanAt(r, last).value, PlanAt(q, last).value;
            && p.start == p'.start && p.latest == p'.latest && p.inputs == p'.inputs
            && (p.rescan.Some? && p'.rescan.Some? ==> p.rescan == p'.rescan)
            && (p.rescan.Some? && TimeIsUp(q) ==> p'.rescan.Some?)
            && (p.rescan.Some? ==> TimeIsUp(r))
  {
    var p, p' := PlanAt(r, last).value, PlanAt(q, last).value;
    if p.rescan.Some? && p'.rescan.Some? {
      assert p.rescan.value == p'.rescan.value;
    }
  }

  /** The interval since the last rescan is over. */
  predicate TimeIsUp(r: Record) { !(r.lastReorg > 0 && r.a.now - r.lastReorg < r.cfg.reorgInterval) }

  /** A rescan that is due and not noted stays due. */
  lemma {:induction false} StaysDue(x: Extractors, run: seq<Record>, cursors: seq<Ledger>, head: Ledger, truth: Truth, j: nat, m: nat)
    requires IsRerun(x, run, cursors, head, truth) && j <= m < |run|
    requires TimeIsUp(run[j]) && run[j].noted == run[j].lastReorg
    requires forall k: nat :: j < k < m ==> !Rescans(run[k], cursors[0])
    ensures TimeIsUp(run[m])
  {
    if j < m {
      StaysDue(x, run, cursors, head, truth, j, m - 1);
      SameCursor(x, run, cursors, head, truth, m - 1);
      NotedOnlyByRescan(x, cursors[0], run[m - 1], cursors[m]);
      assert IsNext(run[m - 1], run[m - 1 + 1]);
      assert IsAttempt(run[m - 1], run[0].cfg, head, truth) && IsAttempt(run[m], run[0].cfg, head, truth);
    }
  }

  lemma NotedOnlyByRescan(x: Extractors, before: Ledger, r: Record, after: Ledger)
    requires IsCycle(x, before, r, after)
    ensures r.noted != r.lastReorg ==> Rescans(r, before)
  {}

  // ----- What an attempt writes is covered

  function CycleTruth(truth: Truth, p: Plan): seq<Event> { Brought(truth, p.inputs, |p.inputs|) }

  function RescanTruth(truth: Truth, p: Plan): seq<Event> {
    if p.rescan.None? then [] else Brought(truth, p.rescan.value, |p.rescan.value|)
  }

  lemma EventsArePart(a: Answers, p: Plan, truth: Truth)
    requires Brings(a, truth)
    ensures IsPart(CycleEvents(a, p), CycleTruth(truth, p)) && IsPart(RescanEvents(a, p), RescanTruth(truth, p))
    ensures AllFetched(a, FirstFetch(p), p.inputs, |p.inputs|) ==> CycleEvents(a, p) == CycleTruth(truth, p)
    ensures IsRescanned(a, p) ==> RescanEvents(a, p) == RescanTruth(truth, p)
  {
    GatheredIs(a, FirstFetch(p), p.inputs, |p.inputs|, truth);
    if p.rescan.Some? {
      GatheredIs(a, 0, p.rescan.value, |p.rescan.value|, truth);
    }
  }

  /** Whatever an attempt has written, a write that covers its fetches, and its rescan if it had one, writes again. */
  lemma AttemptIsCovered(x: Extractors, before: Ledger, r: Record, after: Ledger, truth: Truth, full: Log)
    requires IsCycle(x, before, r, after) && Brings(r.a, truth)
    requires PlanAt(r, before).Ok? ==>
               && CoversEvents(x, full, CycleTruth(truth, PlanAt(r, before).value))
               && CoversEvents(x, full, RescanTruth(truth, PlanAt(r, before).value))
    ensures CoversLog(full, r.written)
  {
    if PlanAt(r, before).Ok? && !r.cycle.UpToDate? {
      var p := PlanAt(r, before).value;
      EventsArePart(r.a, p, truth);
      WholeIsCovered(x, r.a, p, truth, full);
      CoversCut(full, WholeLog(x, r.a, p), r.written);
    }
  }

  lemma WholeIsCovered(x: Extractors, a: Answers, p: Plan, truth: Truth, full: Log)
    requires IsPart(CycleEvents(a, p), CycleTruth(truth, p)) && IsPart(RescanEvents(a, p), RescanTruth(truth, p))
    requires CoversEvents(x, full, CycleTruth(truth, p)) && CoversEvents(x, full, RescanTruth(truth, p))
    ensures CoversLog(full, WholeLog(x, a, p))
  {
    var rescan, cycle := CycleLog(x, RescanEvents(a, p), a.enrich), CycleLog(x, CycleEvents(a, p), a.enrich);
    EnrichedMore(x, RescanEvents(a, p), CycleEvents(a, p), a.enrich);
    PartIsCovered(x, RescanEvents(a, p), a.enrich, RescanTruth(truth, p), a.enrich);
    PartIsCovered(x, CycleEvents(a, p), a.enrich, CycleTruth(truth, p), a.enrich);
    CoversTransitively(full, CycleLog(x, RescanTruth(truth, p), a.enrich), rescan);
    CoversTransitively(full, CycleLog(x, CycleTruth(truth, p), a.enrich), cycle);
    CoversBoth(rescan, cycle, full);
  }

  // ----- The whole run

  /** The tables after the first n cycles. */
  function WriteRun(s: Stores, run: seq<Record>, n: nat): Stores
    requires n <= |run|
  {
    if n == 0 then s else Write(WriteRun(s, run, n - 1), run[n - 1].written)
  }

  lemma {:induction false} AbsorbsRun(s: Stores, run: seq<Record>, i: nat, n: nat, full: Log)
    requires i <= n <= |run| && forall k: nat :: i <= k < n ==> CoversLog(full, run[k].written)
    ensures Write(WriteRun(s, run, n), full) == Write(WriteRun(s, run, i), full)
  {
    if i < n {
      AbsorbsRun(s, run, i, n - 1, full);
      AbsorbsLog(WriteRun(s, run, n - 1), run[n - 1].written, full);
    }
  }

  /** The last of the first n cycles that had a rescan before it. */
  function LastRescan(run: seq<Record>, last: Ledger, n: nat): (j: Option<nat>)
    requires n <= |run|
    ensures j.Some? ==> j.value < n && Rescans(run[j.value], last) && forall k: nat :: j.value < k < n ==> !Rescans(run[k], last)
    ensures j.None? ==> forall k: nat :: k < n ==> !Rescans(run[k], last)
  {
    if n == 0 then None else if Rescans(run[n - 1], last) then Some(n - 1) else LastRescan(run, last, n - 1)
  }

  /** One undisturbed rescan, if j names a cycle that had one, and one undisturbed cycle. */
  function OneCycle(x: Extractors, run: seq<Record>, last: Ledger, truth: Truth, j: Option<nat>): Log
    requires run != [] && PlanAt(run[|run| - 1], last).Ok?
    requires j.Some? ==> j.value < |run| && PlanAt(run[j.value], last).Ok?
  {
    var final := run[|run| - 1];
    var cycle := CycleLog(x, CycleTruth(truth, PlanAt(final, last).value), final.a.enrich);
    if j.None? then cycle
    else Both(CycleLog(x, RescanTruth(truth, PlanAt(run[j.value], last).value), run[j.value].a.enrich), cycle)
  }

  /** What is known of a cycle of the run that got as far as a plan: it had something to do, and the plan agrees with the last one. */
  lemma AgreesWithLast(x: Extractors, run: seq<Record>, cursors: seq<Ledger>, head: Ledger, truth: Truth, i: nat)
    requires IsRerun(x, run, cursors, head, truth) && i < |run|
    ensures var final := PlanAt(run[|run| - 1], cursors[0]);
            && final.Ok?
            && (PlanAt(run[i], cursors[0]).Ok? ==>
                  var p := PlanAt(run[i], cursors[0]).value;
                  && p.inputs == final.value.inputs && !run[i].cycle.UpToDate?
                  && (p.rescan.Some? && TimeIsUp(run[|run| - 1]) ==> final.value.rescan.Some?) && (p.rescan.Some? ==> TimeIsUp(run[i])))
  {
    var n := |run| - 1;
    SameCursor(x, run, cursors, head, truth, n);
    SameCursor(x, run, cursors, head, truth, i);
    assert run[n].cycle.Completed?;
    if PlanAt(run[i], cursors[0]).Ok? {
      PlansAgree(run[i], run[n], cursors[0], run[0].cfg, head, truth);
    }
  }

  lemma RescansAgree(x: Extractors, run: seq<Record>, cursors: seq<Ledger>, head: Ledger, truth: Truth, i: nat, j: nat)
    requires IsRerun(x, run, cursors, head, truth) && i < |run| && j < |run| && Rescans(run[i], cursors[0]) && Rescans(run[j], cursors[0])
    ensures RescanTruth(truth, PlanAt(run[i], cursors[0]).value) == RescanTruth(truth, PlanAt(run[j], cursors[0]).value)
  {
    PlansAgree(run[i], run[j], cursors[0], run[0].cfg, head, truth);
  }

  /** What any cycle of the run has written, a write that covers the fetches, and its rescan if it had one, writes again. */
  lemma CoveredInRun(x: Extractors, run: seq<Record>, cursors: seq<Ledger>, head: Ledger, truth: Truth, k: nat, full: Log)
    requires IsRerun(x, run, cursors, head, truth) && k < |run| && PlanAt(run[|run| - 1], cursors[0]).Ok?
    requires CoversEvents(x, full, CycleTruth(truth, PlanAt(run[|run| - 1], cursors[0]).value))
    requires Rescans(run[k], cursors[0]) ==> CoversEvents(x, full, RescanTruth(truth, PlanAt(run[k], cursors[0]).value))
    ensures CoversLog(full, run[k].written)
  {
    SameCursor(x, run, cursors, head, truth, k);
    AgreesWithLast(x, run, cursors, head, truth, k);
    NothingIsCovered(x, full);
    assert IsAttempt(run[k], run[0].cfg, head, truth);
    AttemptIsCovered(x, cursors[0], run[k], cursors[k + 1], truth, full);
  }

  /** A rescan before the last, with none after it, is complete in the tables: had it failed, it would have been due again. */
  lemma LastRescanIsHeld(x: Extractors, run: seq<Record>, cursors: seq<Ledger>, head: Ledger, truth: Truth, j: nat)
    requires IsRerun(x, run, cursors, head, truth) && j < |run| - 1 && Rescans(run[j], cursors[0])
    requires forall k: nat :: j < k < |run| ==> !Rescans(run[k], cursors[0])
    ensures HoldsRescan(x, run[j].a, PlanAt(run[j], cursors[0]).value, run[j].written)
  {
    var n := |run| - 1;
    SameCursor(x, run, cursors, head, truth, j);
    AgreesWithLast(x, run, cursors, head, truth, j);
    if run[j].noted == run[j].lastReorg {
      StaysDue(x, run, cursors, head, truth, j, n);
      assert false;
    }
  }

  /** The cycle that completes writes its rescan, if it had one, and all of its fetches. */
  lemma LastIsWhole(x: Extractors, run: seq<Record>, cursors: seq<Ledger>, head: Ledger, truth: Truth)
    requires IsRerun(x, run, cursors, head, truth)
    ensures var n, plan := |run| - 1, PlanAt(run[|run| - 1], cursors[0]);
            plan.Ok? && run[n].written == OneCycle(x, run, cursors[0], truth, if Rescans(run[n], cursors[0]) then Some(n) else None)
  {
    var n := |run| - 1;
    SameCursor(x, run, cursors, head, truth, n);
    AgreesWithLast(x, run, cursors, head, truth, n);
    assert run[n].cycle.Completed? && IsAttempt(run[n], run[0].cfg, head, truth);
    var p := PlanAt(run[n], cursors[0]).value;
    EventsArePart(run[n].a, p, truth);
    EnrichedMore(x, RescanTruth(truth, p), CycleTruth(truth, p), run[n].a.enrich);
    if p.rescan.None? {
      assert [] + CycleTruth(truth, p) == CycleTruth(truth, p);
    }
  }

  /** The last cycle has the only rescan that counts, or there was none: all before it is written again. */
  lemma ConvergesAtLast(x: Extractors, s: Stores, run: seq<Record>, cursors: seq<Ledger>, head: Ledger, truth: Truth, j: Option<nat>)
    requires IsRerun(x, run, cursors, head, truth) && j == LastRescan(run, cursors[0], |run|)
    requires j.None? || j.value == |run| - 1
    requires PlanAt(run[|run| - 1], cursors[0]).Ok?
    ensures WriteRun(s, run, |run|) == Write(s, OneCycle(x, run, cursors[0], truth, j))
  {
    var n, full := |run| - 1, OneCycle(x, run, cursors[0], truth, j);
    LastIsWhole(x, run, cursors, head, truth);
    CoversParts(x, run, cursors[0], truth, j);
    forall k: nat | k < n
      ensures CoversLog(full, run[k].written)
    {
      if Rescans(run[k], cursors[0]) {
        RescansAgree(x, run, cursors, head, truth, k, j.value);
      }
      CoveredInRun(x, run, cursors, head, truth, k, full);
    }
    AbsorbsRun(s, run, 0, n, full);
  }

  lemma CoversParts(x: Extractors, run: seq<Record>, last: Ledger, truth: Truth, j: Option<nat>)
    requires run != [] && PlanAt(run[|run| - 1], last).Ok?
    requires j.Some? ==> j.value < |run| && PlanAt(run[j.value], last).Ok?
    ensures var final, full := run[|run| - 1], OneCycle(x, run, last, truth, j);
            && CoversEvents(x, full, CycleTruth(truth, PlanAt(final, last).value))
            && (j.Some? ==> CoversEvents(x, full, RescanTruth(truth, PlanAt(run[j.value], last).value)))
  {
    var final := run[|run| - 1];
    var events := CycleTruth(truth, PlanAt(final, last).value);
    var cycle := CycleLog(x, events, final.a.enrich);
    CoversItself(cycle);
    if j.None? {
      CoversAnySchemas(x, events, final.a.enrich, cycle);
    } else {
      CoversBothParts(x, RescanTruth(truth, PlanAt(run[j.value], last).value), run[j.value].a.enrich, events, final.a.enrich);
    }
  }

  lemma CoversBothParts(x: Extractors, a: seq<Event>, enrich: Event -> string, b: seq<Event>, enrich': Event -> string)
    ensures var full := Both(CycleLog(x, a, enrich), CycleLog(x, b, enrich')); CoversEvents(x, full, a) && CoversEvents(x, full, b)
  {
    var first, second := CycleLog(x, a, enrich), CycleLog(x, b, enrich');
    CoversItself(first);
    CoversItself(second);
    CoversBoth(first, second, first);
    CoversBoth(first, second, second);
    CoversAnySchemas(x, a, enrich, Both(first, second));
    CoversAnySchemas(x, b, enrich', Both(first, second));
  }

  /** The cycles behind the last rescan are written again by the last cycle. */
  lemma BehindIsCovered(x: Extractors, s: Stores, run: seq<Record>, cursors: seq<Ledger>, head: Ledger, truth: Truth, j: nat, cycle: Log)
    requires IsRerun(x, run, cursors, head, truth) && Some(j) == LastRescan(run, cursors[0], |run|) && j < |run| - 1
    requires PlanAt(run[|run| - 1], cursors[0]).Ok? && cycle == OneCycle(x, run, cursors[0], truth, None)
    ensures WriteRun(s, run, |run|) == Write(WriteRun(s, run, j + 1), cycle)
  {
    var n := |run| - 1;
    LastIsWhole(x, run, cursors, head, truth);
    CoversParts(x, run, cursors[0], truth, None);
    forall k: nat | j + 1 <= k < n
      ensures CoversLog(cycle, run[k].written)
    {
      CoveredInRun(x, run, cursors, head, truth, k, cycle);
    }
    AbsorbsRun(s, run, j + 1, n, cycle);
  }

  /** The cycles before it are written again by it and the last cycle. */
  lemma BeforeIsCovered(x: Extractors, s: Stores, run: seq<Record>, cursors: seq<Ledger>, head: Ledger, truth: Truth, j: nat, full: Log)
    requires IsRerun(x, run, cursors, head, truth) && j < |run| && Rescans(run[j], cursors[0])
    requires PlanAt(run[|run| - 1], cursors[0]).Ok? && full == OneCycle(x, run, cursors[0], truth, Some(j))
    ensures Write(WriteRun(s, run, j), full) == Write(s, full)
  {
    CoversParts(x, run, cursors[0], truth, Some(j));
    forall k: nat | k < j
      ensures CoversLog(full, run[k].written)
    {
      if Rescans(run[k], cursors[0]) {
        RescansAgree(x, run, cursors, head, truth, k, j);
      }
      CoveredInRun(x, run, cursors, head, truth, k, full);
    }
    AbsorbsRun(s, run, 0, j, full);
  }

  /** A cycle before the last one has the last rescan. */
  lemma ConvergesEarlier(x: Extractors, s: Stores, run: seq<Record>, cursors: seq<Ledger>, head: Ledger, truth: Truth, j: nat)
    requires IsRerun(x, run, cursors, head, truth) && Some(j) == LastRescan(run, cursors[0], |run|) && j < |run| - 1
    requires PlanAt(run[|run| - 1], cursors[0]).Ok?
    ensures WriteRun(s, run, |run|) == Write(s, OneCycle(x, run, cursors[0], truth, Some(j)))
  {
    var cycle := OneCycle(x, run, cursors[0], truth, None);
    var rescan := CycleLog(x, RescanTruth(truth, PlanAt(run[j], cursors[0]).value), run[j].a.enrich);
    BehindIsCovered(x, s, run, cursors, head, truth, j, cycle);
    RescanThenCycle(x, WriteRun(s, run, j), run, cursors, head, truth, j, rescan, cycle);
    BeforeIsCovered(x, s, run, cursors, head, truth, j, Both(rescan, cycle));
  }

  lemma RescanThenCycle(x: Extractors, s: Stores, run: seq<Record>, cursors: seq<Ledger>, head: Ledger, truth: Truth, j: nat,
                        rescan: Log, cycle: Log)
    requires IsRerun(x, run, cursors, head, truth) && Some(j) == LastRescan(run, cursors[0], |run|) && j < |run| - 1
    requires rescan == CycleLog(x, RescanTruth(truth, PlanAt(run[j], cursors[0]).value), run[j].a.enrich)
    requires PlanAt(run[|run| - 1], cursors[0]).Ok? && cycle == OneCycle(x, run, cursors[0], truth, None)
    ensures Write(Write(s, run[j].written), cycle) == Write(s, Both(rescan, cycle))
  {
    var p, a := PlanAt(run[j], cursors[0]).value, run[j].a;
    LastRescanIsHeld(x, run, cursors, head, truth, j);
    assert IsAttempt(run[j], run[0].cfg, head, truth);
    EventsArePart(a, p, truth);
    var more :| IsCutOf(more, CycleLog(x, CycleEvents(a, p), a.enrich)) && run[j].written == Both(rescan, more);
    AgreesWithLast(x, run, cursors, head, truth, j);
    PartIsCovered(x, CycleEvents(a, p), a.enrich, CycleTruth(truth, p), run[|run| - 1].a.enrich);
    CoversCut(cycle, CycleLog(x, CycleEvents(a, p), a.enrich), more);
    WriteMore(s, rescan, more);
    AbsorbsLog(Write(s, rescan), more, cycle);
    WriteMore(s, rescan, cycle);
  }

  /** Crash and re-run converge over whole cycles: however many cycles fail at the same work, wherever each was cut, whatever its
      schemas, and whether or not the service was restarted in between, once a cycle completes the tables are as after one
      undisturbed cycle, with one undisturbed rescan before it if any of them had one: also when the cycle that completes skips the
      rescan because its time is already noted. */
  lemma RerunsConverge(x: Extractors, s: Stores, run: seq<Record>, cursors: seq<Ledger>, head: Ledger, truth: Truth)
    requires IsRerun(x, run, cursors, head, truth)
    ensures PlanAt(run[|run| - 1], cursors[0]).Ok?
    ensures WriteRun(s, run, |run|) == Write(s, OneCycle(x, run, cursors[0], truth, LastRescan(run, cursors[0], |run|)))
  {
    AgreesWithLast(x, run, cursors, head, truth, 0);
    var j := LastRescan(run, cursors[0], |run|);
    if j.None? || j.value == |run| - 1 {
      ConvergesAtLast(x, s, run, cursors, head, truth, j);
    } else {
      ConvergesEarlier(x, s, run, cursors, head, truth, j.value);
    }
  }
}
