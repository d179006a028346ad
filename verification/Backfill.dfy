/** internal/module/ingest/service/backfill_service.go: walking a ledger range in windows, and the progress row it keeps. */
module Backfill {
  import opened Prelude

  type Ledger = x: int | 0 <= x < TWO_TO_32

  const LAST_LEDGER: Ledger := 0xFFFF_FFFF

  /** The 32-bit value of a sum or difference of ledgers. */
  function Wrap(n: int): Ledger
    requires -TWO_TO_32 <= n < 2 * TWO_TO_32
  {
    if n < 0 then n + TWO_TO_32 else if n < TWO_TO_32 then n else n - TWO_TO_32
  }

  /** A window of ledgers, both ends included. */
  datatype Window = Window(first: Ledger, last: Ledger)

  // ----- The walk

  /** The window at the cursor; the addition is on 32 bits. */
  function WindowAt(cursor: Ledger, upTo: Ledger, batch: Ledger): Window {
    var end := Wrap(cursor + batch - 1);
    Window(cursor, if end > upTo then upTo else end)
  }

  /** The windows from the cursor on, at most `fuel` of them, and where the cursor ends up. */
  function Walk(cursor: Ledger, upTo: Ledger, batch: Ledger, fuel: nat): (seq<Window>, Ledger)
    decreases fuel
  {
    if cursor > upTo || fuel == 0 then ([], cursor)
    else
      var window := WindowAt(cursor, upTo, batch);
      var (rest, stop) := Walk(Wrap(window.last + 1), upTo, batch, fuel - 1);
      ([window] + rest, stop)
  }

  /** Consecutive, disjoint, and exactly [from, upTo]. */
  ghost predicate Tiles(windows: seq<Window>, from: int, upTo: int) {
    if windows == [] then from == upTo + 1
    else windows[0].first == from && from <= windows[0].last <= upTo && Tiles(windows[1..], windows[0].last + 1, upTo)
  }

  /** The walk is over, and it was a tiling. */
  ghost predicate WalksExactly(from: Ledger, upTo: Ledger, batch: Ledger, fuel: nat) {
    var (windows, stop) := Walk(from, upTo, batch, fuel);
    stop > upTo && Tiles(windows, from, upTo)
  }

  /** What the words of Tiles come to: every ledger of the range is in exactly one window, and no other is in any. */
  lemma {:induction false} TilesCover(windows: seq<Window>, from: int, upTo: int, ledger: int)
    requires Tiles(windows, from, upTo)
    ensures from <= ledger <= upTo ==> exists i :: 0 <= i < |windows| && windows[i].first <= ledger <= windows[i].last
    ensures forall i, j :: 0 <= i < j < |windows| ==> windows[i].last < windows[j].first
    ensures forall i :: 0 <= i < |windows| ==> from <= windows[i].first <= windows[i].last <= upTo
    decreases |windows|
  {
    if windows != [] {
      var rest := windows[1..];
      TilesCover(rest, windows[0].last + 1, upTo, ledger);
      assert forall i :: 0 <= i < |rest| ==> windows[i + 1] == rest[i];
      forall i | 0 < i < |windows|
        ensures windows[0].last < windows[i].first <= windows[i].last <= upTo
      {
        assert windows[i] == rest[i - 1];
      }
      if windows[0].last < ledger <= upTo {
        var i :| 0 <= i < |rest| && rest[i].first <= ledger <= rest[i].last;
        assert windows[i + 1].first <= ledger <= windows[i + 1].last;
      }
    }
  }

  // ----- When the walk is a tiling

  /** Where the last window starts when nothing wraps. */
  function LastStart(cursor: int, upTo: int, batch: nat): (start: int)
    requires batch > 0 && cursor <= upTo
    ensures cursor <= start <= upTo < start + batch
    decreases upTo - cursor
  {
    if upTo - cursor < batch then cursor else LastStart(cursor + batch, upTo, batch)
  }

  lemma {:induction false} LastStartIs(cursor: int, upTo: int, batch: nat)
    requires batch > 0 && cursor <= upTo
    ensures LastStart(cursor, upTo, batch) == cursor + (upTo - cursor) / batch * batch
    decreases upTo - cursor
  {
    if upTo - cursor < batch {
      assert (upTo - cursor) / batch == 0;
    } else {
      LastStartIs(cursor + batch, upTo, batch);
      OneQuotientLess(upTo - cursor, batch);
    }
  }

  lemma OneQuotientLess(n: nat, d: nat)
    requires 0 < d <= n
    ensures (n - d) / d * d + d == n / d * d && (n - d) / d + 1 == n / d
  {
    var q, r := n / d, n % d;
    assert n == q * d + r && (q - 1) * d == q * d - d;
    QuotientIs(n - d, d, q - 1, r);
  }

  /** The range and batch size are such that the 32-bit sums never leave their range. A batch size of 0 is the odd one out: from
      ledger 0 the first sum wraps to the largest ledger, which the range then caps. */
  predicate IsWalkable(from: Ledger, upTo: Ledger, batch: Ledger) {
    && upTo < LAST_LEDGER
    && if batch == 0 then from == 0 else from + (upTo - from) / batch * batch + batch <= TWO_TO_32
  }

  function CountOf(from: Ledger, upTo: Ledger, batch: Ledger): nat
    requires from <= upTo
  {
    if batch == 0 then 1 else (upTo - from) / batch + 1
  }

  /** One window of a walk, and the rest. */
  lemma WalkOnce(cursor: Ledger, upTo: Ledger, batch: Ledger, fuel: nat)
    requires cursor <= upTo && fuel > 0
    ensures var window := WindowAt(cursor, upTo, batch);
            var rest := Walk(Wrap(window.last + 1), upTo, batch, fuel - 1);
            Walk(cursor, upTo, batch, fuel) == ([window] + rest.0, rest.1) && Walk(cursor, upTo, batch, fuel).0[1..] == rest.0
  {}

  lemma OneWindowTiles(from: Ledger, upTo: Ledger, batch: Ledger)
    requires from <= upTo < LAST_LEDGER && WindowAt(from, upTo, batch).last == upTo
    ensures WalksExactly(from, upTo, batch, 1) && |Walk(from, upTo, batch, 1).0| == 1
  {
    WalkOnce(from, upTo, batch, 1);
    assert Walk(upTo + 1, upTo, batch, 0) == ([], upTo + 1);
  }

  lemma OneMoreTiles(from: Ledger, upTo: Ledger, batch: Ledger, fuel: nat)
    requires from <= upTo && fuel > 0 && from <= WindowAt(from, upTo, batch).last < upTo
    requires WalksExactly(WindowAt(from, upTo, batch).last + 1, upTo, batch, fuel - 1)
    ensures WalksExactly(from, upTo, batch, fuel)
    ensures |Walk(from, upTo, batch, fuel).0| == |Walk(WindowAt(from, upTo, batch).last + 1, upTo, batch, fuel - 1).0| + 1
  {
    WalkOnce(from, upTo, batch, fuel);
  }

  lemma {:induction false} StepsTile(from: Ledger, upTo: Ledger, batch: Ledger, count: nat)
    requires from <= upTo < LAST_LEDGER && batch > 0 && LastStart(from, upTo, batch) + batch <= TWO_TO_32
    requires count == (upTo - from) / batch + 1
    ensures WalksExactly(from, upTo, batch, count) && |Walk(from, upTo, batch, count).0| == count
    decreases upTo - from
  {
    if upTo - from < batch {
      SmallQuotient(upTo - from, batch);
      OneWindowTiles(from, upTo, batch);
    } else {
      OneQuotientLess(upTo - from, batch);
      assert WindowAt(from, upTo, batch).last == from + batch - 1;
      StepsTile(from + batch, upTo, batch, count - 1);
      OneMoreTiles(from, upTo, batch, count);
    }
  }

  lemma SmallQuotient(n: nat, d: nat)
    requires n < d
    ensures n / d == 0
  {}

  /** Some window ends below its start. */
  ghost predicate GoesBack(windows: seq<Window>) { exists i :: 0 <= i < |windows| && windows[i].last < windows[i].first }

  /** If the last start is too far up, the walk breaks there: a window ends below its start. */
  lemma {:induction false} WrapBreaks(from: Ledger, upTo: Ledger, batch: Ledger, fuel: nat)
    requires from <= upTo < LAST_LEDGER && batch > 0 && LastStart(from, upTo, batch) + batch > TWO_TO_32
    ensures !WalksExactly(from, upTo, batch, fuel)
    ensures fuel >= CountOf(from, upTo, batch) ==> GoesBack(Walk(from, upTo, batch, fuel).0)
    decreases fuel
  {
    if fuel > 0 {
      WalkOnce(from, upTo, batch, fuel);
      var windows := Walk(from, upTo, batch, fuel).0;
      if from + batch <= TWO_TO_32 {
        assert WindowAt(from, upTo, batch).last == from + batch - 1;
        WrapBreaks(from + batch, upTo, batch, fuel - 1);
        OneQuotientLess(upTo - from, batch);
        GoesBackLater(windows);
      } else {
        assert windows[0].last < windows[0].first;
      }
    }
  }

  lemma GoesBackLater(windows: seq<Window>)
    requires windows != []
    ensures GoesBack(windows[1..]) ==> GoesBack(windows)
  {
    if i :| 0 <= i < |windows| - 1 && windows[1..][i].last < windows[1..][i].first {
      assert windows[i + 1] == windows[1..][i];
    }
  }

  lemma {:induction false} NeverPastLastLedger(cursor: Ledger, batch: Ledger, fuel: nat)
    ensures Walk(cursor, LAST_LEDGER, batch, fuel).1 <= LAST_LEDGER
  {}

  lemma ZeroBatch(from: Ledger, upTo: Ledger, fuel: nat)
    requires from <= upTo < LAST_LEDGER
    ensures if from == 0 then WalksExactly(from, upTo, 0, 1) && |Walk(from, upTo, 0, 1).0| == 1 else !WalksExactly(from, upTo, 0, fuel)
  {
    if from == 0 {
      OneWindowTiles(from, upTo, 0);
    } else if fuel > 0 {
      WalkOnce(from, upTo, 0, fuel);
      assert WindowAt(from, upTo, 0) == Window(from, from - 1);
    }
  }

  /** Backfill tiles its range, in ceil(length / batch) windows, if the range is walkable; otherwise it never does, whatever the
      number of windows allowed. */
  lemma TilesIffWalkable(from: Ledger, upTo: Ledger, batch: Ledger)
    requires from <= upTo
    ensures IsWalkable(from, upTo, batch) ==>
              && WalksExactly(from, upTo, batch, CountOf(from, upTo, batch))
              && |Walk(from, upTo, batch, CountOf(from, upTo, batch)).0| == CountOf(from, upTo, batch)
    ensures !IsWalkable(from, upTo, batch) ==> forall fuel: nat :: !WalksExactly(from, upTo, batch, fuel)
  {
    if upTo == LAST_LEDGER {
      forall fuel: nat
        ensures !WalksExactly(from, upTo, batch, fuel)
      {
        NeverPastLastLedger(from, batch, fuel);
      }
    } else if batch == 0 {
      forall fuel: nat
        ensures from != 0 ==> !WalksExactly(from, upTo, batch, fuel)
      {
        ZeroBatch(from, upTo, fuel);
      }
      ZeroBatch(from, upTo, 0);
    } else {
      LastStartIs(from, upTo, batch);
      if IsWalkable(from, upTo, batch) {
        StepsTile(from, upTo, batch, CountOf(from, upTo, batch));
      } else {
        forall fuel: nat
          ensures !WalksExactly(from, upTo, batch, fuel)
        {
          WrapBreaks(from, upTo, batch, fuel);
        }
      }
    }
  }

  /** A range that ends a batch below 2^32 is walkable. */
  lemma RoomForABatch(from: Ledger, upTo: Ledger, batch: Ledger)
    requires from <= upTo < LAST_LEDGER && batch > 0 && upTo + batch <= TWO_TO_32
    ensures IsWalkable(from, upTo, batch)
  {
    LastStartIs(from, upTo, batch);
  }

  // ----- The progress row

  datatype Row = Row(from: Ledger, upTo: Ledger, next: Ledger, running: bool)

  /** The backfill_state table, one row a network. */
  class BackfillRepository {
    var rows: map<string, Row>

    method Start(network: string, from: Ledger, upTo: Ledger) returns (row: Row)
      modifies this
      ensures row == Row(from, upTo, from, true) && rows == old(rows)[network := row]
    {
      row := Row(from, upTo, from, true);
      rows := rows[network := row];
    }

    /** An error unless the network's row is running. */
    method UpdateProgress(network: string, next: Ledger) returns (ok: bool)
      modifies this
      ensures ok <==> network in old(rows) && old(rows)[network].running
      ensures rows == if ok then old(rows)[network := old(rows)[network].(next := next)] else old(rows)
    {
      ok := network in rows && rows[network].running;
      if ok {
        rows := rows[network := rows[network].(next := next)];
      }
    }

    method Complete(network: string)
      modifies this
      ensures rows == if network in old(rows) then old(rows)[network := old(rows)[network].(running := false)] else old(rows)
    {
      if network in rows {
        rows := rows[network := rows[network].(running := false)];
      }
    }
  }

  // ----- The run

  datatype Cause = BadRange | HeadUnknown | StartFailed | Cancelled | WindowFailed | ProgressFailed | CompleteFailed

  datatype Result = Done | Failed(cause: Cause) | Unfinished

  /** What a run meets: the head, the database, the looks at the context by their number, and each window by its number. */
  datatype Answers = Answers(latest: Option<Ledger>, started: bool, cancelled: nat -> bool, filled: (nat, Window) -> bool,
                             recorded: nat -> bool, completed: bool)

  ghost predicate AllGood(a: Answers) {
    && a.started && a.completed
    && (forall n: nat :: !a.cancelled(n))
    && (forall n: nat :: a.recorded(n))
    && (forall n: nat, w: Window :: a.filled(n, w))
  }

  function BatchOf(batchSize: int): Ledger { (if batchSize <= 0 then 200 else batchSize) % TWO_TO_32 }

  /** Where the range ends: at the head if no end is given. */
  function EndOf(upTo: Ledger, a: Answers): Option<Ledger> { if upTo == 0 then a.latest else Some(upTo) }

  /** One past the last window. */
  function NextOf(from: Ledger, windows: seq<Window>): Ledger {
    if windows == [] then from else Wrap(windows[|windows| - 1].last + 1)
  }

  /** A run that got as far as its first window: the windows done are those of the walk, in order; the row is one past the last of
      them, and completed exactly when the walk is over and all of it is done. */
  ghost predicate RanAs(row: Row, from: Ledger, upTo: Ledger, batch: Ledger, fuel: nat, done: seq<Window>, result: Result) {
    var (windows, stop) := Walk(from, upTo, batch, fuel);
    && done <= windows
    && row == Row(from, upTo, NextOf(from, done), !result.Done?)
    && (result.Done? ==> done == windows && stop > upTo)
    && (result.Unfinished? ==> done == windows && stop <= upTo)
  }

  predicate IsEarly(result: Result) {
    result.Failed? && (result.cause.BadRange? || result.cause.HeadUnknown? || result.cause.StartFailed?)
  }

  datatype Step = Step(ran: bool, cause: Option<Cause>)

  /** One turn of the loop: look at the context, fill the window, record it, and look again while waiting. */
  function StepOf(a: Answers, window: Window, number: nat): (step: Step)
    ensures step.ran || step.cause.Some?
    ensures step.cause.Some? ==> !IsEarly(Failed(step.cause.value)) && !AllGood(a)
  {
    if a.cancelled(2 * number) then Step(false, Some(Cancelled))
    else if !a.filled(number, window) then Step(false, Some(WindowFailed))
    else if !a.recorded(number) then Step(false, Some(ProgressFailed))
    else Step(true, if a.cancelled(2 * number + 1) then Some(Cancelled) else None)
  }

  method FillWindow(repo: BackfillRepository, network: string, window: Window, number: nat, a: Answers) returns (step: Step)
    requires network in repo.rows && repo.rows[network].running
    modifies repo
    ensures step == StepOf(a, window, number)
    ensures repo.rows == if step.ran then old(repo.rows)[network := old(repo.rows[network]).(next := Wrap(window.last + 1))]
                         else old(repo.rows)
  {
    if a.cancelled(2 * number) {
      return Step(false, Some(Cancelled));
    }
    if !a.filled(number, window) {
      return Step(false, Some(WindowFailed));
    }
    var ok := a.recorded(number);
    if ok {
      ok := repo.UpdateProgress(network, Wrap(window.last + 1));
    }
    if !ok {
      return Step(false, Some(ProgressFailed));
    }
    return Step(true, if a.cancelled(2 * number + 1) then Some(Cancelled) else None);
  }

  /** The first windows were filled and recorded, one after the other. */
  ghost predicate AreFilled(a: Answers, done: seq<Window>) {
    forall i: nat :: i < |done| ==> a.filled(i, done[i]) && a.recorded(i)
  }

  lemma MoreFilled(a: Answers, done: seq<Window>, window: Window)
    requires AreFilled(a, done) && a.filled(|done|, window) && a.recorded(|done|)
    ensures AreFilled(a, done + [window])
  {}

  /** Why a run stopped after these windows: a done context, or the next window, that could not be filled or not be recorded. */
  ghost predicate Explains(cause: Cause, a: Answers, done: seq<Window>, windows: seq<Window>) {
    match cause
    case Cancelled => exists n: nat :: a.cancelled(n)
    case WindowFailed => |done| < |windows| && !a.filled(|done|, windows[|done|])
    case ProgressFailed => !a.recorded(|done|)
    case _ => false
  }

  lemma StepExplains(a: Answers, window: Window, done: seq<Window>, rest: seq<Window>)
    requires StepOf(a, window, |done|).cause.Some?
    ensures var step := StepOf(a, window, |done|);
            Explains(step.cause.value, a, if step.ran then done + [window] else done, done + [window] + rest)
  {
    assert (done + [window] + rest)[|done|] == window;
  }

  type Walker = (Ledger, nat) -> (seq<Window>, Ledger)

  function WalkerOf(upTo: Ledger, batch: Ledger): Walker { (cursor: Ledger, fuel: nat) => Walk(cursor, upTo, batch, fuel) }

  /** The walk one window on, if there is one. */
  ghost predicate WalksOn(walk: Walker, upTo: Ledger, batch: Ledger, cursor: Ledger, fuel: nat) {
    if cursor > upTo || fuel == 0 then walk(cursor, fuel) == ([], cursor)
    else
      var window := WindowAt(cursor, upTo, batch);
      var rest := walk(Wrap(window.last + 1), fuel - 1);
      walk(cursor, fuel).0 == [window] + rest.0 && walk(cursor, fuel).1 == rest.1
  }

  /** The windows so far, and the walk that is left. */
  predicate IsLeft(whole: (seq<Window>, Ledger), done: seq<Window>, rest: (seq<Window>, Ledger)) {
    whole.0 == done + rest.0 && whole.1 == rest.1
  }

  lemma OneWindowOn(walk: Walker, upTo: Ledger, batch: Ledger, cursor: Ledger, left: nat, whole: (seq<Window>, Ledger), done: seq<Window>)
    requires cursor <= upTo && left > 0 && WalksOn(walk, upTo, batch, cursor, left) && IsLeft(whole, done, walk(cursor, left))
    ensures var window := WindowAt(cursor, upTo, batch);
            && IsLeft(whole, done + [window], walk(Wrap(window.last + 1), left - 1))
            && whole.0 == done + [window] + walk(Wrap(window.last + 1), left - 1).0
  {
    var window := WindowAt(cursor, upTo, batch);
    var rest := walk(Wrap(window.last + 1), left - 1);
    assert done + ([window] + rest.0) == done + [window] + rest.0;
  }

  /** One turn of the loop. */
  method TakeWindow(repo: BackfillRepository, network: string, from: Ledger, window: Window, a: Answers, done: seq<Window>, ghost rest: seq<Window>)
    returns (cause: Option<Cause>, ran: bool)
    requires network in repo.rows && repo.rows[network].running && AreFilled(a, done)
    modifies repo
    ensures repo.rows == if ran then old(repo.rows)[network := old(repo.rows[network]).(next := Wrap(window.last + 1))] else old(repo.rows)
    ensures AreFilled(a, if ran then done + [window] else done) && (ran || cause.Some?)
    ensures cause.Some? ==>
              && !IsEarly(Failed(cause.value)) && !AllGood(a)
              && Explains(cause.value, a, if ran then done + [window] else done, done + [window] + rest)
  {
    var step := FillWindow(repo, network, window, |done|, a);
    cause, ran := step.cause, step.ran;
    if cause.Some? {
      StepExplains(a, window, done, rest);
    }
    if ran {
      MoreFilled(a, done, window);
    }
  }

  /** The loop of Run, given up after `fuel` windows: a range up to the last ledger would never end. */
  method WalkWindows(repo: BackfillRepository, network: string, from: Ledger, end: Ledger, batch: Ledger, a: Answers, fuel: nat,
                     ghost walk: Walker)
    returns (cause: Option<Cause>, cursor: Ledger, done: seq<Window>)
    requires network in repo.rows && repo.rows[network] == Row(from, end, from, true)
    requires forall c: Ledger, f: nat :: WalksOn(walk, end, batch, c, f)
    modifies repo
    ensures done <= walk(from, fuel).0
    ensures repo.rows == old(repo.rows)[network := Row(from, end, NextOf(from, done), true)]
    ensures cause.None? ==> done == walk(from, fuel).0 && cursor == walk(from, fuel).1
    ensures cause.Some? ==> !IsEarly(Failed(cause.value)) && !AllGood(a) && Explains(cause.value, a, done, walk(from, fuel).0)
    ensures AreFilled(a, done)
  {
    ghost var whole := walk(from, fuel);
    cause, cursor, done := None, from, [];
    var left := fuel;
    while cursor <= end && left > 0
      invariant cause.None? && cursor == NextOf(from, done) && AreFilled(a, done)
      invariant repo.rows == old(repo.rows)[network := Row(from, end, NextOf(from, done), true)]
      invariant IsLeft(whole, done, walk(cursor, left))
      decreases left
    {
      assert WalksOn(walk, end, batch, cursor, left);
      var window := WindowAt(cursor, end, batch);
      OneWindowOn(walk, end, batch, cursor, left, whole, done);
      var ran;
      cause, ran := TakeWindow(repo, network, from, window, a, done, walk(Wrap(window.last + 1), left - 1).0);
      if ran {
        left, cursor := left - 1, Wrap(window.last + 1);
        done := done + [window];
      }
      if cause.Some? {
        return;
      }
    }
    assert WalksOn(walk, end, batch, cursor, left);
  }

  /** The range to walk, or why there is none. */
  method FindRange(from: Ledger, upTo: Ledger, a: Answers) returns (end: Ledger, cause: Option<Cause>)
    ensures cause == Some(BadRange) <==> 0 < upTo < from
    ensures cause == Some(HeadUnknown) <==> upTo == 0 && a.latest.None?
    ensures cause == Some(StartFailed) <==> EndOf(upTo, a).Some? && !(0 < upTo < from) && !a.started
    ensures cause.Some? ==> IsEarly(Failed(cause.value)) && !(AllGood(a) && EndOf(upTo, a).Some? && !(0 < upTo < from))
    ensures cause.None? ==> EndOf(upTo, a) == Some(end)
  {
    if upTo > 0 && from > upTo {
      return 0, Some(BadRange);
    }
    end := upTo;
    if upTo == 0 {
      if a.latest.None? {
        return 0, Some(HeadUnknown);
      }
      end := a.latest.value;
    }
    cause := if a.started then None else Some(StartFailed);
  }

  /** What a run that got as far as its row comes to. */
  ghost predicate IsRunResult(a: Answers, result: Result, done: seq<Window>, windows: seq<Window>) {
    && !IsEarly(result) && AreFilled(a, done)
    && (result == Failed(CompleteFailed) ==> !a.completed && done == windows)
    && (result.Failed? && result.cause != CompleteFailed ==> Explains(result.cause, a, done, windows))
  }

  method RunRange(repo: BackfillRepository, network: string, from: Ledger, end: Ledger, batch: Ledger, a: Answers, fuel: nat)
    returns (result: Result, done: seq<Window>)
    modifies repo
    ensures network in repo.rows && RanAs(repo.rows[network], from, end, batch, fuel, done, result)
    ensures repo.rows == old(repo.rows)[network := repo.rows[network]]
    ensures IsRunResult(a, result, done, Walk(from, end, batch, fuel).0)
    ensures AllGood(a) ==> result == if Walk(from, end, batch, fuel).1 > end then Done else Unfinished
  {
    var row := repo.Start(network, from, end);
    var cursor, cause := if row.next == 0 then from else row.next, None;
    forall c: Ledger, f: nat
      ensures WalksOn(WalkerOf(end, batch), end, batch, c, f)
    {}
    cause, cursor, done := WalkWindows(repo, network, cursor, end, batch, a, fuel, WalkerOf(end, batch));
    if cause.Some? {
      return Failed(cause.value), done;
    }
    if cursor <= end {
      return Unfinished, done;
    }
    if !a.completed {
      return Failed(CompleteFailed), done;
    }
    repo.Complete(network);
    result := Done;
  }

  /** Run: the windows done are filled and recorded, in order, and the row tells how far it got; whatever stops it is so. */
  method Run(repo: BackfillRepository, network: string, from: Ledger, upTo: Ledger, batchSize: int, a: Answers, fuel: nat)
    returns (result: Result, done: seq<Window>)
    modifies repo
    ensures result == Failed(BadRange) <==> 0 < upTo < from
    ensures result == Failed(HeadUnknown) <==> upTo == 0 && a.latest.None?
    ensures result == Failed(StartFailed) <==> EndOf(upTo, a).Some? && !(0 < upTo < from) && !a.started
    ensures IsEarly(result) ==> repo.rows == old(repo.rows) && done == []
    ensures !IsEarly(result) ==>
              && EndOf(upTo, a).Some? && network in repo.rows
              && RanAs(repo.rows[network], from, EndOf(upTo, a).value, BatchOf(batchSize), fuel, done, result)
              && repo.rows == old(repo.rows)[network := repo.rows[network]]
              && IsRunResult(a, result, done, Walk(from, EndOf(upTo, a).value, BatchOf(batchSize), fuel).0)
    ensures AllGood(a) && EndOf(upTo, a).Some? && !(0 < upTo < from) ==>
              result == if Walk(from, EndOf(upTo, a).value, BatchOf(batchSize), fuel).1 > EndOf(upTo, a).value then Done else Unfinished
  {
    var end, cause := FindRange(from, upTo, a);
    if cause.Some? {
      return Failed(cause.value), [];
    }
    result, done := RunRange(repo, network, from, end, BatchOf(batchSize), a, fuel);
  }

  // ----- What a run was asked for, and what its row tells

  /** The range ends at the head if no end is given, and windows have 200 ledgers if no size is; a size is taken as a 32-bit number. */
  lemma RangeIs(upTo: Ledger, a: Answers, batchSize: int)
    ensures upTo > 0 ==> EndOf(upTo, a) == Some(upTo)
    ensures upTo == 0 ==> EndOf(upTo, a) == a.latest
    ensures batchSize <= 0 ==> BatchOf(batchSize) == 200
    ensures 0 < batchSize < 0x1_0000_0000 ==> BatchOf(batchSize) == batchSize
  {}

  /** A window has as many ledgers as its size says, or as are left. */
  lemma WindowIs(cursor: Ledger, upTo: Ledger, batch: Ledger)
    requires cursor <= upTo && batch > 0 && cursor + batch <= 0x1_0000_0000
    ensures WindowAt(cursor, upTo, batch) == Window(cursor, Min(cursor + batch - 1, upTo))
  {}

  /** The row holds the range and the ledger behind the last window done, and runs until all is done. */
  lemma RowTells(row: Row, from: Ledger, upTo: Ledger, batch: Ledger, fuel: nat, done: seq<Window>, result: Result)
    requires RanAs(row, from, upTo, batch, fuel, done, result)
    ensures row.from == from && row.upTo == upTo && row.running == !result.Done?
    ensures row.next == if done == [] then from else (done[|done| - 1].last + 1) % 0x1_0000_0000
  {}
}
