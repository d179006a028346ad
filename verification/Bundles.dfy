/** internal/module/registry/service/bundle_group.go: grouping published schemas into publish batches. */
module Bundles {
  import opened Prelude
  import opened SchemaModel
  import opened Text
  import Sorting

  const PUBLISH_BATCH_WINDOW: int := 30_000_000_000

  datatype Bundle = Bundle(
    version: int,
    trustTier: TrustTier,
    author: string,
    createdAt: int,
    updatedAt: int,
    verifiedAt: Option<int>,
    events: seq<EventSchema>)

  function PublisherKey(row: EventSchema): string {
    match row.publisherUserID
    case None => ""
    case Some(id) => TrimSpace(id)
  }

  // ----- What a batch is, independently of how the rows are cut

  /** One publisher, and no row more than the window after the first. */
  ghost predicate OneBatch(batch: seq<EventSchema>) {
    && batch != []
    && forall i :: 0 <= i < |batch| ==>
         PublisherKey(batch[i]) == PublisherKey(batch[0]) && batch[i].createdAt - batch[0].createdAt <= PUBLISH_BATCH_WINDOW
  }

  function Flatten(batches: seq<seq<EventSchema>>): seq<EventSchema> {
    if batches == [] then [] else batches[0] + Flatten(batches[1..])
  }

  /** A split of the rows, in order, into contiguous batches. */
  ghost predicate IsSplit(batches: seq<seq<EventSchema>>, rows: seq<EventSchema>) {
    && Flatten(batches) == rows
    && AllBatches(batches)
  }

  ghost predicate AllBatches(batches: seq<seq<EventSchema>>) {
    forall i :: 0 <= i < |batches| ==> OneBatch(batches[i])
  }

  lemma ExtendedBatch(batch: seq<EventSchema>, row: EventSchema)
    requires OneBatch(batch)
    ensures OneBatch(batch + [row]) <==>
              PublisherKey(row) == PublisherKey(batch[0]) && row.createdAt - batch[0].createdAt <= PUBLISH_BATCH_WINDOW
  {
    assert (batch + [row])[|batch|] == row;
  }

  /** No batch could also take the first row of the next one. */
  ghost predicate Maximal(batches: seq<seq<EventSchema>>) {
    forall i :: 0 <= i < |batches| - 1 && batches[i + 1] != [] ==> !OneBatch(batches[i] + [batches[i + 1][0]])
  }

  predicate CreatedBefore(a: EventSchema, b: EventSchema) {
    if a.createdAt == b.createdAt then StringLess(a.eventName, b.eventName) else a.createdAt < b.createdAt
  }

  ghost predicate InTimeOrder(rows: seq<EventSchema>) {
    forall i, j :: 0 <= i <= j < |rows| ==> rows[i].createdAt <= rows[j].createdAt
  }

  lemma FlattenAppend(batches: seq<seq<EventSchema>>, last: seq<EventSchema>)
    ensures Flatten(batches + [last]) == Flatten(batches) + last
  {
    if batches != [] {
      assert (batches + [last])[1..] == batches[1..] + [last];
      FlattenAppend(batches[1..], last);
    }
  }

  /** A piece of a batch is a batch when the rows are in time order. */
  lemma PieceOfBatch(batch: seq<EventSchema>, from: nat, to: nat)
    requires OneBatch(batch) && InTimeOrder(batch) && from < to <= |batch|
    ensures OneBatch(batch[from..to])
  {
    assert batch[0].createdAt <= batch[from].createdAt;
  }

  // ----- The greedy cut

  method CutBatches(published: seq<EventSchema>) returns (batches: seq<seq<EventSchema>>)
    requires published != []
    ensures IsSplit(batches, published) && Maximal(batches)
  {
    batches := [];
    var current := [published[0]];
    var anchor := published[0].createdAt;
    var publisher := PublisherKey(published[0]);
    for i := 1 to |published|
      invariant Cutting(batches, current, published[..i])
      invariant anchor == current[0].createdAt && publisher == PublisherKey(current[0])
    {
      var row := published[i];
      var nextPublisher := PublisherKey(row);
      assert published[..i + 1] == published[..i] + [row];
      ExtendedBatch(current, row);
      if nextPublisher != publisher || row.createdAt - anchor > PUBLISH_BATCH_WINDOW {
        StartBatch(batches, current, published[..i], row);
        batches := batches + [current];
        current := [row];
        anchor := row.createdAt;
        publisher := nextPublisher;
      } else {
        GrowBatch(batches, current, published[..i], row);
        current := current + [row];
      }
    }
    FlattenAppend(batches, current);
    batches := batches + [current];
    assert published[..|published|] == published;
  }

  /** The finished batches and the current one split these rows. */
  ghost predicate Cutting(batches: seq<seq<EventSchema>>, current: seq<EventSchema>, rows: seq<EventSchema>) {
    && Flatten(batches) + current == rows
    && OneBatch(current) && AllBatches(batches)
    && Maximal(batches + [current])
  }

  lemma StartBatch(batches: seq<seq<EventSchema>>, current: seq<EventSchema>, rows: seq<EventSchema>, row: EventSchema)
    requires Cutting(batches, current, rows) && !OneBatch(current + [row])
    ensures Cutting(batches + [current], [row], rows + [row])
  {
    FlattenAppend(batches, current);
    MaximalAppend(batches, current, [row]);
  }

  lemma GrowBatch(batches: seq<seq<EventSchema>>, current: seq<EventSchema>, rows: seq<EventSchema>, row: EventSchema)
    requires Cutting(batches, current, rows) && OneBatch(current + [row])
    ensures Cutting(batches, current + [row], rows + [row])
  {
    MaximalExtend(batches, current, row);
  }

  lemma MaximalAppend(batches: seq<seq<EventSchema>>, current: seq<EventSchema>, next: seq<EventSchema>)
    requires Maximal(batches + [current]) && next != [] && !OneBatch(current + [next[0]])
    ensures Maximal(batches + [current] + [next])
  {
    var before, all := batches + [current], batches + [current] + [next];
    forall i | 0 <= i < |all| - 1 && all[i + 1] != []
      ensures !OneBatch(all[i] + [all[i + 1][0]])
    {
      if i < |before| - 1 {
        assert before[i + 1] == all[i + 1];
      }
    }
  }

  lemma MaximalExtend(batches: seq<seq<EventSchema>>, current: seq<EventSchema>, row: EventSchema)
    requires Maximal(batches + [current]) && current != []
    ensures Maximal(batches + [current + [row]])
  {
    var before, all := batches + [current], batches + [current + [row]];
    forall i | 0 <= i < |all| - 1 && all[i + 1] != []
      ensures !OneBatch(all[i] + [all[i + 1][0]])
    {
      assert before[i] == all[i] && before[i + 1][0] == all[i + 1][0];
    }
  }

  /** Staying ahead: a maximal split of a suffix never needs more batches than any split of the whole. */
  lemma {:induction false} StaysAhead(greedy: seq<seq<EventSchema>>, other: seq<seq<EventSchema>>, rows: seq<EventSchema>, k: nat)
    requires InTimeOrder(rows) && k <= |rows|
    requires IsSplit(other, rows) && IsSplit(greedy, rows[k..]) && Maximal(greedy)
    ensures |greedy| <= |other|
    decreases |other|
  {
    if greedy != [] && other != [] {
      var o, g, rest := other[0], greedy[0], rows[|other[0]|..];
      TailOfSplit(other, rows);
      if k >= |o| {
        assert rows[k..] == rest[k - |o|..];
        StaysAhead(greedy, other[1..], rest, k - |o|);
      } else {
        GreedyReaches(greedy, o, rows, k);
        TailOfSplit(greedy, rows[k..]);
        assert rows[k..][|g|..] == rest[k + |g| - |o|..];
        TailOfMaximal(greedy);
        StaysAhead(greedy[1..], other[1..], rest, k + |g| - |o|);
      }
    }
  }

  lemma TailOfSplit(batches: seq<seq<EventSchema>>, rows: seq<EventSchema>)
    requires batches != [] && IsSplit(batches, rows)
    ensures |batches[0]| <= |rows| && rows[..|batches[0]|] == batches[0] && OneBatch(batches[0])
    ensures IsSplit(batches[1..], rows[|batches[0]|..])
    ensures InTimeOrder(rows) ==> InTimeOrder(rows[|batches[0]|..])
  {}

  lemma TailOfMaximal(batches: seq<seq<EventSchema>>)
    requires batches != [] && Maximal(batches)
    ensures Maximal(batches[1..])
  {
    var t := batches[1..];
    forall i | 0 <= i < |t| - 1 && t[i + 1] != []
      ensures !OneBatch(t[i] + [t[i + 1][0]])
    {
      assert t[i] == batches[i + 1] && t[i + 1] == batches[i + 2];
    }
  }

  /** A first batch that stops inside o could have taken the next row as well. */
  lemma NextRowFits(greedy: seq<seq<EventSchema>>, o: seq<EventSchema>, rows: seq<EventSchema>, k: nat)
    requires InTimeOrder(rows) && k <= |rows| && |o| <= |rows| && rows[..|o|] == o && OneBatch(o)
    requires greedy != [] && k + |greedy[0]| < |o| && IsSplit(greedy, rows[k..])
    ensures |greedy| > 1 && greedy[1] != [] && OneBatch(greedy[0] + [greedy[1][0]])
  {
    var g, all := greedy[0], rows[k..];
    assert all[..|g|] == g && all[|g|..] == Flatten(greedy[1..]);
    assert all[|g|] == Flatten(greedy[1..])[0] == greedy[1][0];
    assert g + [greedy[1][0]] == all[..|g| + 1];
    assert all[..|g| + 1] == rows[k..k + |g| + 1] == o[k..k + |g| + 1];
    PieceOfBatch(o, k, k + |g| + 1);
  }

  /** The greedy batch that starts inside o runs at least to its end. */
  lemma GreedyReaches(greedy: seq<seq<EventSchema>>, o: seq<EventSchema>, rows: seq<EventSchema>, k: nat)
    requires InTimeOrder(rows) && k <= |rows| && |o| <= |rows| && rows[..|o|] == o && OneBatch(o)
    requires greedy != [] && IsSplit(greedy, rows[k..]) && Maximal(greedy)
    ensures k + |greedy[0]| >= |o|
  {
    if k + |greedy[0]| < |o| {
      NextRowFits(greedy, o, rows, k);
      assert false;
    }
  }

  /** The greedy cut is optimal: no split of the same rows into batches has fewer of them. */
  lemma GreedyIsOptimal(greedy: seq<seq<EventSchema>>, other: seq<seq<EventSchema>>, rows: seq<EventSchema>)
    requires InTimeOrder(rows) && IsSplit(greedy, rows) && Maximal(greedy) && IsSplit(other, rows)
    ensures |greedy| <= |other|
  {
    assert rows[0..] == rows;
    StaysAhead(greedy, other, rows, 0);
  }

  /** The greedy cut is the only maximal one. */
  lemma {:induction false} MaximalIsUnique(a: seq<seq<EventSchema>>, b: seq<seq<EventSchema>>, rows: seq<EventSchema>)
    requires InTimeOrder(rows) && IsSplit(a, rows) && Maximal(a) && IsSplit(b, rows) && Maximal(b)
    ensures a == b
    decreases |a|
  {
    if a != [] && b != [] {
      assert rows[0..] == rows && rows[..|a[0]|] == a[0] && rows[..|b[0]|] == b[0];
      GreedyReaches(a, b[0], rows, 0);
      GreedyReaches(b, a[0], rows, 0);
      assert Flatten(a[1..]) == rows[|a[0]|..] && Flatten(b[1..]) == rows[|a[0]|..];
      TailOfMaximal(a);
      TailOfMaximal(b);
      MaximalIsUnique(a[1..], b[1..], rows[|a[0]|..]);
      assert a == [a[0]] + a[1..] && b == [b[0]] + b[1..];
    }
  }

  // ----- Aggregating one batch

  ghost predicate IsLatestVersion(version: int, batch: seq<EventSchema>) {
    && version >= 0
    && (forall i :: 0 <= i < |batch| ==> batch[i].version <= version)
    && (version > 0 ==> exists i :: 0 <= i < |batch| && batch[i].version == version)
  }

  ghost predicate IsLatestUpdate(at: int, batch: seq<EventSchema>) {
    && at >= 0
    && (forall i :: 0 <= i < |batch| ==> batch[i].updatedAt <= at)
    && (at > 0 ==> exists i :: 0 <= i < |batch| && batch[i].updatedAt == at)
  }

  ghost predicate IsEarliestCreation(at: int, batch: seq<EventSchema>) {
    && (forall i :: 0 <= i < |batch| ==> at <= batch[i].createdAt)
    && (exists i :: 0 <= i < |batch| && batch[i].createdAt == at)
  }

  predicate VerifiedAtTime(row: EventSchema) { row.trustTier == Verified && row.verifiedAt.Some? }

  ghost predicate IsLatestVerification(at: Option<int>, batch: seq<EventSchema>) {
    match at
    case None => forall i :: 0 <= i < |batch| ==> batch[i].trustTier != Verified || batch[i].verifiedAt.None?
    case Some(t) =>
      && (forall i :: 0 <= i < |batch| && batch[i].trustTier == Verified && batch[i].verifiedAt.Some? ==> batch[i].verifiedAt.value <= t)
      && (exists i :: 0 <= i < |batch| && batch[i].trustTier == Verified && batch[i].verifiedAt == Some(t))
  }

  /** The trimmed author of the first row that has one. */
  function FirstAuthor(batch: seq<EventSchema>): string {
    if batch == [] then ""
    else if batch[0].author.Some? && TrimSpace(batch[0].author.value) != "" then TrimSpace(batch[0].author.value)
    else FirstAuthor(batch[1..])
  }

  lemma {:induction false} FirstAuthorAppend(batch: seq<EventSchema>, row: EventSchema)
    ensures FirstAuthor(batch + [row]) == if FirstAuthor(batch) != "" then FirstAuthor(batch) else FirstAuthor([row])
  {
    if batch != [] {
      assert (batch + [row])[1..] == batch[1..] + [row];
      FirstAuthorAppend(batch[1..], row);
    }
  }

  ghost predicate AnyVerified(batch: seq<EventSchema>) {
    exists i :: 0 <= i < |batch| && batch[i].trustTier == Verified
  }

  predicate IsBeforeZero(row: EventSchema) { row.createdAt < 0 }

  /** The rows behind the last one of zero time, which reads as "not set yet"; all of them if there is none. */
  function AfterZero(batch: seq<EventSchema>): seq<EventSchema> {
    if batch == [] || batch[|batch| - 1].createdAt == 0 then []
    else AfterZero(batch[..|batch| - 1]) + [batch[|batch| - 1]]
  }

  /** The rows' extremes, the first author, and verified as soon as one row is. */
  ghost predicate IsBundleOf(bundle: Bundle, batch: seq<EventSchema>) {
    && bundle.events == batch
    && IsLatestVersion(bundle.version, batch)
    && IsLatestUpdate(bundle.updatedAt, batch)
    && IsCreation(bundle.createdAt, batch)
    && bundle.author == FirstAuthor(batch)
    && (bundle.trustTier == Verified <==> AnyVerified(batch))
    && IsLatestVerification(bundle.verifiedAt, batch)
  }

  /** The earliest creation behind the last row of zero time, or the zero time if there is no row there; with a row from before
      the zero time it is the earliest of all. */
  ghost predicate IsCreation(at: int, batch: seq<EventSchema>) {
    if exists i :: 0 <= i < |batch| && IsBeforeZero(batch[i]) then IsEarliestCreation(at, batch)
    else if AfterZero(batch) == [] then at == 0
    else IsEarliestCreation(at, AfterZero(batch))
  }

  /** Without rows of zero time or before it is the earliest creation. */
  lemma {:induction false} CreationIsEarliest(at: int, batch: seq<EventSchema>)
    requires IsCreation(at, batch) && batch != [] && forall i :: 0 <= i < |batch| ==> batch[i].createdAt != 0
    ensures IsEarliestCreation(at, batch)
  {
    NothingCut(batch);
  }

  lemma {:induction false} NothingCut(batch: seq<EventSchema>)
    requires forall i :: 0 <= i < |batch| ==> batch[i].createdAt != 0
    ensures AfterZero(batch) == batch
  {
    if batch != [] {
      NothingCut(batch[..|batch| - 1]);
    }
  }

  method FinalizeBundle(batch: seq<EventSchema>) returns (bundle: Bundle)
    ensures IsBundleOf(bundle, batch)
  {
    bundle := Bundle(0, Community, "", 0, 0, None, []);
    for k := 0 to |batch|
      invariant IsBundleOf(bundle, batch[..k])
    {
      AbsorbNext(bundle, batch, k);
      bundle := Absorb(bundle, batch[k]);
    }
    assert batch[..|batch|] == batch;
  }

  lemma AbsorbNext(bundle: Bundle, batch: seq<EventSchema>, k: nat)
    requires k < |batch| && IsBundleOf(bundle, batch[..k])
    ensures IsBundleOf(Absorb(bundle, batch[k]), batch[..k + 1])
  {
    AbsorbStep(bundle, batch[..k], batch[k]);
    assert batch[..k + 1] == batch[..k] + [batch[k]];
  }

  /** One turn of the aggregation loop. */
  function Absorb(bundle: Bundle, row: EventSchema): Bundle {
    Bundle(
      if row.version > bundle.version then row.version else bundle.version,
      if row.trustTier == Verified then Verified else bundle.trustTier,
      if row.author.Some? && TrimSpace(row.author.value) != "" && bundle.author == ""
      then TrimSpace(row.author.value) else bundle.author,
      if bundle.createdAt == 0 || row.createdAt < bundle.createdAt then row.createdAt else bundle.createdAt,
      if row.updatedAt > bundle.updatedAt then row.updatedAt else bundle.updatedAt,
      if VerifiedAtTime(row) && (bundle.verifiedAt.None? || row.verifiedAt.value > bundle.verifiedAt.value)
      then row.verifiedAt else bundle.verifiedAt,
      bundle.events + [row])
  }

  lemma AbsorbStep(bundle: Bundle, batch: seq<EventSchema>, row: EventSchema)
    requires IsBundleOf(bundle, batch)
    ensures IsBundleOf(Absorb(bundle, row), batch + [row])
  {
    FirstAuthorAppend(batch, row);
    VersionStep(bundle.version, batch, row);
    UpdateStep(bundle.updatedAt, batch, row);
    CreationStep(bundle.createdAt, batch, row);
    VerificationStep(bundle.trustTier, bundle.verifiedAt, batch, row);
  }

  lemma VersionStep(version: int, batch: seq<EventSchema>, row: EventSchema)
    requires IsLatestVersion(version, batch)
    ensures IsLatestVersion(if row.version > version then row.version else version, batch + [row])
  {
    var all := batch + [row];
    assert all[|batch|] == row;
    if version > 0 {
      var i :| 0 <= i < |batch| && batch[i].version == version;
      assert all[i].version == version;
    }
  }

  lemma UpdateStep(at: int, batch: seq<EventSchema>, row: EventSchema)
    requires IsLatestUpdate(at, batch)
    ensures IsLatestUpdate(if row.updatedAt > at then row.updatedAt else at, batch + [row])
  {
    var all := batch + [row];
    assert all[|batch|] == row;
    if at > 0 {
      var i :| 0 <= i < |batch| && batch[i].updatedAt == at;
      assert all[i].updatedAt == at;
    }
  }

  lemma AfterZeroAppend(batch: seq<EventSchema>, row: EventSchema)
    ensures AfterZero(batch + [row]) == if row.createdAt == 0 then [] else AfterZero(batch) + [row]
  {
    assert (batch + [row])[..|batch|] == batch;
  }

  lemma {:induction false} AfterZeroIsPart(batch: seq<EventSchema>)
    ensures forall i :: 0 <= i < |AfterZero(batch)| ==> AfterZero(batch)[i] in batch && AfterZero(batch)[i].createdAt != 0
  {
    if batch != [] {
      AfterZeroIsPart(batch[..|batch| - 1]);
    }
  }

  lemma EarliestStep(at: int, rows: seq<EventSchema>, row: EventSchema)
    requires IsEarliestCreation(at, rows)
    ensures IsEarliestCreation(if row.createdAt < at then row.createdAt else at, rows + [row])
  {
    var all := rows + [row];
    var i :| 0 <= i < |rows| && rows[i].createdAt == at;
    assert all[|rows|] == row && all[i].createdAt == at;
  }

  /** The first row from before the zero time is earlier than all rows so far. */
  lemma BeforeZeroStep(at: int, batch: seq<EventSchema>, row: EventSchema)
    requires IsBeforeZero(row) && forall i :: 0 <= i < |batch| ==> !IsBeforeZero(batch[i])
    requires IsCreation(at, batch)
    ensures at >= 0 && IsEarliestCreation(row.createdAt, batch + [row])
  {
    AfterZeroIsPart(batch);
    assert (batch + [row])[|batch|] == row;
  }

  lemma CreationStep(at: int, batch: seq<EventSchema>, row: EventSchema)
    requires IsCreation(at, batch)
    ensures IsCreation(if at == 0 || row.createdAt < at then row.createdAt else at, batch + [row])
  {
    var all := batch + [row];
    assert all[|batch|] == row && forall i :: 0 <= i < |batch| ==> all[i] == batch[i];
    if i :| 0 <= i < |batch| && IsBeforeZero(batch[i]) {
      assert IsBeforeZero(all[i]);
      EarliestStep(at, batch, row);
    } else if IsBeforeZero(row) {
      assert IsBeforeZero(all[|batch|]);
      BeforeZeroStep(at, batch, row);
    } else {
      CreationBehindZero(at, batch, row);
    }
  }

  lemma CreationBehindZero(at: int, batch: seq<EventSchema>, row: EventSchema)
    requires IsCreation(at, batch) && forall i :: 0 <= i < |batch + [row]| ==> !IsBeforeZero((batch + [row])[i])
    ensures IsCreation(if at == 0 || row.createdAt < at then row.createdAt else at, batch + [row])
  {
    AfterZeroAppend(batch, row);
    AfterZeroIsPart(batch);
    assert (batch + [row])[|batch|] == row && forall i :: 0 <= i < |batch| ==> (batch + [row])[i] == batch[i];
    if AfterZero(batch) != [] {
      EarliestStep(at, AfterZero(batch), row);
    } else if row.createdAt != 0 {
      assert AfterZero(batch + [row]) == [row];
    }
  }

  lemma VerificationStep(tier: TrustTier, at: Option<int>, batch: seq<EventSchema>, row: EventSchema)
    requires IsLatestVerification(at, batch) && (tier == Verified <==> AnyVerified(batch))
    ensures tier == Verified || row.trustTier == Verified <==> AnyVerified(batch + [row])
    ensures IsLatestVerification(
              if VerifiedAtTime(row) && (at.None? || row.verifiedAt.value > at.value) then row.verifiedAt else at, batch + [row])
  {
    var all := batch + [row];
    assert all[|batch|] == row;
    assert forall i :: 0 <= i < |batch| ==> all[i] == batch[i];
    if at.Some? {
      var i :| 0 <= i < |batch| && VerifiedAtTime(batch[i]) && batch[i].verifiedAt.value == at.value;
      assert VerifiedAtTime(all[i]);
    }
    if AnyVerified(batch) {
      var i :| 0 <= i < |batch| && batch[i].trustTier == Verified;
      assert all[i].trustTier == Verified;
    }
  }

  // ----- The whole grouping

  function Published(rows: seq<EventSchema>): seq<EventSchema> {
    if rows == [] then []
    else Published(rows[..|rows| - 1]) + (if rows[|rows| - 1].status == Status.Published then [rows[|rows| - 1]] else [])
  }

  function Events(bundles: seq<Bundle>): seq<seq<EventSchema>> {
    seq(|bundles|, i requires 0 <= i < |bundles| => bundles[i].events)
  }

  /** Highest version first; among equal versions the latest update first. */
  predicate ShownBefore(a: Bundle, b: Bundle) {
    if a.version == b.version then a.updatedAt > b.updatedAt else a.version > b.version
  }

  /** The bundles, in some order, are the maximal batches of the published rows by time of creation and, at equal times, by name. */
  ghost predicate IsGrouping(bundles: seq<Bundle>, published: seq<EventSchema>, ordered: seq<EventSchema>, batches: seq<seq<EventSchema>>) {
    && multiset(ordered) == multiset(published)
    && Sorting.Sorted(ordered, CreatedBefore)
    && IsSplit(batches, ordered) && Maximal(batches)
    && multiset(Events(bundles)) == multiset(batches)
  }

  lemma CreatedBeforeIsOrder()
    ensures Sorting.IsOrder(CreatedBefore)
  {
    forall a, b
      ensures CreatedBefore(a, b) ==> !CreatedBefore(b, a)
    {
      StringLessIsTotal(a.eventName, b.eventName);
    }
    forall a, b, c | !CreatedBefore(b, a) && !CreatedBefore(c, b)
      ensures !CreatedBefore(c, a)
    {
      StringLessIsTotal(a.eventName, b.eventName);
      StringLessIsTotal(b.eventName, c.eventName);
      if CreatedBefore(c, a) {
        if StringLess(c.eventName, a.eventName) && StringLess(a.eventName, b.eventName) {
          StringLessIsTransitive(c.eventName, a.eventName, b.eventName);
        }
      }
    }
  }

  ghost predicate AreBundles(bundles: seq<Bundle>) {
    forall b :: b in bundles ==> IsBundleOf(b, b.events)
  }

  method GroupIntoBundles(schemas: seq<EventSchema>) returns (out: seq<Bundle>)
    ensures AreBundles(out)
    ensures exists ordered, batches :: IsGrouping(out, Published(schemas), ordered, batches)
    ensures multiset(Flatten(Events(out))) == multiset(Published(schemas))
    ensures Sorting.Sorted(out, ShownBefore)
  {
    var published := FilterPublished(schemas);
    if published == [] {
      assert IsGrouping([], [], [], []);
      GroupingConserves([], [], [], []);
      return [];
    }
    CreatedBeforeIsOrder();
    var ordered := Sorting.Sort(published, CreatedBefore);
    SortedByCreation(ordered);
    var batches := CutBatches(ordered);
    var bundles := FinalizeAll(batches);
    out := Sorting.Sort(bundles, ShownBefore);
    SameEvents(bundles, out);
    assert IsGrouping(out, published, ordered, batches);
    GroupingConserves(out, published, ordered, batches);
    forall b | b in out
      ensures IsBundleOf(b, b.events)
    {
      Sorting.SameMembers(out, bundles, b);
    }
  }

  method FilterPublished(schemas: seq<EventSchema>) returns (published: seq<EventSchema>)
    ensures published == Published(schemas)
  {
    published := [];
    for i := 0 to |schemas|
      invariant published == Published(schemas[..i])
    {
      assert schemas[..i + 1][..i] == schemas[..i];
      if schemas[i].status == Status.Published {
        published := published + [schemas[i]];
      }
    }
    assert schemas[..|schemas|] == schemas;
  }

  method FinalizeAll(batches: seq<seq<EventSchema>>) returns (bundles: seq<Bundle>)
    ensures Events(bundles) == batches && AreBundles(bundles)
  {
    bundles := [];
    for i := 0 to |batches|
      invariant |bundles| == i && AreBundles(bundles)
      invariant forall k :: 0 <= k < i ==> bundles[k].events == batches[k]
    {
      var bundle := FinalizeBundle(batches[i]);
      bundles := bundles + [bundle];
    }
  }

  lemma SortedByCreation(rows: seq<EventSchema>)
    requires Sorting.Sorted(rows, CreatedBefore)
    ensures InTimeOrder(rows)
  {
    forall i, j | 0 <= i <= j < |rows|
      ensures rows[i].createdAt <= rows[j].createdAt
    {
      if i < j {
        assert !CreatedBefore(rows[j], rows[i]);
      }
    }
  }

  lemma EventsConcat(a: seq<Bundle>, b: seq<Bundle>)
    ensures Events(a + b) == Events(a) + Events(b)
  {}

  /** A permutation of the bundles is a permutation of their batches. */
  lemma {:induction false} SameEvents(a: seq<Bundle>, b: seq<Bundle>)
    requires multiset(a) == multiset(b)
    ensures multiset(Events(a)) == multiset(Events(b))
    decreases |a|
  {
    if a != [] {
      Sorting.SameMembers(a, b, a[0]);
      var k :| 0 <= k < |b| && b[k] == a[0];
      var rest := b[..k] + b[k + 1..];
      assert a == [a[0]] + a[1..];
      assert b == b[..k] + ([a[0]] + b[k + 1..]);
      Sorting.WithoutOne(b, k);
      assert multiset(a) == multiset{a[0]} + multiset(a[1..]);
      Sorting.CancelOne(multiset(rest), multiset(a[1..]), a[0]);
      SameEvents(a[1..], rest);
      EventsConcat([a[0]], a[1..]);
      EventsConcat(b[..k], [a[0]] + b[k + 1..]);
      EventsConcat([a[0]], b[k + 1..]);
      EventsConcat(b[..k], b[k + 1..]);
    } else {
      assert |b| == |multiset(b)| == 0;
    }
  }

  /** Nothing is lost or duplicated: the rows in the bundles are the published rows. */
  lemma GroupingConserves(bundles: seq<Bundle>, published: seq<EventSchema>, ordered: seq<EventSchema>, batches: seq<seq<EventSchema>>)
    requires IsGrouping(bundles, published, ordered, batches)
    ensures multiset(Flatten(Events(bundles))) == multiset(published)
  {
    FlattenPermutes(Events(bundles), batches);
  }

  lemma {:induction false} FlattenPermutes(a: seq<seq<EventSchema>>, b: seq<seq<EventSchema>>)
    requires multiset(a) == multiset(b)
    ensures multiset(Flatten(a)) == multiset(Flatten(b))
    decreases |a|
  {
    if a != [] {
      assert a[0] in multiset(b);
      var k :| 0 <= k < |b| && b[k] == a[0];
      var rest := b[..k] + b[k + 1..];
      assert a == [a[0]] + a[1..];
      assert b == b[..k] + ([a[0]] + b[k + 1..]);
      Sorting.WithoutOne(b, k);
      assert multiset(a) == multiset{a[0]} + multiset(a[1..]);
      Sorting.CancelOne(multiset(rest), multiset(a[1..]), a[0]);
      FlattenPermutes(a[1..], rest);
      FlattenConcat(b[..k], [a[0]] + b[k + 1..]);
      FlattenConcat(b[..k], b[k + 1..]);
      assert ([a[0]] + b[k + 1..])[1..] == b[k + 1..];
    } else {
      assert |b| == |multiset(b)| == 0;
    }
  }

  lemma {:induction false} FlattenConcat(a: seq<seq<EventSchema>>, b: seq<seq<EventSchema>>)
    ensures Flatten(a + b) == Flatten(a) + Flatten(b)
  {
    if a == [] {
      assert a + b == b;
    } else {
      assert (a + b)[1..] == a[1..] + b;
      FlattenConcat(a[1..], b);
    }
  }

  /** No other split of those rows, taken in that order, into batches gives fewer bundles. */
  lemma GroupingIsOptimal(
    bundles: seq<Bundle>, published: seq<EventSchema>, ordered: seq<EventSchema>, batches: seq<seq<EventSchema>>,
    other: seq<seq<EventSchema>>)
    requires IsGrouping(bundles, published, ordered, batches) && IsSplit(other, ordered)
    ensures |bundles| <= |other|
  {
    assert |multiset(Events(bundles))| == |multiset(batches)|;
    SortedByCreation(ordered);
    GreedyIsOptimal(batches, other, ordered);
  }

  /** The first bundle with the version asked for; with the display order, the latest updated of them. */
  method FindBundleByVersion(bundles: seq<Bundle>, version: int) returns (found: Option<nat>)
    ensures match found
            case None => forall i :: 0 <= i < |bundles| ==> bundles[i].version != version
            case Some(k) =>
              && k < |bundles| && bundles[k].version == version
              && (Sorting.Sorted(bundles, ShownBefore) ==>
                    forall i :: 0 <= i < |bundles| && bundles[i].version == version ==> bundles[i].updatedAt <= bundles[k].updatedAt)
  {
    for i := 0 to |bundles|
      invariant forall k :: 0 <= k < i ==> bundles[k].version != version
    {
      if bundles[i].version == version {
        assert Sorting.Sorted(bundles, ShownBefore) ==> forall k :: i < k < |bundles| ==> !ShownBefore(bundles[k], bundles[i]);
        return Some(i);
      }
    }
    return None;
  }

  // ----- The grouping in terms of the rows

  /** Exactly the published rows are grouped, each as often as it is there. */
  lemma {:induction false} PublishedAre(rows: seq<EventSchema>)
    ensures forall row :: multiset(Published(rows))[row] == if row.status == Status.Published then multiset(rows)[row] else 0
  {
    if rows != [] {
      PublishedAre(rows[..|rows| - 1]);
      assert rows == rows[..|rows| - 1] + [rows[|rows| - 1]];
    }
  }

  /** The first row with an author that is not blank names the author. */
  lemma {:induction false} FirstAuthorIs(batch: seq<EventSchema>)
    ensures (FirstAuthor(batch) == "" && forall i :: 0 <= i < |batch| ==> IsAnonymous(batch[i]))
            || exists i :: 0 <= i < |batch| && !IsAnonymous(batch[i]) && FirstAuthor(batch) == TrimSpace(batch[i].author.value)
                           && forall k :: 0 <= k < i ==> IsAnonymous(batch[k])
  {
    if batch != [] && IsAnonymous(batch[0]) {
      FirstAuthorIs(batch[1..]);
      if i :| 0 <= i < |batch| - 1 && !IsAnonymous(batch[1..][i]) && FirstAuthor(batch[1..]) == TrimSpace(batch[1..][i].author.value)
              && forall k :: 0 <= k < i ==> IsAnonymous(batch[1..][k]) {
        assert batch[i + 1] == batch[1..][i];
        assert forall k :: 0 < k < i + 1 ==> batch[k] == batch[1..][k - 1];
      }
    }
  }

  predicate IsAnonymous(row: EventSchema) { row.author.None? || TrimSpace(row.author.value) == "" }

  /** The publisher's id without the spaces around it; rows without a publisher belong together. */
  function Owner(row: EventSchema): string {
    if row.publisherUserID.Some? then TrimSpace(row.publisherUserID.value) else ""
  }

  /** The first row of the next batch belongs to another publisher, or comes more than thirty seconds after the first of this one. */
  predicate IsNewWindow(batch: seq<EventSchema>, next: seq<EventSchema>) {
    batch != [] && next != []
    && (Owner(next[0]) != Owner(batch[0]) || next[0].createdAt - batch[0].createdAt > 30_000_000_000)
  }

  /** The rows are taken by time of creation and, at equal times, by event name; each batch belongs to one publisher and spans thirty
      seconds from its first row; the first row behind it belongs to another, or is later than that. */
  lemma BatchesAreWindows(bundles: seq<Bundle>, published: seq<EventSchema>, ordered: seq<EventSchema>, batches: seq<seq<EventSchema>>)
    requires IsGrouping(bundles, published, ordered, batches)
    ensures multiset(ordered) == multiset(published) && Flatten(batches) == ordered
    ensures forall i, j :: 0 <= i < j < |ordered| ==>
              ordered[i].createdAt < ordered[j].createdAt
              || (ordered[i].createdAt == ordered[j].createdAt && !StringLess(ordered[j].eventName, ordered[i].eventName))
    ensures forall b, i :: 0 <= b < |batches| && 0 <= i < |batches[b]| ==>
              Owner(batches[b][i]) == Owner(batches[b][0])
              && 0 <= batches[b][i].createdAt - batches[b][0].createdAt <= 30_000_000_000
    ensures forall b :: 0 < b < |batches| ==> IsNewWindow(batches[b - 1], batches[b])
  {
    forall i, j | 0 <= i < j < |ordered|
      ensures ordered[i].createdAt < ordered[j].createdAt
              || (ordered[i].createdAt == ordered[j].createdAt && !StringLess(ordered[j].eventName, ordered[i].eventName))
    {
      assert !CreatedBefore(ordered[j], ordered[i]);
    }
    SortedByCreation(ordered);
    forall b, i | 0 <= b < |batches| && 0 <= i < |batches[b]|
      ensures Owner(batches[b][i]) == Owner(batches[b][0])
              && 0 <= batches[b][i].createdAt - batches[b][0].createdAt <= 30_000_000_000
    {
      assert OneBatch(batches[b]);
      BatchInOrder(batches, b);
    }
    forall b | 0 < b < |batches|
      ensures IsNewWindow(batches[b - 1], batches[b])
    {
      assert OneBatch(batches[b - 1]) && OneBatch(batches[b]);
      assert batches[b - 1 + 1] == batches[b];
      ExtendedBatch(batches[b - 1], batches[b][0]);
    }
  }

  lemma {:induction false} BatchInOrder(batches: seq<seq<EventSchema>>, b: nat)
    requires b < |batches| && InTimeOrder(Flatten(batches))
    ensures InTimeOrder(batches[b])
  {
    var all := Flatten(batches);
    assert all == batches[0] + Flatten(batches[1..]);
    if b == 0 {
      assert forall i :: 0 <= i < |batches[0]| ==> all[i] == batches[0][i];
    } else {
      assert forall i :: 0 <= i < |Flatten(batches[1..])| ==> all[|batches[0]| + i] == Flatten(batches[1..])[i];
      BatchInOrder(batches[1..], b - 1);
    }
  }

  /** The bundles are shown by version, the highest first, and at equal versions by their last update, the latest first. */
  lemma ShownInOrder(out: seq<Bundle>)
    requires Sorting.Sorted(out, ShownBefore)
    ensures forall i, j :: 0 <= i < j < |out| ==>
              out[i].version > out[j].version || (out[i].version == out[j].version && out[i].updatedAt >= out[j].updatedAt)
  {
    forall i, j | 0 <= i < j < |out|
      ensures out[i].version > out[j].version || (out[i].version == out[j].version && out[i].updatedAt >= out[j].updatedAt)
    {
      assert !ShownBefore(out[j], out[i]);
    }
  }
}
