/** internal/module/registry/service/verify_service.go: what a publisher sees as verifiable, and the verification call. */
module Publications {
  import opened Prelude
  import opened SchemaModel
  import opened Registry
  import opened Text
  import opened PublishProtocol
  import Sorting

  datatype ContractKey = ContractKey(contractID: string, network: string)

  datatype VersionSummary = VersionSummary(id: string, version: int, trustTier: TrustTier, status: Status, createdAt: int)

  datatype VerifiedSummary = VerifiedSummary(id: string, version: int, wallet: string, at: int)

  datatype EventPublication = EventPublication(
    eventName: string,
    latestCommunity: Option<VersionSummary>,
    verified: Option<VerifiedSummary>,
    versions: seq<VersionSummary>)

  datatype ContractPublication = ContractPublication(
    contractID: string,
    network: string,
    events: seq<EventPublication>,
    canVerify: bool)

  function KeyOf(row: EventSchema): ContractKey { ContractKey(row.contractID, row.network) }

  function Summary(row: EventSchema): VersionSummary {
    VersionSummary(row.id, row.version, row.trustTier, row.status, row.createdAt)
  }

  function VerifiedOf(row: EventSchema): VerifiedSummary {
    VerifiedSummary(row.id, row.version,
                    if row.verifiedWallet.Some? then row.verifiedWallet.value else "",
                    if row.verifiedAt.Some? then row.verifiedAt.value else 0)
  }

  /** The rows of one event of one contract, in order. */
  function RowsOf(rows: seq<EventSchema>, key: ContractKey, eventName: string): seq<EventSchema> {
    if rows == [] then []
    else
      var row := rows[|rows| - 1];
      RowsOf(rows[..|rows| - 1], key, eventName) + (if KeyOf(row) == key && row.eventName == eventName then [row] else [])
  }

  /** The first published row of the tier that no other such row exceeds in version. */
  function Latest(rows: seq<EventSchema>, tier: TrustTier): Option<EventSchema> {
    if rows == [] then None
    else
      var best := Latest(rows[..|rows| - 1], tier);
      var row := rows[|rows| - 1];
      if row.trustTier == tier && row.status == Status.Published && (best.None? || row.version > best.value.version)
      then Some(row) else best
  }

  function MapOption<T, U>(o: Option<T>, f: T -> U): Option<U> {
    match o
    case None => None
    case Some(v) => Some(f(v))
  }

  function Summaries(rows: seq<EventSchema>): seq<VersionSummary> {
    seq(|rows|, i requires 0 <= i < |rows| => Summary(rows[i]))
  }

  function PublicationOf(eventName: string, rows: seq<EventSchema>): EventPublication {
    EventPublication(eventName, MapOption(Latest(rows, Community), Summary), MapOption(Latest(rows, Verified), VerifiedOf),
                     Summaries(rows))
  }

  predicate Verifiable(event: EventPublication) {
    event.latestCommunity.Some? && (event.verified.None? || event.verified.value.version < event.latestCommunity.value.version)
  }

  function EventNames(events: seq<EventPublication>): seq<string> {
    seq(|events|, i requires 0 <= i < |events| => events[i].eventName)
  }

  /** The event is shown as its rows say, and it has rows. */
  ghost predicate Shows(event: EventPublication, rows: seq<EventSchema>, key: ContractKey) {
    var own := RowsOf(rows, key, event.eventName);
    own != [] && event == PublicationOf(event.eventName, own)
  }

  ghost predicate AnyVerifiable(events: seq<EventPublication>) { exists i :: 0 <= i < |events| && Verifiable(events[i]) }

  ghost predicate ListsAll(names: seq<string>, rows: seq<EventSchema>, key: ContractKey) {
    forall row :: row in rows && KeyOf(row) == key ==> row.eventName in names
  }

  /** The events with rows, each once and sorted by name, as their rows say, and the flag the publisher is shown. */
  ghost predicate IsPublication(p: ContractPublication, rows: seq<EventSchema>) {
    var key, names := Shown(p), EventNames(p.events);
    && (forall i :: 0 <= i < |p.events| ==> Shows(p.events[i], rows, key))
    && Distinct(names) && Sorting.Sorted(names, StringLess) && ListsAll(names, rows, key)
    && p.canVerify == AnyVerifiable(p.events)
  }

  function Shown(p: ContractPublication): ContractKey { ContractKey(p.contractID, p.network) }

  /** The contracts of the rows, in order of their first row. */
  function FirstKeys(rows: seq<EventSchema>): seq<ContractKey> {
    if rows == [] then []
    else
      var before, key := FirstKeys(rows[..|rows| - 1]), KeyOf(rows[|rows| - 1]);
      if key in before then before else before + [key]
  }

  /** Each contract of the rows is there once, and further rows only add contracts behind. */
  lemma {:induction false} FirstKeysAreKeys(rows: seq<EventSchema>)
    ensures Distinct(FirstKeys(rows)) && forall key :: key in FirstKeys(rows) <==> exists i :: 0 <= i < |rows| && KeyOf(rows[i]) == key
    ensures forall n :: 0 <= n <= |rows| ==> FirstKeys(rows[..n]) <= FirstKeys(rows)
  {
    if rows != [] {
      var before := rows[..|rows| - 1];
      FirstKeysAreKeys(before);
      forall n | 0 <= n <= |rows|
        ensures FirstKeys(rows[..n]) <= FirstKeys(rows)
      {
        if n < |rows| {
          assert before[..n] == rows[..n];
        } else {
          assert rows[..n] == rows;
        }
      }
      forall key
        ensures key in FirstKeys(rows) <==> exists i :: 0 <= i < |rows| && KeyOf(rows[i]) == key
      {
        if i :| 0 <= i < |rows| && KeyOf(rows[i]) == key {
          assert i < |before| ==> before[i] == rows[i];
        }
        if key in FirstKeys(before) {
          var i :| 0 <= i < |before| && KeyOf(before[i]) == key;
          assert rows[i] == before[i];
        }
      }
    }
  }

  /** Publications of exactly these contracts, in this order. */
  ghost predicate ArePublications(out: seq<ContractPublication>, keys: seq<ContractKey>, rows: seq<EventSchema>) {
    |out| == |keys| && forall i :: 0 <= i < |out| ==> IsPublicationOf(out[i], keys[i], rows)
  }

  ghost predicate IsPublicationOf(p: ContractPublication, key: ContractKey, rows: seq<EventSchema>) {
    Shown(p) == key && IsPublication(p, rows)
  }

  type Grouped = map<ContractKey, map<string, seq<EventSchema>>>

  /** The rows of one contract, split by event. */
  ghost predicate IsSplit(events: map<string, seq<EventSchema>>, rows: seq<EventSchema>, key: ContractKey) {
    && (forall e :: e in events ==> events[e] != [] && events[e] == RowsOf(rows, key, e))
    && (forall row :: row in rows && KeyOf(row) == key ==> row.eventName in events)
  }

  /** The nested maps hold the rows seen so far, split by contract and event. */
  ghost predicate IsGrouped(g: Grouped, rows: seq<EventSchema>) {
    && (forall key :: key in g ==> IsSplit(g[key], rows, key))
    && (forall row :: row in rows ==> KeyOf(row) in g)
  }

  ghost predicate Distinct<T(!new)>(s: seq<T>) { forall i, j :: 0 <= i < j < |s| ==> s[i] != s[j] }

  method BuildContractPublications(schemas: seq<EventSchema>) returns (out: seq<ContractPublication>)
    ensures ArePublications(out, FirstKeys(schemas), schemas)
  {
    var eventsByContract, contractOrder := GroupByContract(schemas);
    out := [];
    for i := 0 to |contractOrder|
      invariant ArePublications(out, contractOrder[..i], schemas)
    {
      var key := contractOrder[i];
      var publication := BuildOne(key, eventsByContract[key], schemas);
      OneMore(out, contractOrder, i, publication, schemas);
      out := out + [publication];
    }
    assert contractOrder[..|contractOrder|] == contractOrder;
  }

  lemma OneMore(out: seq<ContractPublication>, keys: seq<ContractKey>, i: nat, p: ContractPublication, rows: seq<EventSchema>)
    requires i < |keys| && ArePublications(out, keys[..i], rows) && IsPublicationOf(p, keys[i], rows)
    ensures ArePublications(out + [p], keys[..i + 1], rows)
  {}

  /** The order lists the contracts there are. */
  ghost predicate IsOrderOf(order: seq<ContractKey>, keys: set<ContractKey>, rows: seq<EventSchema>) {
    order == FirstKeys(rows) && forall key :: key in order <==> key in keys
  }

  method GroupByContract(schemas: seq<EventSchema>) returns (g: Grouped, order: seq<ContractKey>)
    ensures IsGrouped(g, schemas) && IsOrderOf(order, g.Keys, schemas)
  {
    g, order := map[], [];
    for i := 0 to |schemas|
      invariant IsGrouped(g, schemas[..i]) && IsOrderOf(order, g.Keys, schemas[..i])
    {
      var row := schemas[i];
      var key := KeyOf(row);
      ghost var before := g.Keys;
      OrderStep(order, g.Keys, schemas, i);
      if key !in g {
        NoRowsYet(g, schemas[..i], key);
        g := g[key := map[]];
        order := order + [key];
      }
      assert g.Keys == before + {key};
      var sofar := if row.eventName in g[key] then g[key][row.eventName] else [];
      GroupStep(g, schemas, i);
      g := g[key := g[key][row.eventName := sofar + [row]]];
    }
    assert schemas[..|schemas|] == schemas;
  }

  lemma OrderStep(order: seq<ContractKey>, keys: set<ContractKey>, rows: seq<EventSchema>, i: nat)
    requires i < |rows| && IsOrderOf(order, keys, rows[..i])
    ensures var key := KeyOf(rows[i]);
            IsOrderOf(if key in keys then order else order + [key], keys + {key}, rows[..i + 1])
  {
    assert rows[..i + 1][..i] == rows[..i];
  }

  lemma {:induction false} NoRowsOf(rows: seq<EventSchema>, key: ContractKey, e: string)
    requires forall row :: row in rows ==> KeyOf(row) != key || row.eventName != e
    ensures RowsOf(rows, key, e) == []
  {
    if rows != [] {
      NoRowsOf(rows[..|rows| - 1], key, e);
    }
  }

  lemma RowsOfAppend(rows: seq<EventSchema>, row: EventSchema, key: ContractKey, e: string)
    ensures RowsOf(rows + [row], key, e) == RowsOf(rows, key, e) + if KeyOf(row) == key && row.eventName == e then [row] else []
  {
    assert (rows + [row])[..|rows|] == rows;
  }

  lemma NoRowsYet(g: Grouped, rows: seq<EventSchema>, key: ContractKey)
    requires IsGrouped(g, rows) && key !in g
    ensures IsGrouped(g[key := map[]], rows)
  {}

  lemma SplitStep(events: map<string, seq<EventSchema>>, rows: seq<EventSchema>, row: EventSchema)
    requires IsSplit(events, rows, KeyOf(row))
    ensures var e := row.eventName;
            IsSplit(events[e := (if e in events then events[e] else []) + [row]], rows + [row], KeyOf(row))
  {
    var key, e := KeyOf(row), row.eventName;
    var events' := events[e := (if e in events then events[e] else []) + [row]];
    if e !in events {
      NoRowsOf(rows, key, e);
    }
    forall f | f in events'
      ensures events'[f] != [] && events'[f] == RowsOf(rows + [row], key, f)
    {
      RowsOfAppend(rows, row, key, f);
    }
  }

  lemma SplitStays(events: map<string, seq<EventSchema>>, rows: seq<EventSchema>, row: EventSchema, key: ContractKey)
    requires IsSplit(events, rows, key) && key != KeyOf(row)
    ensures IsSplit(events, rows + [row], key)
  {
    forall f | f in events
      ensures events[f] == RowsOf(rows + [row], key, f)
    {
      RowsOfAppend(rows, row, key, f);
    }
  }

  lemma GroupStep(g: Grouped, rows: seq<EventSchema>, i: nat)
    requires i < |rows| && IsGrouped(g, rows[..i]) && KeyOf(rows[i]) in g
    ensures var key, e := KeyOf(rows[i]), rows[i].eventName;
            var sofar := if e in g[key] then g[key][e] else [];
            IsGrouped(g[key := g[key][e := sofar + [rows[i]]]], rows[..i + 1])
  {
    var row := rows[i];
    var key := KeyOf(row);
    assert rows[..i + 1] == rows[..i] + [row];
    SplitStep(g[key], rows[..i], row);
    var g' := g[key := g[key][row.eventName := (if row.eventName in g[key] then g[key][row.eventName] else []) + [row]]];
    forall k | k in g'
      ensures IsSplit(g'[k], rows[..i + 1], k)
    {
      if k != key {
        SplitStays(g[k], rows[..i], row, k);
      }
    }
  }

  method BuildOne(key: ContractKey, eventMap: map<string, seq<EventSchema>>, ghost schemas: seq<EventSchema>)
    returns (publication: ContractPublication)
    requires IsSplit(eventMap, schemas, key)
    ensures IsPublicationOf(publication, key, schemas)
  {
    var eventNames := SortedNames(eventMap.Keys);
    var events := [];
    var canVerify := false;
    for i := 0 to |eventNames|
      invariant AreShown(events, eventNames[..i], schemas, key)
      invariant canVerify == AnyVerifiable(events)
    {
      assert eventNames[i] in eventNames;
      var event := PublishEvent(eventNames[i], eventMap[eventNames[i]]);
      OneMoreEvent(events, eventNames, i, event, schemas, key);
      OneMoreVerifiable(events, event);
      canVerify := canVerify || Verifiable(event);
      events := events + [event];
    }
    assert eventNames[..|eventNames|] == eventNames;
    publication := ContractPublication(key.contractID, key.network, events, canVerify);
  }

  /** These events, under these names, each as its rows say. */
  ghost predicate AreShown(events: seq<EventPublication>, names: seq<string>, rows: seq<EventSchema>, key: ContractKey) {
    EventNames(events) == names && forall i :: 0 <= i < |events| ==> Shows(events[i], rows, key)
  }

  lemma OneMoreEvent(events: seq<EventPublication>, names: seq<string>, i: nat, event: EventPublication, rows: seq<EventSchema>,
                     key: ContractKey)
    requires i < |names| && AreShown(events, names[..i], rows, key) && event.eventName == names[i] && Shows(event, rows, key)
    ensures AreShown(events + [event], names[..i + 1], rows, key)
  {
    NamesAppend(events, event);
    assert names[..i + 1] == names[..i] + [names[i]];
    var events' := events + [event];
    forall k | 0 <= k < |events'|
      ensures Shows(events'[k], rows, key)
    {
      assert k < |events| ==> events'[k] == events[k];
    }
  }

  lemma NamesAppend(events: seq<EventPublication>, event: EventPublication)
    ensures EventNames(events + [event]) == EventNames(events) + [event.eventName]
  {}

  lemma OneMoreVerifiable(events: seq<EventPublication>, event: EventPublication)
    ensures AnyVerifiable(events + [event]) == (AnyVerifiable(events) || Verifiable(event))
  {
    if AnyVerifiable(events) {
      var i :| 0 <= i < |events| && Verifiable(events[i]);
      assert (events + [event])[i] == events[i];
    }
    assert (events + [event])[|events|] == event;
  }

  method SortedNames(names: set<string>) returns (sorted: seq<string>)
    ensures Sorting.Sorted(sorted, StringLess) && Distinct(sorted) && forall n :: n in sorted <==> n in names
  {
    var todo := names;
    var listed := [];
    while todo != {}
      invariant todo <= names
      invariant multiset(listed) == multiset(names - todo)
      decreases todo
    {
      var n :| n in todo;
      assert names - (todo - {n}) == names - todo + {n};
      listed := listed + [n];
      todo := todo - {n};
    }
    assert names - todo == names;
    StringLessIsOrder();
    sorted := Sorting.Sort(listed, StringLess);
    DistinctMembers(sorted, names);
  }

  lemma DistinctMembers(s: seq<string>, names: set<string>)
    requires multiset(s) == multiset(names)
    ensures Distinct(s) && forall n :: n in s <==> n in names
  {
    forall i, j | 0 <= i < j < |s|
      ensures s[i] != s[j]
    {
      assert multiset(names)[s[i]] <= 1;
      CountedTwice(s, i, j);
    }
    forall n
      ensures n in s <==> n in names
    {
      assert n in multiset(s) <==> n in multiset(names);
    }
  }

  lemma CountedTwice(s: seq<string>, i: nat, j: nat)
    requires i < j < |s|
    ensures s[i] == s[j] ==> multiset(s)[s[i]] >= 2
  {
    assert s == s[..i] + [s[i]] + s[i + 1..j] + [s[j]] + s[j + 1..];
  }

  lemma StringLessIsOrder()
    ensures Sorting.IsOrder(StringLess)
  {
    forall a, b
      ensures StringLess(a, b) ==> !StringLess(b, a)
    {
      StringLessIsTotal(a, b);
    }
    forall a, b, c | !StringLess(b, a) && !StringLess(c, b)
      ensures !StringLess(c, a)
    {
      StringLessIsTotal(a, b);
      StringLessIsTotal(b, c);
      if StringLess(c, a) && StringLess(a, b) {
        StringLessIsTransitive(c, a, b);
      }
    }
  }

  method PublishEvent(eventName: string, versions: seq<EventSchema>) returns (event: EventPublication)
    ensures event == PublicationOf(eventName, versions)
  {
    var summaries: seq<VersionSummary> := [];
    var latestCommunity: Option<VersionSummary> := None;
    var verified: Option<VerifiedSummary> := None;
    for i := 0 to |versions|
      invariant summaries == Summaries(versions[..i])
      invariant latestCommunity == MapOption(Latest(versions[..i], Community), Summary)
      invariant verified == MapOption(Latest(versions[..i], Verified), VerifiedOf)
    {
      var version := versions[i];
      assert versions[..i + 1][..i] == versions[..i];
      summaries := summaries + [Summary(version)];
      if version.trustTier == Community && version.status == Status.Published {
        if latestCommunity.None? || version.version > latestCommunity.value.version {
          latestCommunity := Some(Summary(version));
        }
      }
      if version.trustTier == Verified && version.status == Status.Published {
        if verified.None? || version.version > verified.value.version {
          verified := Some(VerifiedOf(version));
        }
      }
    }
    assert versions[..|versions|] == versions;
    event := EventPublication(eventName, latestCommunity, verified, summaries);
  }

  // ----- The listing and the transaction agree

  /** What ListPublishedByPublisher returns: the publisher's published rows, in any order. */
  ghost predicate IsListing(rows: seq<EventSchema>, t: Table, publisher: string) {
    forall row :: row in rows <==>
                  row.id in t && t[row.id] == row && row.publisherUserID == Some(publisher) && row.status == Status.Published
  }

  lemma {:induction false} LatestIsHighest(rows: seq<EventSchema>, tier: TrustTier)
    ensures match Latest(rows, tier)
            case None => forall row :: row in rows ==> row.trustTier != tier || row.status != Status.Published
            case Some(best) =>
              && best in rows && best.trustTier == tier && best.status == Status.Published
              && forall row :: row in rows && row.trustTier == tier && row.status == Status.Published ==> row.version <= best.version
  {
    if rows != [] {
      LatestIsHighest(rows[..|rows| - 1], tier);
      assert rows == rows[..|rows| - 1] + [rows[|rows| - 1]];
    }
  }

  lemma {:induction false} RowsOfMembers(rows: seq<EventSchema>, key: ContractKey, e: string)
    ensures forall row :: row in RowsOf(rows, key, e) <==> row in rows && KeyOf(row) == key && row.eventName == e
  {
    if rows != [] {
      RowsOfMembers(rows[..|rows| - 1], key, e);
      assert rows == rows[..|rows| - 1] + [rows[|rows| - 1]];
    }
  }

  // ----- The listing in terms of the rows

  /** A published row of the tier that belongs to the event. */
  predicate IsRowOf(row: EventSchema, p: ContractPublication, e: string, tier: TrustTier) {
    && row.contractID == p.contractID && row.network == p.network && row.eventName == e
    && row.trustTier == tier && row.status == Status.Published
  }

  /** The versions shown are the event's rows, in order, whatever their status. */
  lemma {:induction false} RowsOfAre(rows: seq<EventSchema>, key: ContractKey, e: string)
    ensures forall row :: multiset(RowsOf(rows, key, e))[row] ==
                          if row.contractID == key.contractID && row.network == key.network && row.eventName == e
                          then multiset(rows)[row] else 0
  {
    if rows != [] {
      RowsOfAre(rows[..|rows| - 1], key, e);
      assert rows == rows[..|rows| - 1] + [rows[|rows| - 1]];
    }
  }

  lemma LatestOfEvent(rows: seq<EventSchema>, p: ContractPublication, e: string, tier: TrustTier)
    ensures match Latest(RowsOf(rows, Shown(p), e), tier)
            case None => forall row :: row in rows ==> !IsRowOf(row, p, e, tier)
            case Some(best) =>
              best in rows && IsRowOf(best, p, e, tier) && forall row :: row in rows && IsRowOf(row, p, e, tier) ==> row.version <= best.version
  {
    RowsOfMembers(rows, Shown(p), e);
    LatestIsHighest(RowsOf(rows, Shown(p), e), tier);
  }

  ghost predicate ShowsCommunity(shown: VersionSummary, rows: seq<EventSchema>, p: ContractPublication, e: string) {
    exists best :: best in rows && IsRowOf(best, p, e, Community)
                   && shown == VersionSummary(best.id, best.version, Community, Status.Published, best.createdAt)
                   && forall row :: row in rows && IsRowOf(row, p, e, Community) ==> row.version <= best.version
  }

  ghost predicate ShowsVerified(shown: VerifiedSummary, rows: seq<EventSchema>, p: ContractPublication, e: string) {
    exists best :: best in rows && IsRowOf(best, p, e, Verified)
                   && shown.id == best.id && shown.version == best.version
                   && shown.wallet == (if best.verifiedWallet.Some? then best.verifiedWallet.value else "")
                   && shown.at == (if best.verifiedAt.Some? then best.verifiedAt.value else 0)
                   && forall row :: row in rows && IsRowOf(row, p, e, Verified) ==> row.version <= best.version
  }

  /** What an event is shown with: a summary of each of its rows, and of the highest published version of either tier. */
  lemma EventIsShownAs(p: ContractPublication, rows: seq<EventSchema>, i: nat)
    requires IsPublication(p, rows) && i < |p.events|
    ensures var event := p.events[i];
            var own := RowsOf(rows, ContractKey(p.contractID, p.network), event.eventName);
            && |event.versions| == |own|
            && forall k :: 0 <= k < |own| ==>
                 event.versions[k] == VersionSummary(own[k].id, own[k].version, own[k].trustTier, own[k].status, own[k].createdAt)
    ensures var event := p.events[i];
            match event.latestCommunity
            case None => forall row :: row in rows ==> !IsRowOf(row, p, event.eventName, Community)
            case Some(shown) => ShowsCommunity(shown, rows, p, event.eventName)
    ensures var event := p.events[i];
            match event.verified
            case None => forall row :: row in rows ==> !IsRowOf(row, p, event.eventName, Verified)
            case Some(shown) => ShowsVerified(shown, rows, p, event.eventName)
  {
    var e := p.events[i].eventName;
    assert Shows(p.events[i], rows, Shown(p));
    LatestOfEvent(rows, p, e, Community);
    LatestOfEvent(rows, p, e, Verified);
  }

  /** A published community row of the contract is above every published verified row of its event. */
  ghost predicate IsAhead(row: EventSchema, rows: seq<EventSchema>, p: ContractPublication) {
    && row.contractID == p.contractID && row.network == p.network
    && row.trustTier == Community && row.status == Status.Published
    && forall other :: other in rows && IsRowOf(other, p, row.eventName, Verified) ==> other.version < row.version
  }

  lemma EventIsVerifiableIff(p: ContractPublication, rows: seq<EventSchema>, i: nat)
    requires IsPublication(p, rows) && i < |p.events|
    ensures Verifiable(p.events[i]) <==> exists row :: row in rows && row.eventName == p.events[i].eventName && IsAhead(row, rows, p)
  {
    var e := p.events[i].eventName;
    assert Shows(p.events[i], rows, Shown(p));
    LatestOfEvent(rows, p, e, Community);
    LatestOfEvent(rows, p, e, Verified);
    var own := RowsOf(rows, Shown(p), e);
    if Verifiable(p.events[i]) {
      var best := Latest(own, Community).value;
      assert IsAhead(best, rows, p);
    }
    if row :| row in rows && row.eventName == e && IsAhead(row, rows, p) {
      assert IsRowOf(row, p, e, Community);
    }
  }

  /** The flag, in terms of the rows: a contract is shown as verifiable if and only if some published community row of it has a
      version above that of every published verified row of its event. */
  lemma FlagIff(p: ContractPublication, rows: seq<EventSchema>)
    requires IsPublication(p, rows)
    ensures p.canVerify <==>
            exists row :: row in rows && row.contractID == p.contractID && row.network == p.network
                          && row.trustTier == Community && row.status == Status.Published
                          && forall other :: other in rows && IsRowOf(other, p, row.eventName, Verified) ==> other.version < row.version
  {
    if i :| 0 <= i < |p.events| && Verifiable(p.events[i]) {
      EventIsVerifiableIff(p, rows, i);
      var row :| row in rows && row.eventName == p.events[i].eventName && IsAhead(row, rows, p);
    }
    if row :| row in rows && IsAhead(row, rows, p) {
      assert row.eventName in EventNames(p.events);
      var i :| 0 <= i < |p.events| && p.events[i].eventName == row.eventName;
      EventIsVerifiableIff(p, rows, i);
    }
  }

  /** The row listed as an event's latest community version is the one the transaction promotes. */
  lemma ListedIsTarget(rows: seq<EventSchema>, t: Table, publisher: string, key: ContractKey, e: string)
    requires Valid(t) && IsListing(rows, t, publisher)
    ensures var listed := Latest(RowsOf(rows, key, e), Community);
            forall id :: id in Targets(t, publisher, key.contractID, key.network) && t[id].eventName == e <==>
                         listed.Some? && id == listed.value.id
  {
    var group := RowsOf(rows, key, e);
    RowsOfMembers(rows, key, e);
    LatestIsHighest(group, Community);
    var listed := Latest(group, Community);
    assert forall id :: id in t && IsCandidate(t[id], publisher, key.contractID, key.network) && t[id].eventName == e ==> t[id] in group;
    if listed.Some? {
      var id := listed.value.id;
      assert listed.value in rows && t[id] == listed.value;
      assert IsTarget(t, id, publisher, key.contractID, key.network);
      forall other | other in Targets(t, publisher, key.contractID, key.network) && t[other].eventName == e
        ensures other == id
      {
        TargetsHaveOwnEvents(t, publisher, key.contractID, key.network, other, id);
      }
    }
  }

  /** The ids listed as latest community versions of the contract. */
  ghost predicate ListsLatest(p: ContractPublication, id: string) {
    exists i :: 0 <= i < |p.events| && p.events[i].latestCommunity.Some? && p.events[i].latestCommunity.value.id == id
  }

  /** Verification promotes exactly the rows listed as latest community versions, event by event; it succeeds exactly when
      one is listed, and in particular whenever the contract is shown as verifiable. */
  lemma ListingAgreesWithTransaction(rows: seq<EventSchema>, t: Table, publisher: string, p: ContractPublication)
    requires Valid(t) && IsListing(rows, t, publisher) && IsPublication(p, rows)
    ensures forall id :: id in Targets(t, publisher, p.contractID, p.network) <==> ListsLatest(p, id)
    ensures forall i :: 0 <= i < |p.events| && p.events[i].latestCommunity.Some? ==>
              var id := p.events[i].latestCommunity.value.id;
              id in Targets(t, publisher, p.contractID, p.network) && t[id].eventName == p.events[i].eventName
    ensures p.canVerify ==> Targets(t, publisher, p.contractID, p.network) != {}
    ensures forall wallet, at, now ::
              VerifyContractRows(t, publisher, p.contractID, p.network, wallet, at, now).Ok? <==> exists id :: ListsLatest(p, id)
  {
    var key := ContractKey(p.contractID, p.network);
    forall i | 0 <= i < |p.events| && p.events[i].latestCommunity.Some?
      ensures var id := p.events[i].latestCommunity.value.id;
              id in Targets(t, publisher, p.contractID, p.network) && t[id].eventName == p.events[i].eventName
    {
      ListedIsTarget(rows, t, publisher, key, p.events[i].eventName);
    }
    forall id | id in Targets(t, publisher, p.contractID, p.network)
      ensures ListsLatest(p, id)
    {
      assert t[id] in rows && KeyOf(t[id]) == key;
      assert t[id].eventName in EventNames(p.events);
      var i :| 0 <= i < |p.events| && p.events[i].eventName == t[id].eventName;
      ListedIsTarget(rows, t, publisher, key, t[id].eventName);
      assert p.events[i].latestCommunity.Some? && p.events[i].latestCommunity.value.id == id;
    }
    if p.canVerify {
      var i :| 0 <= i < |p.events| && Verifiable(p.events[i]);
      assert ListsLatest(p, p.events[i].latestCommunity.value.id);
    }
    SomeTarget(Targets(t, publisher, p.contractID, p.network), p);
  }

  lemma SomeTarget(targets: set<string>, p: ContractPublication)
    requires forall id :: id in targets <==> ListsLatest(p, id)
    ensures targets != {} <==> exists id :: ListsLatest(p, id)
  {
    if targets != {} {
      var id :| id in targets;
      assert ListsLatest(p, id);
    }
  }

  // ----- Only finitely many verifications without new publications

  /** The step stores a new version for this publisher and contract. */
  predicate Publishes(s: State, step: Step, publisher: string, contractID: string, network: string) {
    step.InsertVersion? && step.session in s.sessions &&
    var key := s.sessions[step.session].key;
    key.publisher == publisher && key.contractID == contractID && key.network == network
  }

  /** The step is a verification of this contract by this publisher, and it succeeds. */
  predicate Verifies(s: State, step: Step, publisher: string, contractID: string, network: string) {
    step.VerifyContract? && step.publisher == publisher && step.contractID == contractID && step.network == network
    && Targets(s.rows, publisher, contractID, network) != {}
  }

  ghost predicate NeverPublishes(s: State, steps: seq<Step>, publisher: string, contractID: string, network: string)
    decreases steps
  {
    steps == [] || (!Publishes(s, steps[0], publisher, contractID, network)
                    && NeverPublishes(Next(s, steps[0]), steps[1..], publisher, contractID, network))
  }

  ghost function Successes(s: State, steps: seq<Step>, publisher: string, contractID: string, network: string): nat
    decreases steps
  {
    if steps == [] then 0
    else (if Verifies(s, steps[0], publisher, contractID, network) then 1 else 0)
         + Successes(Next(s, steps[0]), steps[1..], publisher, contractID, network)
  }

  /** No step but a publication adds a candidate, and a successful verification takes at least one away. */
  lemma CandidatesFall(s: State, step: Step, publisher: string, contractID: string, network: string)
    requires Inv(s) && !Publishes(s, step, publisher, contractID, network)
    ensures Candidates(Next(s, step).rows, publisher, contractID, network) <= Candidates(s.rows, publisher, contractID, network)
    ensures Verifies(s, step, publisher, contractID, network) ==>
              |Candidates(Next(s, step).rows, publisher, contractID, network)| < |Candidates(s.rows, publisher, contractID, network)|
  {
    match step
    case ReadVersion(_, _, _) =>
    case InsertVersion(session, id, body, author, now) =>
      if session in s.sessions {
        InsertAddsNoCandidate(s.rows, NewRow(id, s.sessions[session].key, s.sessions[session].version, body, author, now),
                              publisher, contractID, network);
      }
    case MarkOne(id, wallet, at, now) =>
      MarkAddsNoCandidate(s.rows, id, wallet, at, now, publisher, contractID, network);
    case VerifyContract(p, c, n, wallet, at, now) =>
      SuccessUsesUpCandidates(s.rows, p, c, n, wallet, at, now, publisher, contractID, network);
      if Verifies(s, step, publisher, contractID, network) {
        SmallerWithout(Candidates(s.rows, publisher, contractID, network), Targets(s.rows, publisher, contractID, network));
      }
  }

  lemma InsertAddsNoCandidate(t: Table, row: EventSchema, publisher: string, contractID: string, network: string)
    requires row.publisherUserID != Some(publisher) || row.contractID != contractID || row.network != network
    ensures InsertRow(t, row).Ok? ==>
              Candidates(InsertRow(t, row).value, publisher, contractID, network) <= Candidates(t, publisher, contractID, network)
  {}

  lemma MarkAddsNoCandidate(t: Table, id: string, wallet: string, at: int, now: int, publisher: string, contractID: string, network: string)
    ensures MarkVerifiedRow(t, id, wallet, at, now).Ok? ==>
              Candidates(MarkVerifiedRow(t, id, wallet, at, now).value, publisher, contractID, network)
              <= Candidates(t, publisher, contractID, network)
  {}

  lemma SmallerWithout(all: set<string>, some: set<string>)
    requires some != {} && some <= all
    ensures |all - some| < |all|
  {
    assert all == (all - some) + some && |some| > 0;
  }

  lemma {:induction false} SmallerSubset(a: set<string>, b: set<string>)
    requires a <= b
    ensures |a| <= |b|
  {
    assert b == a + (b - a);
  }

  /** Over any run of all sessions in which this contract gets no new version from its publisher, at most as many
      verifications succeed as there were published community rows. */
  lemma {:induction false} FinitelyManySuccesses(s: State, steps: seq<Step>, publisher: string, contractID: string, network: string)
    requires Inv(s) && NeverPublishes(s, steps, publisher, contractID, network)
    ensures Successes(s, steps, publisher, contractID, network)
         <= |Candidates(s.rows, publisher, contractID, network)|
    decreases steps
  {
    if steps != [] {
      var s' := Next(s, steps[0]);
      StepKeepsInv(s, steps[0]);
      CandidatesFall(s, steps[0], publisher, contractID, network);
      SmallerSubset(Candidates(s'.rows, publisher, contractID, network), Candidates(s.rows, publisher, contractID, network));
      FinitelyManySuccesses(s', steps[1..], publisher, contractID, network);
    }
  }

  /** The flag is sufficient, not necessary: a contract whose only community row is older than its verified one is not shown as
      verifiable, and verification still succeeds, replacing version 2 by version 1. */
  lemma OlderVersionStaysPromotable() returns (t: Table, rows: seq<EventSchema>, p: ContractPublication)
    ensures Valid(t) && IsListing(rows, t, "u") && IsPublication(p, rows) && !p.canVerify
    ensures "a" in t && "b" in t && SameEvent(t["a"], t["b"])
    ensures t["a"].version == 1 && IsCurrent(t["b"]) && t["b"].version == 2
    ensures Targets(t, "u", p.contractID, p.network) == {"a"}
  {
    var key := Key("u", "C", "testnet", "e");
    var a := NewRow("a", key, 1, "", None, 1);
    var b := Promote(NewRow("b", key, 2, "", None, 1), "G", 1, 1);
    t := map["a" := a, "b" := b];
    rows := [a, b];
    p := ContractPublication("C", "testnet", [PublicationOf("e", rows)], false);
    OlderIsNotShown(a, b, p);
    assert IsTarget(t, "a", "u", "C", "testnet");
  }

  lemma OlderIsNotShown(a: EventSchema, b: EventSchema, p: ContractPublication)
    requires KeyOf(a) == KeyOf(b) == Shown(p) && a.eventName == b.eventName && a.version < b.version
    requires a.status == b.status == Status.Published && a.trustTier == Community && b.trustTier == Verified
    requires p.events == [PublicationOf(a.eventName, [a, b])] && !p.canVerify
    ensures IsPublication(p, [a, b])
  {
    TwoRows(a, b);
    assert EventNames(p.events) == [a.eventName] && !Verifiable(p.events[0]);
  }

  lemma TwoRows(a: EventSchema, b: EventSchema)
    requires KeyOf(a) == KeyOf(b) && a.eventName == b.eventName
    requires a.status == b.status == Status.Published && a.trustTier == Community && b.trustTier == Verified
    ensures RowsOf([a, b], KeyOf(a), a.eventName) == [a, b]
    ensures Latest([a, b], Community) == Some(a) && Latest([a, b], Verified) == Some(b)
  {
    assert [a, b][..1] == [a] && [a][..0] == [];
    assert RowsOf([a], KeyOf(a), a.eventName) == [a];
    assert Latest([a], Community) == Some(a) && Latest([a], Verified) == None;
  }

  // ----- The verification call

  datatype Challenge = Challenge(projectID: string, userID: string, contractID: string, network: string, nonce: string)

  datatype ChallengeState = ChallengeState(message: string, expiresAt: int, usedAt: Option<int>)

  datatype VerifyError =
    | InvalidWallet | ChallengeNotFound | ChallengeExpired | ChallengeAlreadyUsed
    | InvalidSignature | AuthorityUnavailable | AuthorityDenied | NothingToVerify | Database(failure: Failure)

  class VerifyService {
    const schemas: SchemaRepository
    var challenges: map<Challenge, ChallengeState>

    constructor (schemas: SchemaRepository)
      ensures this.schemas == schemas && challenges == map[]
    {
      this.schemas := schemas;
      challenges := map[];
    }

    /** Marks the challenge used, if it can be used, in one statement. */
    method Consume(c: Challenge, now: int) returns (message: Result<string, VerifyError>)
      modifies this
      ensures if c in old(challenges) && old(challenges)[c].usedAt.None? && old(challenges)[c].expiresAt > now
              then challenges == old(challenges)[c := old(challenges)[c].(usedAt := Some(now))] && message == Ok(old(challenges)[c].message)
              else challenges == old(challenges) && message.Err?
      ensures c in old(challenges) && old(challenges)[c].usedAt.Some? ==> message == Err(ChallengeAlreadyUsed)
      ensures c in old(challenges) && old(challenges)[c].usedAt.None? && old(challenges)[c].expiresAt <= now ==> message == Err(ChallengeExpired)
      ensures c !in old(challenges) ==> message == Err(ChallengeNotFound)
    {
      if c in challenges && challenges[c].usedAt.None? && challenges[c].expiresAt > now {
        message := Ok(challenges[c].message);
        challenges := challenges[c := challenges[c].(usedAt := Some(now))];
        return;
      }
      if c !in challenges {
        return Err(ChallengeNotFound);
      }
      if challenges[c].usedAt.Some? {
        return Err(ChallengeAlreadyUsed);
      }
      return Err(ChallengeExpired);
    }

    /** The call, its inputs trimmed. The challenge is spent before the signature is looked at, and the table changes only in a
        complete verification. */
    method VerifyContract(input: Challenge, wallet: string, signedBy: (string, string) -> bool,
                          authorized: (string, string, string) -> Result<bool, VerifyError>, now: int)
      returns (result: Result<set<EventSchema>, VerifyError>)
      requires Valid(schemas.rows)
      modifies this, schemas
      ensures Valid(schemas.rows)
      ensures result.Err? ==> schemas.rows == old(schemas.rows)
      ensures var c, w := input.(nonce := TrimSpace(input.nonce)), TrimSpace(wallet);
              result.Ok? <==>
                && w != "" && w[0] == 'G' && c.nonce != "" && c in old(challenges)
                && old(challenges)[c].usedAt.None? && old(challenges)[c].expiresAt > now
                && signedBy(w, old(challenges)[c].message)
                && authorized(c.contractID, c.network, w) == Ok(true)
                && Targets(old(schemas.rows), c.userID, c.contractID, c.network) != {}
      ensures result.Err? ==>
                var c, w := input.(nonce := TrimSpace(input.nonce)), TrimSpace(wallet);
                result.error ==
                  if w == "" || w[0] != 'G' then InvalidWallet
                  else if c.nonce == "" || c !in old(challenges) then ChallengeNotFound
                  else if old(challenges)[c].usedAt.Some? then ChallengeAlreadyUsed
                  else if old(challenges)[c].expiresAt <= now then ChallengeExpired
                  else if !signedBy(w, old(challenges)[c].message) then InvalidSignature
                  else match authorized(c.contractID, c.network, w)
                       case Err(e) => e
                       case Ok(allowed) => if allowed then NothingToVerify else AuthorityDenied
      ensures result.Ok? ==>
                var c, w := input.(nonce := TrimSpace(input.nonce)), TrimSpace(wallet);
                && VerifyContractRows(old(schemas.rows), c.userID, c.contractID, c.network, w, now, now) == Ok(schemas.rows)
                && result.value == set id | id in Targets(old(schemas.rows), c.userID, c.contractID, c.network) :: schemas.rows[id]
      ensures var c, w := input.(nonce := TrimSpace(input.nonce)), TrimSpace(wallet);
              challenges == if w != "" && w[0] == 'G' && c.nonce != "" && c in old(challenges)
                               && old(challenges)[c].usedAt.None? && old(challenges)[c].expiresAt > now
                            then old(challenges)[c := old(challenges)[c].(usedAt := Some(now))] else old(challenges)
    {
      var w := TrimSpace(wallet);
      if w == "" || w[0] != 'G' {
        return Err(InvalidWallet);
      }
      var c := input.(nonce := TrimSpace(input.nonce));
      if c.nonce == "" {
        return Err(ChallengeNotFound);
      }
      var message := Consume(c, now);
      if message.Err? {
        return Err(message.error);
      }
      if !signedBy(w, message.value) {
        return Err(InvalidSignature);
      }
      var allowed := authorized(c.contractID, c.network, w);
      if allowed.Err? {
        return Err(allowed.error);
      }
      if !allowed.value {
        return Err(AuthorityDenied);
      }
      var promoted := schemas.VerifyContractForPublisher(c.userID, c.contractID, c.network, w, now, now);
      match promoted
      case Ok(rows) =>
        return Ok(rows);
      case Err(NotFound) =>
        return Err(NothingToVerify);
      case Err(failure) =>
        return Err(Database(failure));
    }
  }
}
