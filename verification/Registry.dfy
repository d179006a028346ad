/** internal/module/registry/repository/schema_repository.go: the event_schemas table and its transactions. */
module Registry {
  import opened Prelude
  import opened SchemaModel

  /** The rows by primary key. */
  type Table = map<string, EventSchema>

  /** What one publisher publishes under one event name of one contract. */
  datatype Key = Key(publisher: string, contractID: string, network: string, eventName: string)

  predicate HasKey(row: EventSchema, key: Key) {
    && row.publisherUserID == Some(key.publisher)
    && row.contractID == key.contractID && row.network == key.network && row.eventName == key.eventName
  }

  predicate SameEvent(a: EventSchema, b: EventSchema) {
    a.contractID == b.contractID && a.network == b.network && a.eventName == b.eventName
  }

  predicate IsCurrent(row: EventSchema) { row.trustTier == Verified && row.status == Status.Published }

  /** The same version of the same event by the same publisher, who is still known. */
  predicate SameVersion(a: EventSchema, b: EventSchema) {
    a.publisherUserID.Some? && a.publisherUserID == b.publisherUserID && SameEvent(a, b) && a.version == b.version
  }

  // ----- The indexes of the table

  /** event_schemas_publisher_version_unique. */
  ghost predicate UniqueVersions(t: Table) {
    forall a, b :: a in t && b in t && SameVersion(t[a], t[b]) ==> a == b
  }

  /** event_schemas_verified_unique. */
  ghost predicate UniqueVerified(t: Table) {
    forall a, b :: a in t && b in t && IsCurrent(t[a]) && IsCurrent(t[b]) && SameEvent(t[a], t[b]) ==> a == b
  }

  /** Primary key, both indexes and the check on versions. */
  ghost predicate Valid(t: Table) {
    && (forall id :: id in t ==> t[id].id == id && t[id].version >= 1)
    && UniqueVersions(t) && UniqueVerified(t)
  }

  // ----- Versions

  function IdsOf(t: Table, key: Key): set<string> {
    set id | id in t && HasKey(t[id], key)
  }

  function VersionsOf(t: Table, key: Key): set<int> {
    set id | id in t && HasKey(t[id], key) :: t[id].version
  }

  ghost predicate IsMax(m: int, s: set<int>) {
    (s == {} && m == 0) || (m in s && forall v :: v in s ==> v <= m)
  }

  /** Exactly 1, 2, ..., n. */
  ghost predicate IsUpTo(s: set<int>, n: nat) { forall v :: v in s <==> 1 <= v <= n }

  /** Every publisher's versions of every event are 1..n, with one row for each. */
  ghost predicate Dense(t: Table) { forall key :: IsUpTo(VersionsOf(t, key), |IdsOf(t, key)|) }

  // ----- Single statements

  datatype Failure = NotFound | IndexViolation | OutOfRange

  predicate ViolatesVersions(t: Table, row: EventSchema) {
    exists id | id in t :: SameVersion(t[id], row)
  }

  predicate ViolatesVerified(t: Table, id: string, row: EventSchema) {
    IsCurrent(row) && exists other | other in t && other != id :: IsCurrent(t[other]) && SameEvent(t[other], row)
  }

  /** INSERT of a published community row; the database rejects what breaks a constraint. */
  function InsertRow(t: Table, row: EventSchema): Result<Table, Failure> {
    if row.version < 1 || row.version >= TWO_TO_31 then Err(OutOfRange)
    else if row.id in t || ViolatesVersions(t, row) || ViolatesVerified(t, row.id, row) then Err(IndexViolation)
    else Ok(t[row.id := row])
  }

  function NewRow(id: string, key: Key, version: int, body: string, author: Option<string>, now: int): EventSchema {
    EventSchema(id, key.contractID, key.network, key.eventName, version, body, author, Some(key.publisher),
                Community, Status.Published, None, None, now, now)
  }

  function Promote(row: EventSchema, wallet: string, at: int, now: int): EventSchema {
    row.(trustTier := Verified, verifiedWallet := Some(wallet), verifiedAt := Some(at), updatedAt := now)
  }

  function Archive(row: EventSchema, now: int): EventSchema {
    row.(status := Archived, updatedAt := now)
  }

  /** UPDATE ... SET trust_tier = 'verified' WHERE id = ... AND status = 'published'. */
  function MarkVerifiedRow(t: Table, id: string, wallet: string, at: int, now: int): Result<Table, Failure> {
    if id !in t || t[id].status != Status.Published then Err(NotFound)
    else
      var row := Promote(t[id], wallet, at, now);
      if ViolatesVerified(t, id, row) then Err(IndexViolation) else Ok(t[id := row])
  }

  // ----- The verification transaction

  predicate IsCandidate(row: EventSchema, publisher: string, contractID: string, network: string) {
    && row.publisherUserID == Some(publisher) && row.contractID == contractID && row.network == network
    && row.trustTier == Community && row.status == Status.Published
  }

  /** The publisher's highest published community version of the row's event. */
  predicate IsTarget(t: Table, id: string, publisher: string, contractID: string, network: string) {
    && id in t && IsCandidate(t[id], publisher, contractID, network)
    && forall other | other in t && IsCandidate(t[other], publisher, contractID, network) && t[other].eventName == t[id].eventName ::
         t[other].version <= t[id].version
  }

  /** SELECT DISTINCT ON (event_name) ... ORDER BY event_name, version DESC. */
  function Targets(t: Table, publisher: string, contractID: string, network: string): set<string> {
    set id | id in t && IsTarget(t, id, publisher, contractID, network)
  }

  /** Verified published rows, of any publisher, that share the event of a target. */
  predicate IsSuperseded(t: Table, id: string, targets: set<string>) {
    id in t && IsCurrent(t[id]) && exists target | target in targets :: target in t && SameEvent(t[target], t[id])
  }

  /** The table after the targets have replaced the rows they supersede: the outcome, without the steps. */
  function Replaced(t: Table, targets: set<string>, wallet: string, at: int, now: int): Table {
    map id | id in t ::
      if id in targets then Promote(t[id], wallet, at, now)
      else if IsSuperseded(t, id, targets) then Archive(t[id], now)
      else t[id]
  }

  function VerifyContractRows(t: Table, publisher: string, contractID: string, network: string, wallet: string, at: int, now: int)
    : Result<Table, Failure>
  {
    var targets := Targets(t, publisher, contractID, network);
    if targets == {} then Err(NotFound) else Ok(Replaced(t, targets, wallet, at, now))
  }

  class SchemaRepository {
    var rows: Table

    constructor ()
      ensures rows == map[]
    {
      rows := map[];
    }

    /** SELECT COALESCE(MAX(version), 0) + 1, in the width of the column. */
    method NextVersion(key: Key) returns (next: Result<int, Failure>)
      ensures exists m :: IsMax(m, VersionsOf(rows, key)) &&
                          next == if m == TWO_TO_31 - 1 then Err(OutOfRange) else Ok(m + 1)
    {
      var todo := IdsOf(rows, key);
      var m := 0;
      var seen := {};
      while todo != {}
        invariant todo <= IdsOf(rows, key)
        invariant seen + (set id | id in todo :: rows[id].version) == VersionsOf(rows, key)
        invariant IsMax(m, seen)
        decreases todo
      {
        var id :| id in todo;
        m := if seen == {} || rows[id].version > m then rows[id].version else m;
        seen := seen + {rows[id].version};
        todo := todo - {id};
      }
      assert IsMax(m, VersionsOf(rows, key));
      next := if m == TWO_TO_31 - 1 then Err(OutOfRange) else Ok(m + 1);
    }

    method Insert(id: string, key: Key, version: int, body: string, author: Option<string>, now: int)
      returns (result: Result<EventSchema, Failure>)
      modifies this
      ensures var row := NewRow(id, key, version, body, author, now);
              match InsertRow(old(rows), row)
              case Ok(t) => rows == t && result == Ok(row)
              case Err(e) => rows == old(rows) && result == Err(e)
    {
      var row := NewRow(id, key, version, body, author, now);
      var inserted := InsertRow(rows, row);
      if inserted.Err? {
        return Err(inserted.error);
      }
      rows := inserted.value;
      return Ok(row);
    }

    method MarkVerified(id: string, wallet: string, at: int, now: int) returns (result: Result<EventSchema, Failure>)
      modifies this
      ensures match MarkVerifiedRow(old(rows), id, wallet, at, now)
              case Ok(t) => rows == t && result == Ok(t[id])
              case Err(e) => rows == old(rows) && result == Err(e)
    {
      var marked := MarkVerifiedRow(rows, id, wallet, at, now);
      if marked.Err? {
        return Err(marked.error);
      }
      rows := marked.value;
      return Ok(rows[id]);
    }

    /** Archive, then promote, target by target; any failure rolls the whole transaction back. */
    method VerifyContractForPublisher(publisher: string, contractID: string, network: string, wallet: string, at: int, now: int)
      returns (result: Result<set<EventSchema>, Failure>)
      modifies this
      ensures result.Err? ==> rows == old(rows)
      ensures Valid(old(rows)) ==>
                Valid(rows) &&
                match VerifyContractRows(old(rows), publisher, contractID, network, wallet, at, now)
                case Ok(t) => rows == t && result == Ok(set id | id in Targets(old(rows), publisher, contractID, network) :: t[id])
                case Err(e) => rows == old(rows) && result == Err(e)
    {
      var begun := rows;
      var targets := Targets(begun, publisher, contractID, network);
      if targets == {} {
        return Err(NotFound);
      }
      var todo, promoted := targets, {};
      ghost var done := {};
      NothingReplaced(begun, wallet, at, now);
      while todo != {}
        invariant done !! todo && done + todo == targets
        invariant Valid(begun) ==> rows == Replaced(begun, done, wallet, at, now)
        invariant Valid(begun) ==> promoted == set id | id in done :: rows[id]
        decreases todo
      {
        var target :| target in todo;
        rows := ArchiveVerified(rows, contractID, network, begun[target].eventName, now);
        var promotion := PromoteRow(rows, publisher, target, wallet, at, now);
        if Valid(begun) {
          StepReplaces(begun, publisher, contractID, network, done, target, wallet, at, now);
          PromotedRows(begun, publisher, contractID, network, done, target, wallet, at, now);
        }
        if promotion.Err? {
          rows := begun;
          return Err(promotion.error);
        }
        rows := promotion.value;
        promoted := promoted + {rows[target]};
        done := done + {target};
        todo := todo - {target};
      }
      assert done == targets;
      if Valid(begun) {
        ReplacedIsValid(begun, publisher, contractID, network, wallet, at, now);
      }
      return Ok(promoted);
    }
  }

  // ----- The two updates of the loop

  function ArchiveVerified(t: Table, contractID: string, network: string, eventName: string, now: int): Table {
    map id | id in t ::
      if IsCurrent(t[id]) && t[id].contractID == contractID && t[id].network == network && t[id].eventName == eventName
      then Archive(t[id], now) else t[id]
  }

  function PromoteRow(t: Table, publisher: string, id: string, wallet: string, at: int, now: int): Result<Table, Failure> {
    if id !in t || t[id].publisherUserID != Some(publisher) || t[id].trustTier != Community || t[id].status != Status.Published
    then Err(NotFound)
    else
      var row := Promote(t[id], wallet, at, now);
      if ViolatesVerified(t, id, row) then Err(IndexViolation) else Ok(t[id := row])
  }

  lemma NothingReplaced(t: Table, wallet: string, at: int, now: int)
    ensures Replaced(t, {}, wallet, at, now) == t
  {}

  lemma TargetsHaveOwnEvents(t: Table, publisher: string, contractID: string, network: string, a: string, b: string)
    requires Valid(t)
    requires IsTarget(t, a, publisher, contractID, network) && IsTarget(t, b, publisher, contractID, network)
    requires t[a].eventName == t[b].eventName
    ensures a == b
  {}

  /** One archive and one promotion take the outcome for `done` to the outcome for one target more, and never
      trip the index on verified rows. */
  lemma StepReplaces(t: Table, publisher: string, contractID: string, network: string, done: set<string>, target: string,
                     wallet: string, at: int, now: int)
    requires Valid(t) && done <= Targets(t, publisher, contractID, network)
    requires target in Targets(t, publisher, contractID, network) - done
    ensures var archived := ArchiveVerified(Replaced(t, done, wallet, at, now), contractID, network, t[target].eventName, now);
            PromoteRow(archived, publisher, target, wallet, at, now) == Ok(Replaced(t, done + {target}, wallet, at, now))
  {
    var archived := ArchiveVerified(Replaced(t, done, wallet, at, now), contractID, network, t[target].eventName, now);
    forall id | id in t && id != target
      ensures archived[id] == Replaced(t, done + {target}, wallet, at, now)[id]
      ensures !(IsCurrent(archived[id]) && SameEvent(archived[id], t[target]))
    {
      ArchivedRow(t, publisher, contractID, network, done, target, id, wallet, at, now);
    }
    ArchivedTarget(t, publisher, contractID, network, done, target, wallet, at, now);
    PromotionSucceeds(archived, publisher, target, wallet, at, now);
    OneRowApart(archived, Replaced(t, done + {target}, wallet, at, now), target);
  }

  lemma OneRowApart(a: Table, b: Table, id: string)
    requires a.Keys == b.Keys && id in b && forall other :: other in a && other != id ==> a[other] == b[other]
    ensures a[id := b[id]] == b
  {}

  lemma ArchivedTarget(t: Table, publisher: string, contractID: string, network: string, done: set<string>, target: string,
                       wallet: string, at: int, now: int)
    requires Valid(t) && target in Targets(t, publisher, contractID, network) - done
    ensures ArchiveVerified(Replaced(t, done, wallet, at, now), contractID, network, t[target].eventName, now)[target] == t[target]
  {
    assert !IsCurrent(t[target]);
  }

  lemma PromotionSucceeds(t: Table, publisher: string, id: string, wallet: string, at: int, now: int)
    requires id in t && IsCandidate(t[id], publisher, t[id].contractID, t[id].network)
    requires forall other :: other in t && other != id ==> !(IsCurrent(t[other]) && SameEvent(t[other], t[id]))
    ensures PromoteRow(t, publisher, id, wallet, at, now) == Ok(t[id := Promote(t[id], wallet, at, now)])
  {}

  lemma ArchivedRow(t: Table, publisher: string, contractID: string, network: string, done: set<string>, target: string, id: string,
                    wallet: string, at: int, now: int)
    requires Valid(t) && done <= Targets(t, publisher, contractID, network)
    requires target in Targets(t, publisher, contractID, network) - done
    requires id in t && id != target
    ensures var archived := ArchiveVerified(Replaced(t, done, wallet, at, now), contractID, network, t[target].eventName, now);
            && archived[id] == Replaced(t, done + {target}, wallet, at, now)[id]
            && !(IsCurrent(archived[id]) && SameEvent(archived[id], t[target]))
  {
    if id in done {
      if t[id].eventName == t[target].eventName {
        TargetsHaveOwnEvents(t, publisher, contractID, network, id, target);
      }
    } else {
      assert IsSuperseded(t, id, done + {target}) <==>
             IsSuperseded(t, id, done) || (IsCurrent(t[id]) && SameEvent(t[target], t[id]));
    }
  }

  lemma PromotedRows(t: Table, publisher: string, contractID: string, network: string, done: set<string>, target: string,
                     wallet: string, at: int, now: int)
    requires Valid(t) && done <= Targets(t, publisher, contractID, network)
    requires target in Targets(t, publisher, contractID, network) - done
    ensures var before, after := Replaced(t, done, wallet, at, now), Replaced(t, done + {target}, wallet, at, now);
            (set id | id in done + {target} :: after[id]) == (set id | id in done :: before[id]) + {after[target]}
  {
    var before, after := Replaced(t, done, wallet, at, now), Replaced(t, done + {target}, wallet, at, now);
    assert forall id :: id in done ==> before[id] == after[id];
  }

  /** The outcome breaks no index. */
  lemma ReplacedIsValid(t: Table, publisher: string, contractID: string, network: string, wallet: string, at: int, now: int)
    requires Valid(t)
    ensures Valid(Replaced(t, Targets(t, publisher, contractID, network), wallet, at, now))
  {
    var targets := Targets(t, publisher, contractID, network);
    var after := Replaced(t, targets, wallet, at, now);
    forall a, b | a in after && b in after && IsCurrent(after[a]) && IsCurrent(after[b]) && SameEvent(after[a], after[b])
      ensures a == b
    {
      OneCurrentRow(t, publisher, contractID, network, a, b, wallet, at, now);
    }
    ReplacedKeepsVersions(t, targets, wallet, at, now);
  }

  lemma ReplacedKeepsVersions(t: Table, targets: set<string>, wallet: string, at: int, now: int)
    requires Valid(t)
    ensures var after := Replaced(t, targets, wallet, at, now);
            UniqueVersions(after) && forall id :: id in after ==> after[id].id == id && after[id].version >= 1
  {
    var after := Replaced(t, targets, wallet, at, now);
    forall a, b | a in after && b in after && SameVersion(after[a], after[b])
      ensures a == b
    {
      assert SameVersion(t[a], t[b]);
    }
  }

  lemma OneCurrentRow(t: Table, publisher: string, contractID: string, network: string, a: string, b: string,
                      wallet: string, at: int, now: int)
    requires Valid(t) && a in t && b in t
    requires var after := Replaced(t, Targets(t, publisher, contractID, network), wallet, at, now);
             IsCurrent(after[a]) && IsCurrent(after[b]) && SameEvent(after[a], after[b])
    ensures a == b
  {
    var targets := Targets(t, publisher, contractID, network);
    if a in targets && b in targets {
      TargetsHaveOwnEvents(t, publisher, contractID, network, a, b);
    } else if a in targets {
      NothingCurrentBeside(t, targets, a, b, wallet, at, now);
    } else if b in targets {
      NothingCurrentBeside(t, targets, b, a, wallet, at, now);
    }
  }

  lemma NothingCurrentBeside(t: Table, targets: set<string>, target: string, other: string, wallet: string, at: int, now: int)
    requires targets <= t.Keys && target in targets && other in t && other !in targets && SameEvent(t[target], t[other])
    ensures !IsCurrent(Replaced(t, targets, wallet, at, now)[other])
  {
    assert IsCurrent(t[other]) ==> IsSuperseded(t, other, targets);
  }

  // ----- What a committed verification means

  /** Everything about a row that no later statement may change. */
  predicate SameContent(a: EventSchema, b: EventSchema) {
    && a.id == b.id && SameEvent(a, b) && a.version == b.version && a.schemaBody == b.schemaBody
    && a.author == b.author && a.publisherUserID == b.publisherUserID && a.createdAt == b.createdAt
  }

  /** At commit each target is its event's only published verified row; rows of other events, and every body and version, are
      as before, and a row is archived only to make way for a target. */
  lemma VerificationOutcome(t: Table, publisher: string, contractID: string, network: string, wallet: string, at: int, now: int)
    requires Valid(t)
    ensures var targets := Targets(t, publisher, contractID, network);
            var after := Replaced(t, targets, wallet, at, now);
            && after.Keys == t.Keys
            && (forall id :: id in t ==> SameContent(after[id], t[id]))
            && (forall target, id :: target in targets && id in after ==>
                  (IsCurrent(after[id]) && SameEvent(after[id], t[target]) <==> id == target))
            && (forall id :: id in t && after[id] != t[id] && id !in targets ==>
                  after[id] == Archive(t[id], now) && IsCurrent(t[id])
                  && exists target :: target in targets && SameEvent(t[id], t[target]))
  {
    var targets := Targets(t, publisher, contractID, network);
    var after := Replaced(t, targets, wallet, at, now);
    forall target, id | target in targets && id in after
      ensures IsCurrent(after[id]) && SameEvent(after[id], t[target]) <==> id == target
    {
      if IsCurrent(after[id]) && SameEvent(after[id], t[target]) {
        OneCurrentRow(t, publisher, contractID, network, id, target, wallet, at, now);
      }
    }
  }

  /** Verification succeeds exactly when the publisher has a published community row of the contract. */
  lemma SucceedsIffCandidate(t: Table, publisher: string, contractID: string, network: string)
    requires Valid(t)
    ensures Targets(t, publisher, contractID, network) != {} <==> Candidates(t, publisher, contractID, network) != {}
    ensures forall c :: c in Candidates(t, publisher, contractID, network) ==>
              exists target :: target in Targets(t, publisher, contractID, network) && SameEvent(t[c], t[target])
  {
    forall c | c in Candidates(t, publisher, contractID, network)
      ensures exists target :: target in Targets(t, publisher, contractID, network) && SameEvent(t[c], t[target])
    {
      var target := LatestOf(t, publisher, contractID, network, c, Candidates(t, publisher, contractID, network) - {c}, {c});
    }
    if Targets(t, publisher, contractID, network) != {} {
      var target :| target in Targets(t, publisher, contractID, network);
      assert target in Candidates(t, publisher, contractID, network);
    }
  }

  function Candidates(t: Table, publisher: string, contractID: string, network: string): set<string> {
    set id | id in t && IsCandidate(t[id], publisher, contractID, network)
  }

  /** Walking over the candidates, keeping the highest version of one event. */
  lemma LatestOf(t: Table, publisher: string, contractID: string, network: string, best: string, todo: set<string>, seen: set<string>)
    returns (target: string)
    requires best in Candidates(t, publisher, contractID, network)
    requires Candidates(t, publisher, contractID, network) == todo + seen
    requires forall other :: other in seen && t[other].eventName == t[best].eventName ==> t[other].version <= t[best].version
    ensures target in Targets(t, publisher, contractID, network) && SameEvent(t[best], t[target])
    decreases todo
  {
    if todo == {} {
      return best;
    }
    var next :| next in todo;
    var better := if t[next].eventName == t[best].eventName && t[next].version > t[best].version then next else best;
    target := LatestOf(t, publisher, contractID, network, better, todo - {next}, seen + {next});
  }

  /** Each success takes its targets, and nothing else, out of the candidates; other publishers' candidates stay. */
  lemma SuccessUsesUpCandidates(t: Table, publisher: string, contractID: string, network: string, wallet: string, at: int, now: int,
                                who: string, what: string, where: string)
    requires Valid(t)
    ensures var targets := Targets(t, publisher, contractID, network);
            Candidates(Replaced(t, targets, wallet, at, now), who, what, where) == Candidates(t, who, what, where) - targets
  {
    var targets := Targets(t, publisher, contractID, network);
    var after := Replaced(t, targets, wallet, at, now);
    forall id | id in t
      ensures IsCandidate(after[id], who, what, where) <==> IsCandidate(t[id], who, what, where) && id !in targets
    {}
  }

  // ----- The statements, row by row

  /** A row that INSERT ... VALUES (..., 'community', 'published') leaves. */
  predicate IsInserted(row: EventSchema, id: string, key: Key, version: int, body: string, author: Option<string>, now: int) {
    && row.id == id && row.publisherUserID == Some(key.publisher)
    && row.contractID == key.contractID && row.network == key.network && row.eventName == key.eventName
    && row.version == version && row.schemaBody == body && row.author == author
    && row.trustTier == Community && row.status == Status.Published
    && row.verifiedWallet == None && row.verifiedAt == None && row.createdAt == now && row.updatedAt == now
  }

  /** A row can be inserted if its version fits the column and its id, and its version under the publisher's key, are not taken. */
  lemma InsertInFull(t: Table, id: string, key: Key, version: int, body: string, author: Option<string>, now: int)
    ensures var inserted := InsertRow(t, NewRow(id, key, version, body, author, now));
            && (inserted.Ok? <==>
                  && 1 <= version < 0x8000_0000 && id !in t
                  && forall other :: other in t ==>
                       !(t[other].publisherUserID == Some(key.publisher) && t[other].contractID == key.contractID
                         && t[other].network == key.network && t[other].eventName == key.eventName && t[other].version == version))
            && (inserted.Ok? ==>
                  && inserted.value.Keys == t.Keys + {id} && IsInserted(inserted.value[id], id, key, version, body, author, now)
                  && forall other :: other in t ==> inserted.value[other] == t[other])
  {
    var row := NewRow(id, key, version, body, author, now);
    forall other | other in t
      ensures SameVersion(t[other], row) <==>
                t[other].publisherUserID == Some(key.publisher) && t[other].contractID == key.contractID
                && t[other].network == key.network && t[other].eventName == key.eventName && t[other].version == version
    {}
  }

  /** A row before and after it was verified for the wallet. */
  predicate IsPromoted(after: EventSchema, before: EventSchema, wallet: string, at: int, now: int) {
    after == before.(trustTier := Verified, verifiedWallet := Some(wallet), verifiedAt := Some(at), updatedAt := now)
  }

  predicate IsArchived(after: EventSchema, before: EventSchema, now: int) { after == before.(status := Archived, updatedAt := now) }

  /** Marking a published row touches that row alone, and nothing else is marked. */
  lemma MarkInFull(t: Table, id: string, wallet: string, at: int, now: int)
    ensures var marked := MarkVerifiedRow(t, id, wallet, at, now);
            && (marked.Ok? <==>
                  && id in t && t[id].status == Status.Published
                  && forall other :: other in t && other != id ==>
                       !(t[other].trustTier == Verified && t[other].status == Status.Published && t[other].contractID == t[id].contractID
                         && t[other].network == t[id].network && t[other].eventName == t[id].eventName))
            && (marked.Ok? ==>
                  && marked.value.Keys == t.Keys && IsPromoted(marked.value[id], t[id], wallet, at, now)
                  && forall other :: other in t && other != id ==> marked.value[other] == t[other])
  {
    if id in t {
      var row := Promote(t[id], wallet, at, now);
      forall other | other in t
        ensures IsCurrent(t[other]) && SameEvent(t[other], row) <==>
                  t[other].trustTier == Verified && t[other].status == Status.Published && t[other].contractID == t[id].contractID
                  && t[other].network == t[id].network && t[other].eventName == t[id].eventName
      {}
    }
  }

  /** A published community row of the publisher's contract. */
  predicate IsWaiting(row: EventSchema, publisher: string, contractID: string, network: string) {
    && row.publisherUserID == Some(publisher) && row.contractID == contractID && row.network == network
    && row.trustTier == Community && row.status == Status.Published
  }

  /** Of those of its event, one of the highest version. */
  ghost predicate IsHighestWaiting(t: Table, id: string, publisher: string, contractID: string, network: string)
    requires id in t
  {
    && IsWaiting(t[id], publisher, contractID, network)
    && forall other :: other in t && IsWaiting(t[other], publisher, contractID, network) && t[other].eventName == t[id].eventName
                       ==> t[other].version <= t[id].version
  }

  /** The verified row that a verification of the contract replaces. */
  ghost predicate MakesWay(t: Table, id: string, publisher: string, contractID: string, network: string)
    requires id in t
  {
    && t[id].trustTier == Verified && t[id].status == Status.Published && t[id].contractID == contractID && t[id].network == network
    && exists other :: other in t && IsWaiting(t[other], publisher, contractID, network) && t[other].eventName == t[id].eventName
  }

  lemma WaitingIff(t: Table, publisher: string, contractID: string, network: string, id: string)
    ensures id in Candidates(t, publisher, contractID, network) <==> id in t && IsWaiting(t[id], publisher, contractID, network)
  {}

  lemma TargetIff(t: Table, publisher: string, contractID: string, network: string, id: string)
    requires id in t
    ensures id in Targets(t, publisher, contractID, network) <==> IsHighestWaiting(t, id, publisher, contractID, network)
  {
    assert forall other :: other in t ==>
             (IsCandidate(t[other], publisher, contractID, network) <==> IsWaiting(t[other], publisher, contractID, network));
  }

  lemma SupersededMakesWay(t: Table, publisher: string, contractID: string, network: string, id: string, targets: set<string>)
    requires targets == Targets(t, publisher, contractID, network) && IsSuperseded(t, id, targets)
    ensures MakesWay(t, id, publisher, contractID, network)
  {
    var target :| target in targets && target in t && SameEvent(t[target], t[id]);
    TargetIff(t, publisher, contractID, network, target);
    assert IsWaiting(t[target], publisher, contractID, network) && t[target].eventName == t[id].eventName;
  }

  lemma MakesWayIsSuperseded(t: Table, publisher: string, contractID: string, network: string, id: string, targets: set<string>)
    requires Valid(t) && targets == Targets(t, publisher, contractID, network)
    requires id in t && MakesWay(t, id, publisher, contractID, network)
    ensures IsSuperseded(t, id, targets)
  {
    var c :| c in t && IsWaiting(t[c], publisher, contractID, network) && t[c].eventName == t[id].eventName;
    WaitingIff(t, publisher, contractID, network, c);
    SucceedsIffCandidate(t, publisher, contractID, network);
    var target :| target in targets && SameEvent(t[c], t[target]);
    assert target in t && SameEvent(t[target], t[id]);
  }

  lemma RowInFull(t: Table, publisher: string, contractID: string, network: string, wallet: string, at: int, now: int, id: string)
    requires Valid(t) && id in t
    ensures var after := Replaced(t, Targets(t, publisher, contractID, network), wallet, at, now)[id];
            if IsHighestWaiting(t, id, publisher, contractID, network) then IsPromoted(after, t[id], wallet, at, now)
            else if MakesWay(t, id, publisher, contractID, network) then IsArchived(after, t[id], now)
            else after == t[id]
  {
    var targets := Targets(t, publisher, contractID, network);
    TargetIff(t, publisher, contractID, network, id);
    if IsSuperseded(t, id, targets) {
      SupersededMakesWay(t, publisher, contractID, network, id, targets);
    } else if MakesWay(t, id, publisher, contractID, network) {
      MakesWayIsSuperseded(t, publisher, contractID, network, id, targets);
    }
  }

  lemma SomeWaiting(t: Table, publisher: string, contractID: string, network: string)
    requires Valid(t)
    ensures Targets(t, publisher, contractID, network) != {} <==> exists id :: id in t && IsWaiting(t[id], publisher, contractID, network)
  {
    SucceedsIffCandidate(t, publisher, contractID, network);
    if id :| id in t && IsWaiting(t[id], publisher, contractID, network) {
      WaitingIff(t, publisher, contractID, network, id);
    }
    if id :| id in Candidates(t, publisher, contractID, network) {
      WaitingIff(t, publisher, contractID, network, id);
    }
  }

  /** The verification of a contract, row by row: it goes through if a community row is waiting; then the highest waiting version of
      each event is verified for the wallet, the event's verified row makes way, and every other row stays as it is. */
  lemma VerificationInFull(t: Table, publisher: string, contractID: string, network: string, wallet: string, at: int, now: int, id: string)
    requires Valid(t)
    ensures var done := VerifyContractRows(t, publisher, contractID, network, wallet, at, now);
            && (done.Ok? <==> exists id :: id in t && IsWaiting(t[id], publisher, contractID, network))
            && (done.Ok? ==> done.value.Keys == t.Keys)
            && (done.Ok? && id in t ==>
                  if IsHighestWaiting(t, id, publisher, contractID, network) then IsPromoted(done.value[id], t[id], wallet, at, now)
                  else if MakesWay(t, id, publisher, contractID, network) then IsArchived(done.value[id], t[id], now)
                  else done.value[id] == t[id])
  {
    SomeWaiting(t, publisher, contractID, network);
    if id in t {
      RowInFull(t, publisher, contractID, network, wallet, at, now, id);
    }
  }
}
