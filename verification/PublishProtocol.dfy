/** internal/module/registry/service/schema_service.go: publishing is a read of the next version followed by an insert,
    and any number of sessions may interleave the two. */
module PublishProtocol {
  import opened Prelude
  import opened SchemaModel
  import opened Registry

  /** What a session holds between its read and its insert. */
  datatype Pending = Pending(key: Key, version: int)

  datatype State = State(rows: Table, sessions: map<nat, Pending>)

  datatype Step =
    | ReadVersion(session: nat, key: Key, max: int)
    | InsertVersion(session: nat, id: string, body: string, author: Option<string>, now: int)
    | VerifyContract(publisher: string, contractID: string, network: string, wallet: string, at: int, now: int)
    | MarkOne(id: string, wallet: string, at: int, now: int)

  /** Any session's statement, run atomically by the database; a read takes place only with the maximum that is there. */
  ghost function Next(s: State, step: Step): State {
    match step
    case ReadVersion(session, key, max) =>
      if !IsMax(max, VersionsOf(s.rows, key)) || max == TWO_TO_31 - 1 then s
      else s.(sessions := s.sessions[session := Pending(key, max + 1)])
    case InsertVersion(session, id, body, author, now) =>
      if session !in s.sessions then s else
      var p := s.sessions[session];
      var left := s.(sessions := s.sessions - {session});
      (match InsertRow(s.rows, NewRow(id, p.key, p.version, body, author, now))
       case Ok(t) => left.(rows := t)
       case Err(_) => left)
    case VerifyContract(publisher, contractID, network, wallet, at, now) =>
      (match VerifyContractRows(s.rows, publisher, contractID, network, wallet, at, now)
       case Ok(t) => s.(rows := t)
       case Err(_) => s)
    case MarkOne(id, wallet, at, now) =>
      (match MarkVerifiedRow(s.rows, id, wallet, at, now)
       case Ok(t) => s.(rows := t)
       case Err(_) => s)
  }

  ghost function Run(s: State, steps: seq<Step>): State
    decreases steps
  {
    if steps == [] then s else Run(Next(s, steps[0]), steps[1..])
  }

  /** The table is dense, and no session holds a version beyond the next free one. */
  ghost predicate Inv(s: State) {
    && Valid(s.rows) && Dense(s.rows)
    && forall session :: session in s.sessions ==>
         1 <= s.sessions[session].version <= |IdsOf(s.rows, s.sessions[session].key)| + 1
  }

  lemma MaxOfUpTo(s: set<int>, m: int, n: nat)
    requires IsMax(m, s) && IsUpTo(s, n)
    ensures m == n
  {
    if n > 0 {
      assert n in s && 1 in s;
    }
  }

  /** An insert goes through exactly when the version read is still the next one; otherwise only the index rejects it. */
  lemma InsertSucceedsIffStillNext(s: State, session: nat, id: string, body: string, author: Option<string>, now: int)
    requires Inv(s) && session in s.sessions && id !in s.rows
    ensures var p := s.sessions[session];
            var n := |IdsOf(s.rows, p.key)|;
            match InsertRow(s.rows, NewRow(id, p.key, p.version, body, author, now))
            case Ok(_) => p.version == n + 1 < TWO_TO_31
            case Err(IndexViolation) => p.version <= n
            case Err(OutOfRange) => p.version >= TWO_TO_31
            case Err(NotFound) => false
  {
    var p := s.sessions[session];
    var n := |IdsOf(s.rows, p.key)|;
    assert IsUpTo(VersionsOf(s.rows, p.key), n);
    var row := NewRow(id, p.key, p.version, body, author, now);
    if p.version <= n {
      assert p.version in VersionsOf(s.rows, p.key);
      var other :| other in s.rows && HasKey(s.rows[other], p.key) && s.rows[other].version == p.version;
      assert SameVersion(s.rows[other], row);
    } else {
      forall other | other in s.rows && HasKey(s.rows[other], p.key)
        ensures s.rows[other].version <= n
      {
        assert s.rows[other].version in VersionsOf(s.rows, p.key);
      }
    }
  }

  lemma InsertKeepsInv(s: State, session: nat, id: string, body: string, author: Option<string>, now: int)
    requires Inv(s) && session in s.sessions
    requires InsertRow(s.rows, NewRow(id, s.sessions[session].key, s.sessions[session].version, body, author, now)).Ok?
    ensures Inv(Next(s, InsertVersion(session, id, body, author, now)))
  {
    var p := s.sessions[session];
    var row := NewRow(id, p.key, p.version, body, author, now);
    InsertSucceedsIffStillNext(s, session, id, body, author, now);
    InsertedIsValid(s.rows, row);
    InsertedIsDense(s.rows, row, p.key);
  }

  lemma InsertedIsDense(t: Table, row: EventSchema, key: Key)
    requires Dense(t) && row.id !in t && HasKey(row, key) && row.version == |IdsOf(t, key)| + 1
    ensures Dense(t[row.id := row])
    ensures forall k :: |IdsOf(t, k)| <= |IdsOf(t[row.id := row], k)|
  {
    var t' := t[row.id := row];
    forall k
      ensures IsUpTo(VersionsOf(t', k), |IdsOf(t', k)|) && |IdsOf(t, k)| <= |IdsOf(t', k)|
    {
      InsertedVersions(t, row, k);
      assert IsUpTo(VersionsOf(t, k), |IdsOf(t, k)|);
      assert HasKey(row, k) <==> k == key;
    }
  }

  lemma InsertedVersions(t: Table, row: EventSchema, key: Key)
    requires row.id !in t
    ensures var t' := t[row.id := row];
            if HasKey(row, key)
            then IdsOf(t', key) == IdsOf(t, key) + {row.id} && VersionsOf(t', key) == VersionsOf(t, key) + {row.version}
            else IdsOf(t', key) == IdsOf(t, key) && VersionsOf(t', key) == VersionsOf(t, key)
  {
    var t' := t[row.id := row];
    assert forall id :: id in t ==> t'[id] == t[id];
    forall v | v in VersionsOf(t, key)
      ensures v in VersionsOf(t', key)
    {
      var id :| id in t && HasKey(t[id], key) && t[id].version == v;
      assert t'[id] == t[id];
    }
  }

  lemma InsertedIsValid(t: Table, row: EventSchema)
    requires Valid(t) && InsertRow(t, row).Ok?
    ensures Valid(t[row.id := row])
  {
    var t' := t[row.id := row];
    assert forall id :: id in t ==> t'[id] == t[id];
    forall a, b | a in t' && b in t' && SameVersion(t'[a], t'[b])
      ensures a == b
    {
      if a != b && a == row.id {
        assert SameVersion(t[b], row);
      }
    }
    forall a, b | a in t' && b in t' && IsCurrent(t'[a]) && IsCurrent(t'[b]) && SameEvent(t'[a], t'[b])
      ensures a == b
    {
      if a != b && a == row.id {
        assert IsCurrent(t[b]) && SameEvent(t[b], row);
      }
    }
  }

  /** Statements that change no key and no version keep every publisher's versions as they are. */
  lemma SameKeysAndVersions(t: Table, t': Table)
    requires t'.Keys == t.Keys && forall id :: id in t ==> SameContent(t'[id], t[id])
    ensures forall key :: IdsOf(t', key) == IdsOf(t, key) && VersionsOf(t', key) == VersionsOf(t, key)
  {
    forall key
      ensures IdsOf(t', key) == IdsOf(t, key) && VersionsOf(t', key) == VersionsOf(t, key)
    {
      assert forall id :: id in t ==> (HasKey(t'[id], key) <==> HasKey(t[id], key)) && t'[id].version == t[id].version;
      assert IdsOf(t', key) == IdsOf(t, key);
      assert VersionsOf(t', key) == set id | id in IdsOf(t', key) :: t'[id].version;
      assert VersionsOf(t, key) == set id | id in IdsOf(t, key) :: t[id].version;
    }
  }

  lemma MarkedIsValid(t: Table, id: string, wallet: string, at: int, now: int)
    requires Valid(t) && MarkVerifiedRow(t, id, wallet, at, now).Ok?
    ensures var t' := MarkVerifiedRow(t, id, wallet, at, now).value;
            Valid(t') && t'.Keys == t.Keys && forall other :: other in t ==> SameContent(t'[other], t[other])
  {
    var t' := MarkVerifiedRow(t, id, wallet, at, now).value;
    forall a, b | a in t' && b in t' && SameVersion(t'[a], t'[b])
      ensures a == b
    {
      assert SameVersion(t[a], t[b]);
    }
    forall a, b | a in t' && b in t' && IsCurrent(t'[a]) && IsCurrent(t'[b]) && SameEvent(t'[a], t'[b])
      ensures a == b
    {
      if a == id && b != id {
        assert IsCurrent(t[b]) && SameEvent(t[b], t'[id]);
      }
    }
  }

  /** Marking one row verified, without archiving, goes through exactly when no other row of the event is the verified one. */
  lemma MarkSucceedsIffNoOther(t: Table, id: string, wallet: string, at: int, now: int)
    requires id in t && t[id].status == Status.Published
    ensures MarkVerifiedRow(t, id, wallet, at, now).Ok? <==>
              forall other :: other in t && other != id ==> !(IsCurrent(t[other]) && SameEvent(t[other], t[id]))
  {
    var row := Promote(t[id], wallet, at, now);
    assert forall other :: other in t ==> (SameEvent(t[other], row) <==> SameEvent(t[other], t[id]));
  }

  /** Every statement of every session keeps the invariant. */
  lemma StepKeepsInv(s: State, step: Step)
    requires Inv(s)
    ensures Inv(Next(s, step))
  {
    match step
    case ReadVersion(session, key, max) =>
      if IsMax(max, VersionsOf(s.rows, key)) {
        assert IsUpTo(VersionsOf(s.rows, key), |IdsOf(s.rows, key)|);
        MaxOfUpTo(VersionsOf(s.rows, key), max, |IdsOf(s.rows, key)|);
      }
    case InsertVersion(session, id, body, author, now) =>
      if session in s.sessions
         && InsertRow(s.rows, NewRow(id, s.sessions[session].key, s.sessions[session].version, body, author, now)).Ok? {
        InsertKeepsInv(s, session, id, body, author, now);
      }
    case VerifyContract(publisher, contractID, network, wallet, at, now) =>
      var targets := Targets(s.rows, publisher, contractID, network);
      ReplacedIsValid(s.rows, publisher, contractID, network, wallet, at, now);
      VerificationOutcome(s.rows, publisher, contractID, network, wallet, at, now);
      SameKeysAndVersions(s.rows, Replaced(s.rows, targets, wallet, at, now));
    case MarkOne(id, wallet, at, now) =>
      if MarkVerifiedRow(s.rows, id, wallet, at, now).Ok? {
        MarkedIsValid(s.rows, id, wallet, at, now);
        SameKeysAndVersions(s.rows, MarkVerifiedRow(s.rows, id, wallet, at, now).value);
      }
  }

  /** Dense versions under every interleaving: from an empty table, after any statements of any sessions, each publisher's
      versions of each event are exactly 1..n, one row for each. */
  lemma {:induction false} VersionsAreAlwaysDense(s: State, steps: seq<Step>)
    requires Inv(s)
    ensures Inv(Run(s, steps))
    decreases steps
  {
    if steps != [] {
      StepKeepsInv(s, steps[0]);
      VersionsAreAlwaysDense(Next(s, steps[0]), steps[1..]);
    }
  }

  lemma EmptyTableIsDense()
    ensures Inv(State(map[], map[]))
  {
    forall key
      ensures IsUpTo(VersionsOf(map[], key), |IdsOf(map[], key)|)
    {
      assert IdsOf(map[], key) == {} && VersionsOf(map[], key) == {};
    }
  }

  /** Of two sessions that read the same version, the second to insert is turned away and changes no row. */
  lemma SecondInsertIsRejected(s: State, first: nat, second: nat, id: string, id': string, body: string, body': string,
                               author: Option<string>, author': Option<string>, now: int, now': int)
    requires Inv(s) && first in s.sessions && second in s.sessions && first != second
    requires s.sessions[first] == s.sessions[second]
    requires InsertRow(s.rows, NewRow(id, s.sessions[first].key, s.sessions[first].version, body, author, now)).Ok?
    ensures var s' := Next(s, InsertVersion(first, id, body, author, now));
            Next(s', InsertVersion(second, id', body', author', now')).rows == s'.rows
  {
    var p := s.sessions[first];
    var row := NewRow(id, p.key, p.version, body, author, now);
    var t := s.rows[id := row];
    var other := NewRow(id', p.key, p.version, body', author', now');
    assert t[id] == row && SameVersion(t[id], other);
    assert ViolatesVersions(t, other);
  }

  predicate IsOwn(row: EventSchema, key: Key) {
    && row.publisherUserID == Some(key.publisher) && row.contractID == key.contractID
    && row.network == key.network && row.eventName == key.eventName
  }

  /** Publish without interference: the next version is stored, and the table stays dense. */
  method Publish(repo: SchemaRepository, id: string, key: Key, body: string, author: Option<string>, now: int)
    returns (result: Result<EventSchema, Failure>)
    requires Valid(repo.rows) && Dense(repo.rows) && id !in repo.rows
    modifies repo
    ensures Valid(repo.rows) && Dense(repo.rows)
    ensures var n := |set other | other in old(repo.rows) && IsOwn(old(repo.rows)[other], key)|;
            if n + 1 < TWO_TO_31
            then result.Ok? && IsInserted(result.value, id, key, n + 1, body, author, now) && repo.rows == old(repo.rows)[id := result.value]
            else result.Err? && repo.rows == old(repo.rows)
  {
    ghost var n := |IdsOf(repo.rows, key)|;
    OwnIds(repo.rows, key);
    var next := repo.NextVersion(key);
    NextIsCount(repo.rows, key, next);
    if next.Err? {
      return Err(next.error);
    }
    StillNext(repo.rows, id, key, body, author, now);
    InsertInFull(repo.rows, id, key, next.value, body, author, now);
    result := repo.Insert(id, key, next.value, body, author, now);
  }

  lemma OwnIds(t: Table, key: Key)
    ensures IdsOf(t, key) == set other | other in t && IsOwn(t[other], key)
  {}

  /** The maximum of a dense table is the number of rows. */
  lemma NextIsCount(t: Table, key: Key, next: Result<int, Failure>)
    requires Dense(t)
    requires exists m :: IsMax(m, VersionsOf(t, key)) && next == if m == TWO_TO_31 - 1 then Err(OutOfRange) else Ok(m + 1)
    ensures var n := |IdsOf(t, key)|; if n == TWO_TO_31 - 1 then next.Err? else next == Ok(n + 1)
  {
    assert IsUpTo(VersionsOf(t, key), |IdsOf(t, key)|);
    var m :| IsMax(m, VersionsOf(t, key)) && next == if m == TWO_TO_31 - 1 then Err(OutOfRange) else Ok(m + 1);
    MaxOfUpTo(VersionsOf(t, key), m, |IdsOf(t, key)|);
  }

  /** The next version is free, and taking it keeps the table dense. */
  lemma StillNext(t: Table, id: string, key: Key, body: string, author: Option<string>, now: int)
    requires Valid(t) && Dense(t) && id !in t
    ensures var inserted := InsertRow(t, NewRow(id, key, |IdsOf(t, key)| + 1, body, author, now));
            (inserted.Ok? <==> |IdsOf(t, key)| + 1 < TWO_TO_31) && (inserted.Ok? ==> Valid(inserted.value) && Dense(inserted.value))
  {
    var s := State(t, map[0 := Pending(key, |IdsOf(t, key)| + 1)]);
    InsertSucceedsIffStillNext(s, 0, id, body, author, now);
    StepKeepsInv(s, InsertVersion(0, id, body, author, now));
  }

  // ----- The statements of a session

  /** A read leaves the rows alone and holds the next version for the session; an insert uses it up, whether or not the row goes in;
      the row goes in if the version is free. */
  lemma SessionSteps(s: State, session: nat, key: Key, max: int, id: string, body: string, author: Option<string>, now: int)
    ensures var read := Next(s, ReadVersion(session, key, max));
            && read.rows == s.rows
            && (IsMax(max, VersionsOf(s.rows, key)) && max < 0x7FFF_FFFF ==>
                  read.sessions == s.sessions[session := Pending(key, max + 1)])
            && (!IsMax(max, VersionsOf(s.rows, key)) || max == 0x7FFF_FFFF ==> read == s)
    ensures session in s.sessions ==>
              var inserted, p := Next(s, InsertVersion(session, id, body, author, now)), s.sessions[session];
              && inserted.sessions == s.sessions - {session}
              && (if InsertRow(s.rows, NewRow(id, p.key, p.version, body, author, now)).Ok?
                  then
                    && inserted.rows.Keys == s.rows.Keys + {id} && IsInserted(inserted.rows[id], id, p.key, p.version, body, author, now)
                    && forall other :: other in s.rows ==> inserted.rows[other] == s.rows[other]
                  else inserted.rows == s.rows)
  {
    if session in s.sessions {
      var p := s.sessions[session];
      InsertInFull(s.rows, id, p.key, p.version, body, author, now);
    }
  }

  /** The other statements leave every session alone, and change the rows as they say or not at all. */
  lemma OtherSteps(s: State, step: Step)
    requires step.VerifyContract? || step.MarkOne?
    ensures Next(s, step).sessions == s.sessions
    ensures match step
            case VerifyContract(publisher, contractID, network, wallet, at, now) =>
              var done := VerifyContractRows(s.rows, publisher, contractID, network, wallet, at, now);
              Next(s, step).rows == if done.Ok? then done.value else s.rows
            case MarkOne(id, wallet, at, now) =>
              var marked := MarkVerifiedRow(s.rows, id, wallet, at, now);
              Next(s, step).rows == if marked.Ok? then marked.value else s.rows
            case _ => true
  {}
}
