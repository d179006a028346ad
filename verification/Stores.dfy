/** The ClickHouse tables of events, addresses and tokens, and writing to them in chunks: last write wins on the sort key. */
module EventStores {
  import opened Prelude

  /** An event as the RPC returns it; `body` is all but its key. */
  datatype Event = Event(network: string, contractID: string, ledger: int, id: string, body: string)

  /** A row of the events table: the event, and the semantic columns a schema adds. */
  datatype EventRow = EventRow(event: Event, semantic: string)

  datatype EventKey = EventKey(network: string, contractID: string, ledger: int, id: string)

  datatype AddressKey = AddressKey(network: string, address: string, contractID: string, eventID: string, role: string)

  datatype TokenKey = TokenKey(network: string, contractID: string, action: string, ledger: int, eventID: string)

  datatype Mention = Mention(address: string, role: string)

  datatype Hint = Hint(symbol: string, amount: string, sender: string, receiver: string, action: string)

  /** What is derived from an event's topics and value, which no schema changes. */
  datatype Extractors = Extractors(mentions: string -> seq<Mention>, transfer: string -> Option<Hint>)

  // ----- Keyed tables

  type Rows<K, V> = seq<(K, V)>

  function PutAll<K, V>(table: map<K, V>, rows: Rows<K, V>): map<K, V> {
    if rows == [] then table
    else PutAll(table, rows[..|rows| - 1])[rows[|rows| - 1].0 := rows[|rows| - 1].1]
  }

  ghost predicate HasRow<K, V>(rows: Rows<K, V>, key: K) { exists i :: 0 <= i < |rows| && rows[i].0 == key }

  /** Every key of a is a key of b. */
  ghost predicate Covers<K(!new), V, W>(b: Rows<K, V>, a: Rows<K, W>) { forall key: K :: HasRow(a, key) ==> HasRow(b, key) }

  /** The table afterwards at one key: the last row written there, or what was there before. */
  lemma {:induction false} PutAllAt<K, V>(table: map<K, V>, other: map<K, V>, rows: Rows<K, V>, key: K)
    ensures HasRow(rows, key) ==>
              key in PutAll(table, rows) && key in PutAll(other, rows) && PutAll(table, rows)[key] == PutAll(other, rows)[key]
    ensures !HasRow(rows, key) ==>
              (key in PutAll(table, rows) <==> key in table) && (key in table ==> PutAll(table, rows)[key] == table[key])
  {
    if rows != [] {
      var init, last := rows[..|rows| - 1], rows[|rows| - 1];
      PutAllAt(table, other, init, key);
      if HasRow(rows, key) && last.0 != key {
        var i :| 0 <= i < |rows| && rows[i].0 == key;
        assert init[i].0 == key;
      }
      if HasRow(init, key) {
        var i :| 0 <= i < |init| && init[i].0 == key;
        assert rows[i].0 == key;
      }
    }
  }

  /** Rows that are all written again leave no trace. */
  lemma Absorbs<K(!new), V>(table: map<K, V>, partial: Rows<K, V>, full: Rows<K, V>)
    requires Covers(full, partial)
    ensures PutAll(PutAll(table, partial), full) == PutAll(table, full)
  {
    var a, b := PutAll(PutAll(table, partial), full), PutAll(table, full);
    forall key: K
      ensures key in a <==> key in b
      ensures key in a ==> a[key] == b[key]
    {
      PutAllAt(table, PutAll(table, partial), full, key);
      PutAllAt(PutAll(table, partial), table, full, key);
      PutAllAt(table, table, partial, key);
    }
  }

  lemma {:induction false} PutAllMore<K, V>(table: map<K, V>, a: Rows<K, V>, b: Rows<K, V>)
    ensures PutAll(table, a + b) == PutAll(PutAll(table, a), b)
  {
    if b == [] {
      assert a + b == a;
    } else {
      PutAllMore(table, a, b[..|b| - 1]);
      assert (a + b)[..|a + b| - 1] == a + b[..|b| - 1];
    }
  }

  // ----- The three tables

  datatype Stores = Stores(events: map<EventKey, EventRow>, addresses: map<AddressKey, int>, tokens: map<TokenKey, Hint>)

  /** The rows written to each table, in order. */
  datatype Log = Log(events: Rows<EventKey, EventRow>, addresses: Rows<AddressKey, int>, tokens: Rows<TokenKey, Hint>)

  const NOTHING: Log := Log([], [], [])

  function Write(s: Stores, log: Log): Stores {
    Stores(PutAll(s.events, log.events), PutAll(s.addresses, log.addresses), PutAll(s.tokens, log.tokens))
  }

  function Both(a: Log, b: Log): Log { Log(a.events + b.events, a.addresses + b.addresses, a.tokens + b.tokens) }

  /** A write that was cut somewhere, in each table. */
  predicate IsCutOf(a: Log, b: Log) { a.events <= b.events && a.addresses <= b.addresses && a.tokens <= b.tokens }

  lemma WriteMore(s: Stores, a: Log, b: Log)
    ensures Write(s, Both(a, b)) == Write(Write(s, a), b)
  {
    PutAllMore(s.events, a.events, b.events);
    PutAllMore(s.addresses, a.addresses, b.addresses);
    PutAllMore(s.tokens, a.tokens, b.tokens);
  }

  function KeyOf(e: Event): EventKey { EventKey(e.network, e.contractID, e.ledger, e.id) }

  function EventEntry(row: EventRow): (EventKey, EventRow) { (KeyOf(row.event), row) }

  function EventEntries(rows: seq<EventRow>): (entries: Rows<EventKey, EventRow>)
    ensures |entries| == |rows|
  {
    seq(|rows|, i requires 0 <= i < |rows| => EventEntry(rows[i]))
  }

  function AddressEntries(x: Extractors, e: Event): Rows<AddressKey, int> {
    var found := x.mentions(e.body);
    seq(|found|, i requires 0 <= i < |found| =>
      (AddressKey(e.network, found[i].address, e.contractID, e.id, found[i].role), e.ledger))
  }

  function TokenEntries(x: Extractors, e: Event): Rows<TokenKey, Hint> {
    match x.transfer(e.body)
    case None => []
    case Some(hint) => [(TokenKey(e.network, e.contractID, hint.action, e.ledger, e.id), hint)]
  }

  /** All rows of one event. */
  function RowLog(x: Extractors, row: EventRow): Log {
    Log([EventEntry(row)], AddressEntries(x, row.event), TokenEntries(x, row.event))
  }

  /** All rows of a list of events. */
  function FullLog(x: Extractors, rows: seq<EventRow>): Log {
    if rows == [] then NOTHING else Both(FullLog(x, rows[..|rows| - 1]), RowLog(x, rows[|rows| - 1]))
  }

  lemma BothAssociates(a: Log, b: Log, c: Log)
    ensures Both(Both(a, b), c) == Both(a, Both(b, c))
  {
    assert (a.events + b.events) + c.events == a.events + (b.events + c.events);
    assert (a.addresses + b.addresses) + c.addresses == a.addresses + (b.addresses + c.addresses);
    assert (a.tokens + b.tokens) + c.tokens == a.tokens + (b.tokens + c.tokens);
  }

  lemma BothNothing(a: Log)
    ensures Both(a, NOTHING) == a && Both(NOTHING, a) == a
  {}

  lemma FullLogNext(x: Extractors, rows: seq<EventRow>, row: EventRow)
    ensures FullLog(x, rows + [row]) == Both(FullLog(x, rows), RowLog(x, row))
  {
    assert (rows + [row])[..|rows|] == rows;
  }

  lemma {:induction false} FullLogMore(x: Extractors, a: seq<EventRow>, b: seq<EventRow>)
    ensures FullLog(x, a + b) == Both(FullLog(x, a), FullLog(x, b))
  {
    if b == [] {
      assert a + b == a;
      BothNothing(FullLog(x, a));
    } else {
      var init, last := b[..|b| - 1], b[|b| - 1];
      FullLogMore(x, a, init);
      assert a + b == (a + init) + [last] && b == init + [last];
      FullLogNext(x, a + init, last);
      FullLogNext(x, init, last);
      BothAssociates(FullLog(x, a), FullLog(x, init), RowLog(x, last));
    }
  }

  lemma BothIsCut(a: Log, b: Log, c: Log)
    requires IsCutOf(b, c)
    ensures IsCutOf(Both(a, b), Both(a, c))
  {}

  lemma CutOfMore(a: Log, b: Log, c: Log)
    requires IsCutOf(a, b)
    ensures IsCutOf(a, Both(b, c))
  {}

  // ----- The rows of a cycle

  function Enriched(events: seq<Event>, enrich: Event -> string): seq<EventRow> {
    seq(|events|, i requires 0 <= i < |events| => EventRow(events[i], enrich(events[i])))
  }

  /** The rows of the events of a cycle, under the schemas of the time. */
  function CycleLog(x: Extractors, events: seq<Event>, enrich: Event -> string): Log { FullLog(x, Enriched(events, enrich)) }

  lemma NoEvents(x: Extractors, enrich: Event -> string)
    ensures CycleLog(x, [], enrich) == NOTHING
  {
    assert Enriched([], enrich) == [];
  }

  lemma CutIsCovered<K(!new), V>(a: Rows<K, V>, b: Rows<K, V>)
    requires a <= b
    ensures Covers(b, a)
  {
    forall key: K | HasRow(a, key)
      ensures HasRow(b, key)
    {
      var i :| 0 <= i < |a| && a[i].0 == key;
      assert b[i].0 == key;
    }
  }

  /** The schemas change the semantic columns, and nothing else. */
  lemma {:induction false} SameDerived(x: Extractors, events: seq<Event>, enrich: Event -> string, enrich': Event -> string)
    ensures var a, b := CycleLog(x, events, enrich), CycleLog(x, events, enrich');
            && a.addresses == b.addresses && a.tokens == b.tokens
            && |a.events| == |b.events| == |events|
            && forall i :: 0 <= i < |events| ==> a.events[i].0 == b.events[i].0
  {
    if events != [] {
      var init := events[..|events| - 1];
      SameDerived(x, init, enrich, enrich');
      assert Enriched(events, enrich)[..|events| - 1] == Enriched(init, enrich);
      assert Enriched(events, enrich')[..|events| - 1] == Enriched(init, enrich');
    }
  }

  // ----- Rows that a later write covers

  ghost predicate CoversLog(b: Log, a: Log) {
    Covers(b.events, a.events) && Covers(b.addresses, a.addresses) && Covers(b.tokens, a.tokens)
  }

  lemma AbsorbsLog(s: Stores, partial: Log, full: Log)
    requires CoversLog(full, partial)
    ensures Write(Write(s, partial), full) == Write(s, full)
  {
    Absorbs(s.events, partial.events, full.events);
    Absorbs(s.addresses, partial.addresses, full.addresses);
    Absorbs(s.tokens, partial.tokens, full.tokens);
  }

  lemma CoversCut(full: Log, whole: Log, cut: Log)
    requires CoversLog(full, whole) && IsCutOf(cut, whole)
    ensures CoversLog(full, cut)
  {
    CutIsCovered(cut.events, whole.events);
    CutIsCovered(cut.addresses, whole.addresses);
    CutIsCovered(cut.tokens, whole.tokens);
  }

  lemma HasRowOfBoth<K, V>(a: Rows<K, V>, b: Rows<K, V>, key: K)
    ensures HasRow(a + b, key) <==> HasRow(a, key) || HasRow(b, key)
  {
    if HasRow(a, key) {
      var i :| 0 <= i < |a| && a[i].0 == key;
      assert (a + b)[i] == a[i];
    }
    if HasRow(b, key) {
      var i :| 0 <= i < |b| && b[i].0 == key;
      assert (a + b)[|a| + i] == b[i];
    }
  }

  lemma CoversRowsOfBoth<K(!new), V, W>(a: Rows<K, V>, b: Rows<K, V>, c: Rows<K, W>)
    ensures Covers(a, c) || Covers(b, c) ==> Covers(a + b, c)
    ensures Covers(c, a) && Covers(c, b) ==> Covers(c, a + b)
  {
    forall key: K
      ensures HasRow(a + b, key) <==> HasRow(a, key) || HasRow(b, key)
    {
      HasRowOfBoth(a, b, key);
    }
  }

  lemma CoversBoth(a: Log, b: Log, c: Log)
    ensures CoversLog(a, c) || CoversLog(b, c) ==> CoversLog(Both(a, b), c)
    ensures CoversLog(c, a) && CoversLog(c, b) ==> CoversLog(c, Both(a, b))
  {
    CoversRowsOfBoth(a.events, b.events, c.events);
    CoversRowsOfBoth(a.addresses, b.addresses, c.addresses);
    CoversRowsOfBoth(a.tokens, b.tokens, c.tokens);
  }

  lemma CoversSameRow(x: Extractors, e: Event, semantic: string, semantic': string)
    ensures CoversLog(RowLog(x, EventRow(e, semantic)), RowLog(x, EventRow(e, semantic')))
  {
    var a, b := RowLog(x, EventRow(e, semantic)), RowLog(x, EventRow(e, semantic'));
    assert a.events[0].0 == b.events[0].0;
  }

  lemma LastOfCycle(x: Extractors, events: seq<Event>, enrich: Event -> string)
    requires events != []
    ensures var n := |events| - 1;
            CycleLog(x, events, enrich) == Both(CycleLog(x, events[..n], enrich), RowLog(x, EventRow(events[n], enrich(events[n]))))
  {
    assert Enriched(events, enrich)[..|events| - 1] == Enriched(events[..|events| - 1], enrich);
  }

  lemma {:induction false} RowIsCovered(x: Extractors, events: seq<Event>, enrich: Event -> string, e: Event, semantic: string)
    requires e in events
    ensures CoversLog(CycleLog(x, events, enrich), RowLog(x, EventRow(e, semantic)))
  {
    var init, last, row := events[..|events| - 1], events[|events| - 1], RowLog(x, EventRow(e, semantic));
    var final := RowLog(x, EventRow(last, enrich(last)));
    LastOfCycle(x, events, enrich);
    CoversBoth(CycleLog(x, init, enrich), final, row);
    if e == last {
      CoversSameRow(x, e, enrich(e), semantic);
    } else {
      RowIsCovered(x, init, enrich, e, semantic);
    }
  }

  ghost predicate IsPart(part: seq<Event>, whole: seq<Event>) { forall e :: e in part ==> e in whole }

  /** Whatever the schemas, some of the events leave no row that all of them do not write again. */
  lemma {:induction false} PartIsCovered(x: Extractors, part: seq<Event>, enrich: Event -> string, whole: seq<Event>, enrich': Event -> string)
    requires IsPart(part, whole)
    ensures CoversLog(CycleLog(x, whole, enrich'), CycleLog(x, part, enrich))
  {
    var full := CycleLog(x, whole, enrich');
    if part == [] {
      NoEvents(x, enrich);
    } else {
      var init, last := part[..|part| - 1], part[|part| - 1];
      PartIsCovered(x, init, enrich, whole, enrich');
      RowIsCovered(x, whole, enrich', last, enrich(last));
      LastOfCycle(x, part, enrich);
      CoversBoth(CycleLog(x, init, enrich), RowLog(x, EventRow(last, enrich(last))), full);
    }
  }

  lemma CoversTransitively(a: Log, b: Log, c: Log)
    requires CoversLog(a, b) && CoversLog(b, c)
    ensures CoversLog(a, c)
  {}

  lemma CoversItself(a: Log)
    ensures CoversLog(a, a)
  {}

  /** The rows of the events, whatever the schemas. */
  ghost predicate CoversEvents(x: Extractors, full: Log, events: seq<Event>) {
    forall enrich: Event -> string :: CoversLog(full, CycleLog(x, events, enrich))
  }

  lemma CoversAnySchemas(x: Extractors, events: seq<Event>, enrich: Event -> string, full: Log)
    requires CoversLog(full, CycleLog(x, events, enrich))
    ensures CoversEvents(x, full, events)
  {
    forall enrich': Event -> string
      ensures CoversLog(full, CycleLog(x, events, enrich'))
    {
      PartIsCovered(x, events, enrich', events, enrich);
      CoversTransitively(full, CycleLog(x, events, enrich), CycleLog(x, events, enrich'));
    }
  }

  lemma NothingIsCovered(x: Extractors, full: Log)
    ensures CoversLog(full, NOTHING) && CoversEvents(x, full, [])
  {
    forall enrich: Event -> string
      ensures CoversLog(full, CycleLog(x, [], enrich))
    {
      NoEvents(x, enrich);
    }
  }

  // ----- Convergence

  /** What has been cut is covered by a full write, under whatever schemas. */
  lemma CutIsCoveredByRerun(x: Extractors, events: seq<Event>, enrich: Event -> string, enrich': Event -> string, cut: Log)
    requires IsCutOf(cut, CycleLog(x, events, enrich'))
    ensures CoversLog(CycleLog(x, events, enrich), cut)
  {
    PartIsCovered(x, events, enrich', events, enrich);
    CoversCut(CycleLog(x, events, enrich), CycleLog(x, events, enrich'), cut);
  }

  /** An attempt at a cycle: the schemas it ran under, and what it wrote before it was cut. */
  datatype Attempt = Attempt(enrich: Event -> string, cut: Log)

  ghost predicate AreAttempts(x: Extractors, events: seq<Event>, attempts: seq<Attempt>) {
    forall i :: 0 <= i < |attempts| ==> IsCutOf(attempts[i].cut, CycleLog(x, events, attempts[i].enrich))
  }

  function WriteAttempts(s: Stores, attempts: seq<Attempt>): Stores
    decreases |attempts|
  {
    if attempts == [] then s else WriteAttempts(Write(s, attempts[0].cut), attempts[1..])
  }

  /** Crash and re-run converge: after any number of attempts, each cut anywhere and each under its own schemas, a full run leaves
      the three tables as if it had been the only one. */
  lemma {:induction false} CrashAndRerunConverge(x: Extractors, s: Stores, events: seq<Event>, attempts: seq<Attempt>,
                                                 enrich: Event -> string)
    requires AreAttempts(x, events, attempts)
    ensures Write(WriteAttempts(s, attempts), CycleLog(x, events, enrich)) == Write(s, CycleLog(x, events, enrich))
    decreases |attempts|
  {
    if attempts != [] {
      var cut, full := attempts[0].cut, CycleLog(x, events, enrich);
      CrashAndRerunConverge(x, Write(s, cut), events, attempts[1..], enrich);
      CutIsCoveredByRerun(x, events, enrich, attempts[0].enrich, cut);
      AbsorbsLog(s, cut, full);
    }
  }

  // ----- The tables in terms of the events

  /** Of the rows of one key the last one written is the one that is there. */
  lemma {:induction false} LastRowWins<K, V>(table: map<K, V>, rows: Rows<K, V>, i: nat)
    requires i < |rows| && forall k :: i < k < |rows| ==> rows[k].0 != rows[i].0
    ensures rows[i].0 in PutAll(table, rows) && PutAll(table, rows)[rows[i].0] == rows[i].1
  {
    if i < |rows| - 1 {
      LastRowWins(table, rows[..|rows| - 1], i);
    }
  }

  /** All rows of the event are among those written: itself with the columns of its schema, every address it mentions with the
      role, and its transfer, each under the key of its table. */
  ghost predicate IsStored(log: Log, x: Extractors, e: Event, semantic: string) {
    && (EventKey(e.network, e.contractID, e.ledger, e.id), EventRow(e, semantic)) in log.events
    && (forall m :: m in x.mentions(e.body) ==> (AddressKey(e.network, m.address, e.contractID, e.id, m.role), e.ledger) in log.addresses)
    && (x.transfer(e.body).Some? ==>
          (TokenKey(e.network, e.contractID, x.transfer(e.body).value.action, e.ledger, e.id), x.transfer(e.body).value) in log.tokens)
  }

  /** A row that is written belongs to one of the events. */
  ghost predicate ComesFrom(log: Log, x: Extractors, events: seq<Event>, enrich: Event -> string) {
    && (forall row :: row in log.events ==>
          exists e :: e in events && row == (EventKey(e.network, e.contractID, e.ledger, e.id), EventRow(e, enrich(e))))
    && (forall row :: row in log.addresses ==>
          exists e, m :: e in events && m in x.mentions(e.body) && row == (AddressKey(e.network, m.address, e.contractID, e.id, m.role), e.ledger))
    && (forall row :: row in log.tokens ==>
          exists e :: e in events && x.transfer(e.body).Some?
                      && row == (TokenKey(e.network, e.contractID, x.transfer(e.body).value.action, e.ledger, e.id), x.transfer(e.body).value))
  }

  lemma RowIsStored(x: Extractors, e: Event, semantic: string)
    ensures IsStored(RowLog(x, EventRow(e, semantic)), x, e, semantic)
  {
    var log := RowLog(x, EventRow(e, semantic));
    assert log.events[0] == (EventKey(e.network, e.contractID, e.ledger, e.id), EventRow(e, semantic));
    forall m | m in x.mentions(e.body)
      ensures (AddressKey(e.network, m.address, e.contractID, e.id, m.role), e.ledger) in log.addresses
    {
      var k :| 0 <= k < |x.mentions(e.body)| && x.mentions(e.body)[k] == m;
      assert log.addresses[k] == (AddressKey(e.network, m.address, e.contractID, e.id, m.role), e.ledger);
    }
  }

  lemma RowComesFrom(x: Extractors, e: Event, enrich: Event -> string)
    ensures ComesFrom(RowLog(x, EventRow(e, enrich(e))), x, [e], enrich)
  {
    assert e in [e];
    var log := RowLog(x, EventRow(e, enrich(e)));
    forall row | row in log.addresses
      ensures exists m :: m in x.mentions(e.body) && row == (AddressKey(e.network, m.address, e.contractID, e.id, m.role), e.ledger)
    {
      var k :| 0 <= k < |log.addresses| && log.addresses[k] == row;
      assert x.mentions(e.body)[k] in x.mentions(e.body);
    }
  }

  lemma StoredInBoth(a: Log, b: Log, x: Extractors, e: Event, semantic: string)
    ensures IsStored(a, x, e, semantic) || IsStored(b, x, e, semantic) ==> IsStored(Both(a, b), x, e, semantic)
  {}

  ghost predicate AllStored(log: Log, x: Extractors, events: seq<Event>, enrich: Event -> string) {
    forall e :: e in events ==> IsStored(log, x, e, enrich(e))
  }

  lemma AllStoredInBoth(a: Log, b: Log, x: Extractors, events: seq<Event>, last: Event, enrich: Event -> string)
    requires AllStored(a, x, events, enrich) && IsStored(b, x, last, enrich(last))
    ensures AllStored(Both(a, b), x, events + [last], enrich)
  {
    forall e | e in events + [last]
      ensures IsStored(Both(a, b), x, e, enrich(e))
    {
      StoredInBoth(a, b, x, e, enrich(e));
    }
  }

  /** The rows written for a list of events are the rows of these events, and no others. */
  lemma {:induction false} EventsAreStored(x: Extractors, events: seq<Event>, enrich: Event -> string)
    ensures AllStored(CycleLog(x, events, enrich), x, events, enrich)
    ensures ComesFrom(CycleLog(x, events, enrich), x, events, enrich)
  {
    if events == [] {
      NoEvents(x, enrich);
    } else {
      var init, last := events[..|events| - 1], events[|events| - 1];
      EventsAreStored(x, init, enrich);
      LastOfCycle(x, events, enrich);
      RowIsStored(x, last, enrich(last));
      RowComesFrom(x, last, enrich);
      assert events == init + [last];
      AllStoredInBoth(CycleLog(x, init, enrich), RowLog(x, EventRow(last, enrich(last))), x, init, last, enrich);
      BothComeFrom(CycleLog(x, init, enrich), RowLog(x, EventRow(last, enrich(last))), x, init, [last], enrich);
    }
  }

  lemma BothComeFrom(a: Log, b: Log, x: Extractors, events: seq<Event>, more: seq<Event>, enrich: Event -> string)
    requires ComesFrom(a, x, events, enrich) && ComesFrom(b, x, more, enrich)
    ensures ComesFrom(Both(a, b), x, events + more, enrich)
  {
    forall row | row in a.events + b.events
      ensures exists e :: e in events + more && row == (EventKey(e.network, e.contractID, e.ledger, e.id), EventRow(e, enrich(e)))
    {
      if row in a.events {
        var e :| e in events && row == (EventKey(e.network, e.contractID, e.ledger, e.id), EventRow(e, enrich(e)));
        assert e in events + more;
      } else {
        var e :| e in more && row == (EventKey(e.network, e.contractID, e.ledger, e.id), EventRow(e, enrich(e)));
        assert e in events + more;
      }
    }
  }

  // ----- Writing

  /** What comes of a batch insert: all rows land, or an error after some of them. */
  datatype Landing = Landing(ok: bool, rows: nat)

  function Landed(landing: Landing, count: nat): (n: nat)
    ensures n <= count && (landing.ok ==> n == count)
  {
    if landing.ok then count else Min(landing.rows, count)
  }

  class Warehouse {
    var events: map<EventKey, EventRow>
    var addresses: map<AddressKey, int>
    var tokens: map<TokenKey, Hint>

    ghost function State(): Stores
      reads this
    {
      Stores(events, addresses, tokens)
    }

    constructor ()
      ensures State() == Stores(map[], map[], map[])
    {
      events, addresses, tokens := map[], map[], map[];
    }

    method UpsertBatch(chunk: seq<EventRow>, landing: Landing) returns (ok: bool, ghost written: Log)
      modifies this
      ensures ok == landing.ok
      ensures written == Log(EventEntries(chunk)[..Landed(landing, |chunk|)], [], [])
      ensures State() == Write(old(State()), written)
    {
      ghost var all := EventEntries(chunk);
      var n := Landed(landing, |chunk|);
      for i := 0 to n
        invariant State() == old(State()).(events := PutAll(old(events), all[..i]))
      {
        events := events[KeyOf(chunk[i].event) := chunk[i]];
        assert all[..i + 1][..i] == all[..i];
      }
      written := Log(all[..n], [], []);
      ok := landing.ok;
    }

    method UpsertAddresses(rows: Rows<AddressKey, int>, landing: Landing) returns (ok: bool, ghost written: Log)
      modifies this
      ensures ok == landing.ok
      ensures written == Log([], rows[..Landed(landing, |rows|)], [])
      ensures State() == Write(old(State()), written)
    {
      var n := Landed(landing, |rows|);
      for i := 0 to n
        invariant State() == old(State()).(addresses := PutAll(old(addresses), rows[..i]))
      {
        addresses := addresses[rows[i].0 := rows[i].1];
        assert rows[..i + 1][..i] == rows[..i];
      }
      written := Log([], rows[..n], []);
      ok := landing.ok;
    }

    method UpsertTokenEvents(rows: Rows<TokenKey, Hint>, landing: Landing) returns (ok: bool, ghost written: Log)
      modifies this
      ensures ok == landing.ok
      ensures written == Log([], [], rows[..Landed(landing, |rows|)])
      ensures State() == Write(old(State()), written)
    {
      var n := Landed(landing, |rows|);
      for i := 0 to n
        invariant State() == old(State()).(tokens := PutAll(old(tokens), rows[..i]))
      {
        tokens := tokens[rows[i].0 := rows[i].1];
        assert rows[..i + 1][..i] == rows[..i];
      }
      written := Log([], [], rows[..n]);
      ok := landing.ok;
    }
  }

  method ExtractDerived(x: Extractors, rows: seq<EventRow>) returns (addresses: Rows<AddressKey, int>, tokens: Rows<TokenKey, Hint>)
    ensures addresses == FullLog(x, rows).addresses && tokens == FullLog(x, rows).tokens
  {
    addresses, tokens := [], [];
    for i := 0 to |rows|
      invariant addresses == FullLog(x, rows[..i]).addresses && tokens == FullLog(x, rows[..i]).tokens
    {
      var e := rows[i].event;
      assert rows[..i + 1][..i] == rows[..i];
      var found := x.mentions(e.body);
      for k := 0 to |found|
        invariant addresses == FullLog(x, rows[..i]).addresses + AddressEntries(x, e)[..k]
      {
        addresses := addresses + [(AddressKey(e.network, found[k].address, e.contractID, e.id, found[k].role), e.ledger)];
      }
      var hint := x.transfer(e.body);
      if hint.Some? {
        tokens := tokens + [(TokenKey(e.network, e.contractID, hint.value.action, e.ledger, e.id), hint.value)];
      }
    }
    assert rows[..|rows|] == rows;
  }

  lemma {:induction false} FullEvents(x: Extractors, rows: seq<EventRow>)
    ensures FullLog(x, rows).events == EventEntries(rows)
  {
    if rows != [] {
      FullEvents(x, rows[..|rows| - 1]);
    }
  }

  /** What is derived from a chunk; an empty list is not written. */
  method PersistDerived(w: Warehouse, addresses: Rows<AddressKey, int>, tokens: Rows<TokenKey, Hint>, landings: nat -> Landing, call: nat)
    returns (ok: bool, next: nat, ghost written: Log)
    modifies w
    ensures w.State() == Write(old(w.State()), written)
    ensures IsCutOf(written, Log([], addresses, tokens)) && (ok ==> written == Log([], addresses, tokens))
    ensures call <= next <= call + 2
    ensures (forall i :: call <= i < call + 2 ==> landings(i).ok) ==> ok
  {
    ok, next, written := true, call, NOTHING;
    if |addresses| > 0 {
      ok, written := w.UpsertAddresses(addresses, landings(next));
      next := next + 1;
      if !ok {
        return;
      }
    }
    if |tokens| > 0 {
      ghost var before, more := written, NOTHING;
      ok, more := w.UpsertTokenEvents(tokens, landings(next));
      WriteMore(old(w.State()), before, more);
      written := Both(before, more);
      next := next + 1;
    }
  }

  lemma ChunkParts(events: Rows<EventKey, EventRow>, derived: Log, full: Log)
    requires events == full.events && IsCutOf(derived, Log([], full.addresses, full.tokens))
    ensures Both(Log(events, [], []), derived) == Log(events, derived.addresses, derived.tokens)
    ensures IsCutOf(Log(events, derived.addresses, derived.tokens), full)
  {}

  /** One chunk: its events, then what is derived from them. Number `call` is the first of its batch inserts. */
  method PersistChunk(w: Warehouse, x: Extractors, chunk: seq<EventRow>, landings: nat -> Landing, call: nat)
    returns (ok: bool, next: nat, ghost written: Log)
    modifies w
    ensures w.State() == Write(old(w.State()), written)
    ensures IsCutOf(written, FullLog(x, chunk)) && (ok ==> written == FullLog(x, chunk))
    ensures call < next <= call + 3
    ensures (forall i :: call <= i < call + 3 ==> landings(i).ok) ==> ok
  {
    FullEvents(x, chunk);
    ok, written := w.UpsertBatch(chunk, landings(call));
    next := call + 1;
    if !ok {
      return;
    }
    var addresses, tokens := ExtractDerived(x, chunk);
    ghost var more;
    ok, next, more := PersistDerived(w, addresses, tokens, landings, next);
    WriteMore(old(w.State()), written, more);
    ChunkParts(written.events, more, FullLog(x, chunk));
    written := Both(written, more);
  }

  /** persist: whatever the chunk size, what is written is cut from the events' rows, and without an error it is all of them. */
  method Persist(w: Warehouse, x: Extractors, rows: seq<EventRow>, batchSize: int, landings: nat -> Landing, call: nat)
    returns (ok: bool, next: nat, ghost written: Log)
    modifies w
    ensures w.State() == Write(old(w.State()), written)
    ensures IsCutOf(written, FullLog(x, rows)) && (ok ==> written == FullLog(x, rows))
    ensures next >= call
    ensures (forall i :: call <= i ==> landings(i).ok) ==> ok
  {
    next, written := call, NOTHING;
    if |rows| == 0 {
      return true, next, written;
    }
    var chunkSize := if batchSize <= 0 then |rows| else batchSize;
    var i := 0;
    while i < |rows|
      invariant 0 <= i <= |rows| && next >= call
      invariant written == FullLog(x, rows[..i]) && w.State() == Write(old(w.State()), written)
    {
      var end := Min(i + chunkSize, |rows|);
      ghost var before, more := written, NOTHING;
      ok, next, more := PersistChunk(w, x, rows[i..end], landings, next);
      WriteMore(old(w.State()), before, more);
      written := Both(before, more);
      ChunkOf(x, rows, i, end, more);
      if !ok {
        return;
      }
      i := end;
    }
    assert rows[..i] == rows;
    ok := true;
  }

  lemma ChunkOf(x: Extractors, rows: seq<EventRow>, i: nat, end: nat, more: Log)
    requires i <= end <= |rows| && IsCutOf(more, FullLog(x, rows[i..end]))
    ensures IsCutOf(Both(FullLog(x, rows[..i]), more), FullLog(x, rows))
    ensures more == FullLog(x, rows[i..end]) ==> Both(FullLog(x, rows[..i]), more) == FullLog(x, rows[..end])
  {
    assert rows[..i] + rows[i..end] == rows[..end] && rows[..end] + rows[end..] == rows;
    FullLogMore(x, rows[..i], rows[i..end]);
    FullLogMore(x, rows[..end], rows[end..]);
    BothIsCut(FullLog(x, rows[..i]), more, FullLog(x, rows[i..end]));
    CutOfMore(Both(FullLog(x, rows[..i]), more), FullLog(x, rows[..end]), FullLog(x, rows[end..]));
  }
}
