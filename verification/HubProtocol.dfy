/** lib/realtime/hub.go under every interleaving: critical sections, single sends and single receives as steps. */
module HubProtocol {
  import opened Prelude
  import opened RealtimeHub

  /** A message on its way, and the broadcast it comes from, if any. */
  datatype Sent = Sent(msg: Message, origin: Option<nat>)

  /** A client's channel, with all it was offered, what its buffer accepted, what its pump took, and how often it was closed. */
  datatype Channel = Channel(network: string, queue: seq<Sent>, open: bool, closings: nat,
                             offered: seq<Sent>, accepted: seq<Sent>, taken: seq<Sent>)

  /** A broadcast holding the read lock, its number, the clients it has yet to come to, and those it found with a full buffer. */
  datatype Cast = Cast(serial: nat, network: string, msg: Message, todo: set<string>, full: set<string>)

  /** The channels of all clients there ever were, the map of the hub, the broadcasts under way, and how many there have been. Go
      panics on a send on, or a closing of, a closed channel. */
  datatype State = State(maxClients: nat, channels: map<string, Channel>, members: set<string>, casts: map<string, Cast>,
                         serial: nat, panicked: bool)

  function Start(maxClients: int): State { State(if maxClients <= 0 then 500 else maxClients, map[], {}, map[], 0, false) }

  datatype Step =
    | Register(client: string, network: string)
    | Unregister(client: string)
    | CloseAll
    | BeginCast(cast: string, network: string, msg: Message)
    | CastTo(cast: string, client: string)
    | EndCast(cast: string)
    | SendTo(client: string, msg: Message)
    | Pump(client: string)

  /** Offering a message to a channel: a full buffer drops it. */
  function Offered(c: Channel, msg: Sent): Channel {
    if |c.queue| < SEND_BUFFER
    then c.(queue := c.queue + [msg], offered := c.offered + [msg], accepted := c.accepted + [msg])
    else c.(offered := c.offered + [msg])
  }

  function Send(s: State, client: string, msg: Sent): State
    requires client in s.channels
  {
    s.(channels := s.channels[client := Offered(s.channels[client], msg)], panicked := s.panicked || !s.channels[client].open)
  }

  function SentBy(cast: Cast): Sent { Sent(cast.msg, Some(cast.serial)) }

  function Passed(cast: Cast, client: string, c: Channel): Cast {
    cast.(todo := cast.todo - {client}, full := if |c.queue| < SEND_BUFFER then cast.full else cast.full + {client})
  }

  function Shut(c: Channel): Channel { c.(open := false, closings := c.closings + 1) }

  /** Only steps that the locks allow: the write lock waits for the broadcasts under way. */
  predicate Enabled(s: State, step: Step) {
    match step
    case Register(client, _) => s.casts == map[] && client !in s.channels
    case Unregister(client) => s.casts == map[] && client in s.channels
    case CloseAll => s.casts == map[]
    case BeginCast(cast, _, _) => cast !in s.casts
    case CastTo(cast, client) => cast in s.casts && client in s.casts[cast].todo && client in s.channels
    case EndCast(cast) => cast in s.casts && s.casts[cast].todo == {}
    case SendTo(client, _) => client in s.members && client in s.channels
    case Pump(client) => client in s.channels && s.channels[client].queue != []
  }

  function Next(s: State, step: Step): State
    requires Enabled(s, step)
  {
    match step
    case Register(client, network) =>
      if |s.members| >= s.maxClients then s
      else s.(channels := s.channels[client := Channel(network, [], true, 0, [], [], [])], members := s.members + {client})
    case Unregister(client) =>
      if client !in s.members then s
      else s.(channels := s.channels[client := Shut(s.channels[client])], members := s.members - {client},
              panicked := s.panicked || !s.channels[client].open)
    case CloseAll =>
      s.(channels := map c | c in s.channels :: if c in s.members then Shut(s.channels[c]) else s.channels[c],
         members := {},
         panicked := s.panicked || exists c :: c in s.members && c in s.channels && !s.channels[c].open)
    case BeginCast(cast, network, msg) => s.(casts := s.casts[cast := Cast(s.serial, network, msg, s.members, {})], serial := s.serial + 1)
    case CastTo(cast, client) =>
      var under := s.casts[cast];
      var sent := if s.channels[client].network == under.network then Send(s, client, SentBy(under)) else s;
      sent.(casts := s.casts[cast := Passed(under, client, s.channels[client])])
    case EndCast(cast) => s.(casts := s.casts - {cast})
    case SendTo(client, msg) => Send(s, client, Sent(msg, None))
    case Pump(client) =>
      var c := s.channels[client];
      s.(channels := s.channels[client := c.(queue := c.queue[1..], taken := c.taken + [c.queue[0]])])
  }

  /** A run takes the steps that are enabled and passes over the others. */
  function Run(s: State, steps: seq<Step>): State
    decreases |steps|
  {
    if steps == [] then s
    else Run(if Enabled(s, steps[0]) then Next(s, steps[0]) else s, steps[1..])
  }

  // ----- What every step keeps

  /** a is b without some of its messages, in order. */
  predicate IsSubsequence(a: seq<Sent>, b: seq<Sent>)
    decreases |b|
  {
    if b == [] then a == []
    else IsSubsequence(a, b[..|b| - 1]) || (a != [] && a[|a| - 1] == b[|b| - 1] && IsSubsequence(a[..|a| - 1], b[..|b| - 1]))
  }

  ghost predicate GoodChannel(c: Channel, isMember: bool) {
    && (c.open <==> isMember)
    && c.closings == (if c.open then 0 else 1)
    && |c.queue| <= 32
    && c.accepted == c.taken + c.queue
    && IsSubsequence(c.accepted, c.offered)
  }

  /** How many of the messages come from that broadcast. */
  function Copies(msgs: seq<Sent>, serial: nat): nat {
    if msgs == [] then 0
    else Copies(msgs[..|msgs| - 1], serial) + (if msgs[|msgs| - 1].origin == Some(serial) then 1 else 0)
  }

  /** No broadcast offers its message twice, and none that has not begun does so. */
  ghost predicate OffersOnce(c: Channel, serial: nat) {
    forall n: nat :: Copies(c.accepted, n) <= Copies(c.offered, n) <= if n < serial then 1 else 0
  }

  /** The clients a broadcast is for: those in the map for its network. */
  predicate IsFor(cast: Cast, c: Channel, isMember: bool) { isMember && c.network == cast.network }

  /** The broadcast has offered its message, once, to the clients it is for and has passed, and to no others; and it has got it into
      the buffers that were not full. */
  ghost predicate IsServed(c: Channel, client: string, isMember: bool, cast: Cast) {
    if IsFor(cast, c, isMember) && client !in cast.todo
    then Copies(c.offered, cast.serial) == 1 && SentBy(cast) in c.offered && IsDelivered(c, client, cast)
    else Copies(c.offered, cast.serial) == 0 && (client in cast.todo ==> client !in cast.full)
  }

  ghost predicate IsDelivered(c: Channel, client: string, cast: Cast) {
    if client in cast.full then Copies(c.accepted, cast.serial) == 0
    else Copies(c.accepted, cast.serial) == 1 && SentBy(cast) in c.accepted
  }

  /** Broadcasts under way have different numbers, and none comes to a client that is not in the map. */
  ghost predicate GoodCasts(casts: map<string, Cast>, members: set<string>, serial: nat) {
    && (forall k :: k in casts ==> casts[k].todo <= members && casts[k].serial < serial)
    && (forall j, k :: j in casts && k in casts && casts[j].serial == casts[k].serial ==> j == k)
  }

  ghost predicate GoodClient(c: Channel, client: string, members: set<string>, casts: map<string, Cast>, serial: nat) {
    && GoodChannel(c, client in members)
    && OffersOnce(c, serial)
    && forall k :: k in casts ==> IsServed(c, client, client in members, casts[k])
  }

  ghost predicate Inv(s: State) {
    && !s.panicked
    && |s.members| <= s.maxClients && s.members <= s.channels.Keys
    && GoodCasts(s.casts, s.members, s.serial)
    && forall client :: client in s.channels ==> GoodClient(s.channels[client], client, s.members, s.casts, s.serial)
  }

  lemma OfferedIsGood(c: Channel, msg: Sent)
    requires GoodChannel(c, true)
    ensures GoodChannel(Offered(c, msg), true)
  {
    var o := Offered(c, msg);
    assert o.offered[..|o.offered| - 1] == c.offered;
    if |c.queue| < SEND_BUFFER {
      assert o.accepted[..|o.accepted| - 1] == c.accepted;
      assert o.accepted == o.taken + o.queue;
    }
  }

  lemma CopiesOffered(c: Channel, msg: Sent)
    ensures msg in Offered(c, msg).offered && forall m :: m in c.offered ==> m in Offered(c, msg).offered
    ensures forall n: nat :: Copies(Offered(c, msg).offered, n) == Copies(c.offered, n) + if msg.origin == Some(n) then 1 else 0
    ensures |c.queue| < 32 ==> msg in Offered(c, msg).accepted
    ensures forall m :: m in c.accepted ==> m in Offered(c, msg).accepted
    ensures forall n: nat :: Copies(Offered(c, msg).accepted, n) ==
                             Copies(c.accepted, n) + if |c.queue| < 32 && msg.origin == Some(n) then 1 else 0
  {
    assert (c.offered + [msg])[..|c.offered|] == c.offered && (c.accepted + [msg])[..|c.accepted|] == c.accepted;
    assert Offered(c, msg).offered == c.offered + [msg];
    assert Offered(c, msg).accepted == if |c.queue| < 32 then c.accepted + [msg] else c.accepted;
  }

  /** An offer that does not come from the broadcast is nothing to it. */
  lemma OtherStaysServed(c: Channel, msg: Sent, client: string, cast: Cast)
    requires IsServed(c, client, true, cast) && msg.origin != Some(cast.serial)
    ensures IsServed(Offered(c, msg), client, true, cast)
  {
    CopiesOffered(c, msg);
  }

  lemma NowServed(c: Channel, client: string, cast: Cast)
    requires IsServed(c, client, true, cast) && client in cast.todo && c.network == cast.network
    requires Copies(c.accepted, cast.serial) <= Copies(c.offered, cast.serial)
    ensures IsServed(Offered(c, SentBy(cast)), client, true, Passed(cast, client, c))
  {
    CopiesOffered(c, SentBy(cast));
  }

  lemma StaysOnce(c: Channel, msg: Sent, serial: nat)
    requires OffersOnce(c, serial)
    requires msg.origin.Some? ==> msg.origin.value < serial && Copies(c.offered, msg.origin.value) == 0
    ensures OffersOnce(Offered(c, msg), serial)
  {
    CopiesOffered(c, msg);
  }

  lemma SentToIsGood(c: Channel, client: string, members: set<string>, casts: map<string, Cast>, serial: nat, msg: Message)
    requires GoodClient(c, client, members, casts, serial) && client in members
    ensures GoodClient(Offered(c, Sent(msg, None)), client, members, casts, serial)
  {
    OfferedIsGood(c, Sent(msg, None));
    StaysOnce(c, Sent(msg, None), serial);
    forall k | k in casts
      ensures IsServed(Offered(c, Sent(msg, None)), client, true, casts[k])
    {
      OtherStaysServed(c, Sent(msg, None), client, casts[k]);
    }
  }

  lemma PumpedIsGood(c: Channel, client: string, members: set<string>, casts: map<string, Cast>, serial: nat)
    requires GoodClient(c, client, members, casts, serial) && c.queue != []
    ensures GoodClient(c.(queue := c.queue[1..], taken := c.taken + [c.queue[0]]), client, members, casts, serial)
  {
    assert c.queue == [c.queue[0]] + c.queue[1..];
    assert c.taken + c.queue == (c.taken + [c.queue[0]]) + c.queue[1..];
    var c' := c.(queue := c.queue[1..], taken := c.taken + [c.queue[0]]);
    forall k | k in casts
      ensures IsServed(c', client, client in members, casts[k])
    {
      assert IsServed(c, client, client in members, casts[k]);
    }
  }

  lemma NewIsGood(client: string, network: string, members: set<string>, serial: nat)
    requires client in members
    ensures GoodClient(Channel(network, [], true, 0, [], [], []), client, members, map[], serial)
  {
    assert IsSubsequence([], []);
  }

  lemma ShutIsGood(c: Channel, client: string, members: set<string>, left: set<string>, serial: nat)
    requires GoodClient(c, client, members, map[], serial) && client in members && client !in left
    ensures GoodClient(Shut(c), client, left, map[], serial)
  {}

  /** Between broadcasts the other clients do not matter. */
  lemma OthersAreGood(c: Channel, client: string, members: set<string>, others: set<string>, serial: nat)
    requires GoodClient(c, client, members, map[], serial) && (client in members <==> client in others)
    ensures GoodClient(c, client, others, map[], serial)
  {}

  lemma BegunIsGood(c: Channel, client: string, members: set<string>, casts: map<string, Cast>, serial: nat, cast: string,
                    begun: Cast)
    requires GoodClient(c, client, members, casts, serial) && begun.serial == serial && begun.todo == members && begun.full == {}
    ensures GoodClient(c, client, members, casts[cast := begun], serial + 1)
  {
    assert Copies(c.offered, serial) <= 0;
  }

  lemma EndedIsGood(c: Channel, client: string, members: set<string>, casts: map<string, Cast>, serial: nat, cast: string)
    requires GoodClient(c, client, members, casts, serial)
    ensures GoodClient(c, client, members, casts - {cast}, serial)
  {}

  /** The client the broadcast comes to, which is then done with it. */
  lemma CastToIsGood(c: Channel, client: string, members: set<string>, casts: map<string, Cast>, serial: nat, cast: string)
    requires GoodClient(c, client, members, casts, serial) && GoodCasts(casts, members, serial)
    requires cast in casts && client in casts[cast].todo
    ensures var c' := if c.network == casts[cast].network then Offered(c, SentBy(casts[cast])) else c;
            GoodClient(c', client, members, casts[cast := Passed(casts[cast], client, c)], serial)
  {
    var under := casts[cast];
    assert client in members && IsServed(c, client, true, under);
    var c' := if c.network == under.network then Offered(c, SentBy(under)) else c;
    if c.network == under.network {
      OfferedIsGood(c, SentBy(under));
      StaysOnce(c, SentBy(under), serial);
      NowServed(c, client, under);
    }
    forall k | k in casts && k != cast
      ensures IsServed(c', client, true, casts[k])
    {
      assert casts[k].serial != under.serial;
      if c.network == under.network {
        OtherStaysServed(c, SentBy(under), client, casts[k]);
      }
    }
  }

  lemma PassedIsGood(c: Channel, client: string, members: set<string>, casts: map<string, Cast>, serial: nat, cast: string, other: string,
                     found: Channel)
    requires GoodClient(c, client, members, casts, serial) && cast in casts && other != client
    ensures GoodClient(c, client, members, casts[cast := Passed(casts[cast], other, found)], serial)
  {
    assert IsServed(c, client, client in members, casts[cast]);
  }

  lemma RegisterKeepsInv(s: State, client: string, network: string)
    requires Inv(s) && Enabled(s, Register(client, network))
    ensures Inv(Next(s, Register(client, network)))
  {
    if |s.members| < s.maxClients {
      var members := s.members + {client};
      NewIsGood(client, network, members, s.serial);
      forall other | other in s.channels
        ensures GoodClient(s.channels[other], other, members, s.casts, s.serial)
      {
        OthersAreGood(s.channels[other], other, s.members, members, s.serial);
      }
    }
  }

  lemma UnregisterKeepsInv(s: State, client: string)
    requires Inv(s) && Enabled(s, Unregister(client))
    ensures Inv(Next(s, Unregister(client)))
  {
    if client in s.members {
      var members := s.members - {client};
      ShutIsGood(s.channels[client], client, s.members, members, s.serial);
      forall other | other in s.channels && other != client
        ensures GoodClient(s.channels[other], other, members, s.casts, s.serial)
      {
        OthersAreGood(s.channels[other], other, s.members, members, s.serial);
      }
    }
  }

  lemma CloseKeepsInv(s: State)
    requires Inv(s) && Enabled(s, CloseAll)
    ensures Inv(Next(s, CloseAll))
  {
    forall client | client in s.channels
      ensures GoodClient(Next(s, CloseAll).channels[client], client, {}, s.casts, s.serial)
    {
      if client in s.members {
        ShutIsGood(s.channels[client], client, s.members, {}, s.serial);
      } else {
        OthersAreGood(s.channels[client], client, s.members, {}, s.serial);
      }
    }
  }

  lemma BeginKeepsInv(s: State, cast: string, network: string, msg: Message)
    requires Inv(s) && Enabled(s, BeginCast(cast, network, msg))
    ensures Inv(Next(s, BeginCast(cast, network, msg)))
  {
    var begun := Cast(s.serial, network, msg, s.members, {});
    forall client | client in s.channels
      ensures GoodClient(s.channels[client], client, s.members, s.casts[cast := begun], s.serial + 1)
    {
      BegunIsGood(s.channels[client], client, s.members, s.casts, s.serial, cast, begun);
    }
  }

  lemma CastKeepsInv(s: State, cast: string, client: string)
    requires Inv(s) && Enabled(s, CastTo(cast, client))
    ensures Inv(Next(s, CastTo(cast, client)))
  {
    var casts := s.casts[cast := Passed(s.casts[cast], client, s.channels[client])];
    assert s.casts[cast].todo <= s.members && GoodClient(s.channels[client], client, s.members, s.casts, s.serial);
    CastToIsGood(s.channels[client], client, s.members, s.casts, s.serial, cast);
    forall other | other in s.channels && other != client
      ensures GoodClient(s.channels[other], other, s.members, casts, s.serial)
    {
      PassedIsGood(s.channels[other], other, s.members, s.casts, s.serial, cast, client, s.channels[client]);
    }
  }

  lemma EndKeepsInv(s: State, cast: string)
    requires Inv(s) && Enabled(s, EndCast(cast))
    ensures Inv(Next(s, EndCast(cast)))
  {
    forall client | client in s.channels
      ensures GoodClient(s.channels[client], client, s.members, s.casts - {cast}, s.serial)
    {
      EndedIsGood(s.channels[client], client, s.members, s.casts, s.serial, cast);
    }
  }

  lemma SendToKeepsInv(s: State, client: string, msg: Message)
    requires Inv(s) && Enabled(s, SendTo(client, msg))
    ensures Inv(Next(s, SendTo(client, msg)))
  {
    SentToIsGood(s.channels[client], client, s.members, s.casts, s.serial, msg);
  }

  lemma PumpKeepsInv(s: State, client: string)
    requires Inv(s) && Enabled(s, Pump(client))
    ensures Inv(Next(s, Pump(client)))
  {
    PumpedIsGood(s.channels[client], client, s.members, s.casts, s.serial);
  }

  lemma StepKeepsInv(s: State, step: Step)
    requires Inv(s) && Enabled(s, step)
    ensures Inv(Next(s, step))
  {
    match step
    case Register(client, network) =>
      RegisterKeepsInv(s, client, network);
    case Unregister(client) =>
      UnregisterKeepsInv(s, client);
    case CloseAll =>
      CloseKeepsInv(s);
    case BeginCast(cast, network, msg) =>
      BeginKeepsInv(s, cast, network, msg);
    case CastTo(cast, client) =>
      CastKeepsInv(s, cast, client);
    case EndCast(cast) =>
      EndKeepsInv(s, cast);
    case SendTo(client, msg) =>
      SendToKeepsInv(s, client, msg);
    case Pump(client) =>
      PumpKeepsInv(s, client);
  }

  lemma {:induction false} RunKeepsInv(s: State, steps: seq<Step>)
    requires Inv(s)
    ensures Inv(Run(s, steps)) && Run(s, steps).maxClients == s.maxClients
    decreases |steps|
  {
    if steps != [] {
      if Enabled(s, steps[0]) {
        StepKeepsInv(s, steps[0]);
        RunKeepsInv(Next(s, steps[0]), steps[1..]);
      } else {
        RunKeepsInv(s, steps[1..]);
      }
    }
  }

  // ----- What that comes to

  lemma {:induction false} PrefixIsSubsequence(a: seq<Sent>, rest: seq<Sent>, b: seq<Sent>)
    requires IsSubsequence(a + rest, b)
    ensures IsSubsequence(a, b)
    decreases |b|
  {
    if b == [] {
      assert a + rest == [] ==> a == [];
    } else if rest == [] {
      assert a + rest == a;
    } else {
      var init := b[..|b| - 1];
      if IsSubsequence(a + rest, init) {
        PrefixIsSubsequence(a, rest, init);
      } else {
        assert (a + rest)[..|a + rest| - 1] == a + rest[..|rest| - 1];
        PrefixIsSubsequence(a, rest[..|rest| - 1], init);
      }
    }
  }

  /** Hub safety over every run of a new hub: no panic, so no send on a closed channel and no channel closed twice; a client is in
      the map exactly while its channel is open, and a closed channel has been closed once; there are no more clients than allowed;
      what a pump takes is, in order, part of what was sent, and no broadcast sends to a client twice. */
  lemma HubIsSafe(maxClients: int, steps: seq<Step>)
    ensures var s := Run(Start(maxClients), steps);
            && !s.panicked && s.members <= s.channels.Keys
            && |s.members| <= (if maxClients <= 0 then 500 else maxClients)
            && forall c :: c in s.channels ==>
                 && (c in s.members <==> s.channels[c].open)
                 && s.channels[c].closings == (if c in s.members then 0 else 1)
                 && |s.channels[c].queue| <= 32
                 && IsSubsequence(s.channels[c].taken, s.channels[c].offered)
                 && forall n: nat :: Copies(s.channels[c].offered, n) <= 1
  {
    var s := Run(Start(maxClients), steps);
    RunKeepsInv(Start(maxClients), steps);
    forall c | c in s.channels
      ensures IsSubsequence(s.channels[c].taken, s.channels[c].offered)
      ensures forall n: nat :: Copies(s.channels[c].offered, n) <= 1
    {
      assert GoodClient(s.channels[c], c, s.members, s.casts, s.serial);
      PrefixIsSubsequence(s.channels[c].taken, s.channels[c].queue, s.channels[c].offered);
    }
  }

  /** A broadcast that has come to the end has offered its message exactly once to every client then in the map for its network,
      and never to any other client; it is in the buffer, or was taken from there, unless 32 messages were pending. */
  lemma BroadcastReachesAll(maxClients: int, steps: seq<Step>, cast: string, client: string)
    requires var s := Run(Start(maxClients), steps);
             cast in s.casts && s.casts[cast].todo == {} && client in s.channels
    ensures var s := Run(Start(maxClients), steps);
            var c, under := s.channels[client], s.casts[cast];
            var sent := Sent(under.msg, Some(under.serial));
            if client in s.members && c.network == under.network
            then
              && Copies(c.offered, under.serial) == 1 && sent in c.offered
              && (if client in under.full then Copies(c.taken + c.queue, under.serial) == 0
                  else Copies(c.taken + c.queue, under.serial) == 1 && sent in c.taken + c.queue)
            else Copies(c.offered, under.serial) == 0
  {
    RunKeepsInv(Start(maxClients), steps);
    var s := Run(Start(maxClients), steps);
    assert GoodClient(s.channels[client], client, s.members, s.casts, s.serial);
    assert IsServed(s.channels[client], client, client in s.members, s.casts[cast]);
  }

  // ----- What one step does

  /** The message the step offers to the client, if any. */
  function OfferTo(s: State, step: Step, client: string): Option<Sent> {
    match step
    case SendTo(c, msg) => if c == client then Some(Sent(msg, None)) else None
    case CastTo(k, c) =>
      if c == client && k in s.casts && c in s.channels && s.channels[c].network == s.casts[k].network
      then Some(Sent(s.casts[k].msg, Some(s.casts[k].serial))) else None
    case _ => None
  }

  /** An offer is appended to the buffer if fewer than 32 messages are pending, and else only counted. */
  lemma OfferStep(s: State, step: Step, client: string, m: Sent)
    requires Enabled(s, step) && client in s.channels && OfferTo(s, step, client) == Some(m)
    ensures client in Next(s, step).channels
    ensures var c, c' := s.channels[client], Next(s, step).channels[client];
            && c'.offered == c.offered + [m] && c'.taken == c.taken && c'.open == c.open
            && c'.queue == (if |c.queue| < 32 then c.queue + [m] else c.queue)
  {}

  /** A pump takes the oldest message. */
  lemma PumpStep(s: State, client: string)
    requires Enabled(s, Pump(client))
    ensures client in Next(s, Pump(client)).channels
    ensures var c, c' := s.channels[client], Next(s, Pump(client)).channels[client];
            c'.taken + c'.queue == c.taken + c.queue && |c'.taken| == |c.taken| + 1 && c'.offered == c.offered && c'.open == c.open
  {
    var c := s.channels[client];
    assert c.queue == [c.queue[0]] + c.queue[1..];
  }

  /** No other step touches what is pending, and a channel is closed exactly when its client leaves the map. */
  lemma QuietStep(s: State, step: Step, client: string)
    requires Enabled(s, step) && client in s.channels && OfferTo(s, step, client).None? && step != Pump(client)
    ensures client in Next(s, step).channels
    ensures var c, c' := s.channels[client], Next(s, step).channels[client];
            && c'.offered == c.offered && c'.taken == c.taken && c'.queue == c.queue
            && c'.open == (c.open && (client in s.members ==> client in Next(s, step).members))
  {}

  /** A new hub has nobody in it, and room for 500 clients if it is not told otherwise. */
  lemma NewHub(maxClients: int)
    ensures var s := Start(maxClients);
            && s.maxClients == (if maxClients > 0 then maxClients else 500)
            && s.members == {} && s.channels == map[] && s.casts == map[] && !s.panicked
  {}

  /** What makes Go panic: an offer to a closed channel, or closing one that is closed. */
  lemma PanicsIff(s: State, step: Step)
    requires Enabled(s, step) && s.members <= s.channels.Keys
    ensures Next(s, step).panicked <==>
              || s.panicked
              || (exists client :: client in s.channels && OfferTo(s, step, client).Some? && !s.channels[client].open)
              || (exists client :: client in s.members && (step == Unregister(client) || step == CloseAll) && !s.channels[client].open)
  {
    match step
    case SendTo(client, msg) => assert OfferTo(s, step, client).Some?;
    case CastTo(cast, client) =>
      assert OfferTo(s, step, client).Some? <==> s.channels[client].network == s.casts[cast].network;
    case _ =>
  }

  /** The map changes only while no broadcast is under way. A client is let in unless the map is full, with an open channel in which
      nothing is pending; it leaves when it is taken out or all are. A broadcast is for those in the map when it begins, comes to each
      once, and ends when it has come to all. */
  lemma StepsOfTheMap(s: State, step: Step)
    requires Enabled(s, step)
    ensures step.Register? || step.Unregister? || step.CloseAll? ==> s.casts == map[]
    ensures var s' := Next(s, step);
            match step
            case Register(client, network) =>
              if |s.members| < s.maxClients
              then
                && s'.members == s.members + {client} && client in s'.channels && s'.channels[client].network == network
                && s'.channels[client].open && s'.channels[client].queue == [] && s'.channels[client].taken == []
              else s' == s
            case Unregister(client) => s'.members == s.members - {client}
            case CloseAll => s'.members == {}
            case EndCast(cast) => s.casts[cast].todo == {} && s'.casts == s.casts - {cast} && s'.members == s.members
            case BeginCast(cast, network, msg) =>
              && s'.members == s.members && cast in s'.casts
              && s'.casts[cast].msg == msg && s'.casts[cast].network == network && s'.casts[cast].todo == s.members
            case CastTo(cast, client) =>
              && s'.members == s.members && cast in s'.casts && s'.casts[cast].todo == s.casts[cast].todo - {client}
              && s'.casts[cast].full == s.casts[cast].full + (if |s.channels[client].queue| < 32 then {} else {client})
            case _ => s'.members == s.members
  {}

  /** The client never has 32 messages pending. */
  predicate NeverFull(s: State, steps: seq<Step>, client: string)
    decreases |steps|
  {
    && (client in s.channels ==> |s.channels[client].queue| < 32)
    && (steps != [] ==> NeverFull(if Enabled(s, steps[0]) then Next(s, steps[0]) else s, steps[1..], client))
  }

  predicate MissesNothing(s: State, client: string) {
    client in s.channels ==> s.channels[client].taken + s.channels[client].queue == s.channels[client].offered
  }

  lemma StepMissesNothing(s: State, step: Step, client: string)
    requires Enabled(s, step) && MissesNothing(s, client) && (client in s.channels ==> |s.channels[client].queue| < 32)
    ensures MissesNothing(Next(s, step), client)
  {
    if client in s.channels {
      var c, c' := s.channels[client], Next(s, step).channels[client];
      match OfferTo(s, step, client)
      case Some(m) =>
        OfferStep(s, step, client, m);
        assert c'.taken + c'.queue == (c.taken + c.queue) + [m];
      case None =>
        if step == Pump(client) {
          PumpStep(s, client);
        } else {
          QuietStep(s, step, client);
        }
    }
  }

  lemma {:induction false} RunMissesNothing(s: State, steps: seq<Step>, client: string)
    requires NeverFull(s, steps, client) && MissesNothing(s, client)
    ensures MissesNothing(Run(s, steps), client)
    decreases |steps|
  {
    if steps != [] {
      if Enabled(s, steps[0]) {
        StepMissesNothing(s, steps[0], client);
        RunMissesNothing(Next(s, steps[0]), steps[1..], client);
      } else {
        RunMissesNothing(s, steps[1..], client);
      }
    }
  }

  /** Over all interleavings: a client that never has 32 messages pending gets every message it is offered, in order. */
  lemma NothingIsMissed(maxClients: int, steps: seq<Step>, client: string)
    requires NeverFull(Start(maxClients), steps, client)
    ensures var s := Run(Start(maxClients), steps);
            client in s.channels ==> s.channels[client].taken + s.channels[client].queue == s.channels[client].offered
  {
    RunMissesNothing(Start(maxClients), steps, client);
  }

  /** Two broadcasts under way never have the same number, nor one that is yet to begin. */
  lemma SerialsTellApart(maxClients: int, steps: seq<Step>, cast: string, other: string)
    requires var s := Run(Start(maxClients), steps); cast in s.casts && other in s.casts
    ensures var s := Run(Start(maxClients), steps);
            s.casts[cast].serial < s.serial && (s.casts[cast].serial == s.casts[other].serial ==> cast == other)
  {
    RunKeepsInv(Start(maxClients), steps);
  }

  lemma ClosedIsOutside(s: State, client: string)
    requires Inv(s) && client in s.channels && !s.channels[client].open
    ensures client !in s.members && s.channels[client].closings == 1
    ensures forall k :: k in s.casts ==> client !in s.casts[k].todo
  {
    assert GoodClient(s.channels[client], client, s.members, s.casts, s.serial);
  }

  lemma OutsideIsLeftAlone(s: State, step: Step, client: string)
    requires Enabled(s, step) && client in s.channels && client !in s.members
    requires forall k :: k in s.casts ==> client !in s.casts[k].todo
    ensures client in Next(s, step).channels
    ensures var c, c' := s.channels[client], Next(s, step).channels[client];
            c'.open == c.open && c'.closings == c.closings && c'.offered == c.offered
  {}

  /** A closed channel is never opened again, and nothing more is sent on it. */
  lemma ClosedStaysClosed(s: State, step: Step, client: string)
    requires Inv(s) && Enabled(s, step) && client in s.channels && !s.channels[client].open
    ensures client in Next(s, step).channels
    ensures var c := Next(s, step).channels[client]; !c.open && c.closings == 1 && c.offered == s.channels[client].offered
  {
    ClosedIsOutside(s, client);
    OutsideIsLeftAlone(s, step, client);
  }
}
