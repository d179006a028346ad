/** lib/realtime/hub.go: the websocket hub, called by one goroutine at a time. */
module RealtimeHub {
  import opened Prelude

  const SEND_BUFFER: nat := 32

  type Message = string

  /** A client and its buffered channel. Sending on or closing a closed channel panics, so both ask for an open one. */
  class Client {
    const network: string
    var queue: seq<Message>
    var open: bool

    constructor (network: string)
      ensures this.network == network && queue == [] && open
    {
      this.network, queue, open := network, [], true;
    }

    /** select with a default: a full buffer drops the message. */
    method Offer(msg: Message)
      requires open
      modifies this`queue
      ensures queue == if |old(queue)| < 32 then old(queue) + [msg] else old(queue)
    {
      if |queue| < SEND_BUFFER {
        queue := queue + [msg];
      }
    }

    method Shut()
      requires open
      modifies this`open
      ensures !open
    {
      open := false;
    }

    /** One turn of the pump: it ends if its context is `done`, if a closed channel is drained, or if the message it took, the
        oldest, could not be `written`; on an empty open channel it waits. */
    method Pump(done: bool, written: bool) returns (msg: Option<Message>, ended: bool)
      modifies this`queue
      ensures old(queue) == (if msg.Some? then [msg.value] else []) + queue
      ensures msg.None? <==> done || old(queue) == []
      ensures ended <==> done || (if old(queue) == [] then !open else !written)
    {
      if done {
        return None, true;
      }
      if |queue| == 0 {
        return None, !open;
      }
      msg, queue := Some(queue[0]), queue[1..];
      ended := !written;
    }
  }

  class Hub {
    const maxClients: nat
    var clients: set<Client>

    /** The clients in the map are the ones with an open channel, and there are no more of them than allowed. */
    ghost predicate Valid()
      reads this, clients
    {
      |clients| <= maxClients && forall c :: c in clients ==> c.open && |c.queue| <= 32
    }

    constructor (maxClients: int)
      ensures Valid() && clients == {} && this.maxClients == if maxClients <= 0 then 500 else maxClients
    {
      this.maxClients := if maxClients <= 0 then 500 else maxClients;
      clients := {};
    }

    method Register(network: string) returns (client: Option<Client>)
      requires Valid()
      modifies this`clients
      ensures Valid()
      ensures client.Some? <==> |old(clients)| < maxClients
      ensures client.None? ==> clients == old(clients)
      ensures client.Some? ==>
                var c := client.value;
                fresh(c) && clients == old(clients) + {c} && c.network == network && c.queue == [] && c.open
    {
      if |clients| >= maxClients {
        return None;
      }
      var c := new Client(network);
      clients := clients + {c};
      client := Some(c);
    }

    /** A second time, or after Close, nothing happens. */
    method Unregister(c: Client)
      requires Valid()
      modifies this`clients, c`open
      ensures Valid() && clients == old(clients) - {c}
      ensures c.open == (c !in old(clients) && old(c.open))
    {
      if c !in clients {
        return;
      }
      clients := clients - {c};
      c.Shut();
    }

    method Broadcast(network: string, msg: Message)
      requires Valid()
      modifies clients`queue
      ensures Valid()
      ensures forall c :: c in clients ==>
                c.queue == if c.network == network && |old(c.queue)| < 32 then old(c.queue) + [msg] else old(c.queue)
    {
      var todo := clients;
      while todo != {}
        invariant todo <= clients
        invariant forall c :: c in clients ==> c.open && |c.queue| <= 32
        invariant forall c :: c in clients ==>
                    c.queue == if c !in todo && c.network == network && |old(c.queue)| < 32 then old(c.queue) + [msg] else old(c.queue)
        decreases |todo|
      {
        var c: Client :| c in todo;
        todo := todo - {c};
        if c.network == network {
          c.Offer(msg);
        }
      }
    }

    /** SendTo, on a client that is still registered. */
    method SendTo(c: Client, msg: Message)
      requires Valid() && c in clients
      modifies c`queue
      ensures Valid() && c.queue == if |old(c.queue)| < 32 then old(c.queue) + [msg] else old(c.queue)
    {
      c.Offer(msg);
    }

    method Close()
      requires Valid()
      modifies this`clients, clients`open
      ensures Valid() && clients == {}
      ensures forall c :: c in old(clients) ==> !c.open
    {
      while clients != {}
        invariant clients <= old(clients) && Valid()
        invariant forall c :: c in old(clients) && c !in clients ==> !c.open
        decreases |clients|
      {
        var c: Client :| c in clients;
        clients := clients - {c};
        c.Shut();
      }
    }
  }
}
