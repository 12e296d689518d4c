/**
  The live-update registry of the server-side-rendered application: the set of
  connected viewers, the counter their ids are built from, and the per-viewer
  handle with its closed flag, one-shot expiry timer, guarded write and
  idempotent cleanup.

  The service is an explicitly constructed object rather than a module-level
  singleton. The handle's closures become methods of `Client`; each client keeps
  a reference to the service that created it, as the closures capture it, and
  holds the stream controller it was created for.
*/
module SseService {
  import opened Streams
  import opened EventFormat
  import opened ClientIds
  import opened InsertionOrderedSet

  /** The expiry delay of every client: five minutes, in milliseconds. */
  const ClientTimeoutMs: nat := 5 * 60 * 1000

  /**
    `safeCloseController()`: a stream that has not errored is closed; closing a
    stream that is already closed throws, and that error is swallowed.
  */
  function SafeClose(s: Stream): (r: Stream)
    ensures r.chunks == s.chunks
    ensures r.state == if s.state == Readable then Closed else s.state
  {
    // desiredSize is null exactly when the stream has errored
    if s.state != Errored then Close(s).0 else s
  }

  /** One connected viewer: the SSEClient record and the state its closures capture. */
  class Client {
    const service: SSEService
    const serial: nat
    /** The clock reading the id was made from. */
    const stamp: nat
    /** The clock reading recorded as the connection time. */
    const connectedAt: nat
    /** The id is made from the counter value and the first clock reading. */
    const id: string := FormatId(serial, stamp)
    var stream: Stream
    var isClosed: bool
    /** The expiry timer is scheduled and has not been cleared. */
    var timerPending: bool

    /** The timer is pending exactly while the client is open; a closed client's stream accepts nothing. */
    ghost predicate Lifecycle()
      reads this
    {
      timerPending == !isClosed && (isClosed ==> stream.state != Readable)
    }

    constructor (service: SSEService, serial: nat, stamp: nat, connectedAt: nat, stream: Stream)
      ensures this.service == service && this.serial == serial
      ensures this.stamp == stamp && this.connectedAt == connectedAt
      ensures this.stream == stream && !isClosed && timerPending
    {
      this.service := service;
      this.serial := serial;
      this.stamp := stamp;
      this.connectedAt := connectedAt;
      this.stream := stream;
      isClosed := false;
      timerPending := true;
    }

    /**
      `client.cleanup()`: the first call closes the client, clears its timer,
      deregisters it and closes its stream; every later call changes nothing.
    */
    method Cleanup()
      requires service.Valid() && this in service.issued
      modifies this, service`clients
      ensures service.Valid()
      ensures isClosed && !timerPending
      ensures service.clients == Delete(old(service.clients), this)
      ensures stream == SafeClose(old(stream))
      ensures old(isClosed) ==> stream == old(stream) && service.clients == old(service.clients)
    {
      if !isClosed {
        isClosed := true;
        timerPending := false;
        var _ := service.RemoveClient(this);
        stream := SafeClose(stream);
      }
    }

    /**
      `client.write(chunk)`. A closed client drops the chunk and reports success.
      An open client enqueues it; when enqueue throws, the client closes itself
      as `Cleanup` does and `ok` is false (the rethrown error).
    */
    method Write(chunk: string) returns (ok: bool)
      requires service.Valid() && this in service.issued
      modifies this, service`clients
      ensures service.Valid()
      ensures ok <==> old(isClosed) || old(stream.state) == Readable
      ensures stream == if !old(isClosed) && ok then Stream(old(stream.state), old(stream.chunks) + [chunk]) else old(stream)
      ensures ok ==> isClosed == old(isClosed) && timerPending == old(timerPending) && service.clients == old(service.clients)
      ensures !ok ==> isClosed && !timerPending && service.clients == Delete(old(service.clients), this)
    {
      if isClosed {
        return true;
      }
      var r := Enqueue(stream, chunk);
      stream, ok := r.0, r.1;
      if !ok {
        isClosed := true;
        timerPending := false;
        var _ := service.RemoveClient(this);
        stream := SafeClose(stream);
      }
    }

    /**
      The expiry timer fires, `ClientTimeoutMs` after it was set; it is set
      after the id's clock reading and before the connection time's.
    */
    method Expire(now: nat)
      requires service.Valid() && this in service.issued
      requires now >= stamp + ClientTimeoutMs
      modifies this, service`clients
      ensures service.Valid()
      ensures isClosed && !timerPending
      ensures service.clients == Delete(old(service.clients), this)
      ensures stream == SafeClose(old(stream))
      ensures old(isClosed) ==> stream == old(stream) && service.clients == old(service.clients)
    {
      if !isClosed {
        Cleanup();
      }
    }

    /** The transport: the viewer cancels the stream. */
    method Disconnect()
      requires service.Valid() && this in service.issued
      modifies this`stream
      ensures service.Valid()
      ensures stream == Cancel(old(stream))
    {
      stream := Cancel(stream);
    }

    /** The transport: the stream fails. */
    method Break()
      requires service.Valid() && this in service.issued
      modifies this`stream
      ensures service.Valid()
      ensures stream == Fail(old(stream))
    {
      stream := Fail(stream);
    }
  }

  datatype ClientInfo = ClientInfo(id: string, connectedAt: nat, duration: int)

  datatype Stats = Stats(totalClients: nat, clients: seq<ClientInfo>)

  class SSEService {
    /** The registered clients, in insertion order. */
    var clients: seq<Client>
    var clientCounter: nat
    /** Every client this service has ever created. */
    ghost var issued: set<Client>
    /** The client each counter value was given to. */
    ghost var bySerial: map<nat, Client>

    /**
      What holds of every client this service created: it belongs to this
      service, its counter value is its own and within the counter, it is
      registered exactly while it is open, and its timer and stream agree with
      its closed flag.
    */
    ghost predicate Owns(c: Client)
      reads this, c
    {
      && c.service == this
      && 1 <= c.serial <= clientCounter && c.serial in bySerial && bySerial[c.serial] == c
      && (c in Elements(clients) <==> !c.isClosed)
      && c.Lifecycle()
    }

    /** The registry holds each client only once and only clients it created. */
    ghost predicate Valid()
      reads this, issued
    {
      && Distinct(clients)
      && Elements(clients) <= issued
      && (forall c :: c in issued ==> Owns(c))
    }

    /** The open clients whose stream still accepts chunks. */
    ghost function Reachable(): set<Client>
      reads this, issued
    {
      set c | c in issued && c in Elements(clients) && c.stream.state == Readable
    }

    constructor ()
      ensures Valid()
      ensures clients == [] && clientCounter == 0 && issued == {}
    {
      clients := [];
      clientCounter := 0;
      issued := {};
      bySerial := map[];
    }

    /**
      `addClient(controller)`, with `stream` the controller's stream. The clock
      is read twice: `stamp` for the id and `connectedAt` for the handle. The new client is open, has a pending timer, gets the
      next counter value and is registered last.
    */
    method AddClient(stream: Stream, stamp: nat, connectedAt: nat) returns (client: Client)
      requires Valid()
      modifies this
      ensures Valid()
      ensures fresh(client)
      ensures client.service == this && client.stream == stream && client.connectedAt == connectedAt
      ensures clientCounter == old(clientCounter) + 1
      ensures client.serial == clientCounter && client.id == FormatId(clientCounter, stamp)
      ensures !client.isClosed && client.timerPending
      ensures issued == old(issued) + {client}
      ensures clients == old(clients) + [client]
      ensures |clients| == |old(clients)| + 1
    {
      clientCounter := clientCounter + 1;
      client := new Client(this, clientCounter, stamp, connectedAt, stream);
      AddKeepsDistinct(clients, client);
      clients := Add(clients, client);
      issued := issued + {client};
      bySerial := bySerial[clientCounter := client];
    }

    /** `removeClient(client)`: `removed` tells whether it was registered. */
    method RemoveClient(client: Client) returns (removed: bool)
      modifies this`clients
      ensures removed <==> client in Elements(old(clients))
      ensures clients == Delete(old(clients), client)
      ensures Distinct(old(clients)) ==> Distinct(clients)
    {
      if Distinct(clients) {
        DeleteKeepsDistinct(clients, client);
      }
      removed := client in Elements(clients);
      clients := Delete(clients, client);
    }

    /**
      `broadcastUpdate(data)`: every client registered at call time gets one write
      of the same update event; afterwards exactly those whose stream accepted it
      are still registered, and the others are closed.
    */
    method BroadcastUpdate(data: string)
      requires Valid()
      modifies this`clients, issued
      ensures Valid()
      ensures clients == Keep(old(clients), old(Reachable()))
      ensures forall c :: c in issued ==> (!c.isClosed <==> c in old(Reachable()))
      ensures forall c :: c in issued ==>
        c.stream == if c in old(Reachable()) then Stream(Readable, old(c.stream.chunks) + [UpdateMessage(data)]) else old(c.stream)
    {
      if |clients| == 0 {
        return;
      }
      var message := UpdateMessage(data);
      var toRemove := WriteAll(message);
      CleanupAll(toRemove);
    }

    /**
      The write pass of `broadcastUpdate` after it has written to the first `i`
      clients of `snapshot`: `before` holds every client's stream at the start
      and `reached` the clients whose stream was readable then. The clients the
      pass has written to and that were reachable got `message` once, the others
      are untouched, the failed ones are closed and deregistered (and listed in
      `toRemove`), and the clients not yet written to are still registered.
    */
    ghost predicate Writing(snapshot: seq<Client>, i: nat, reached: set<Client>, message: string,
                            before: map<Client, Stream>, toRemove: seq<Client>)
      reads this, issued
    {
      && i <= |snapshot|
      && Valid()
      && Distinct(snapshot) && Elements(snapshot) <= issued && issued <= before.Keys
      && (forall c :: c in Elements(snapshot) ==> (c in reached <==> before[c].state == Readable))
      && reached <= Elements(snapshot)
      && clients == Filtering(snapshot, i, reached)
      && (forall c :: c in issued ==>
            c.stream == if c in reached && c in Elements(snapshot[..i]) then Stream(Readable, before[c].chunks + [message]) else before[c])
      && Elements(toRemove) == Elements(snapshot[..i]) - reached
    }

    /**
      The writes of `broadcastUpdate`, one per client registered at the start,
      in order; `toRemove` lists the clients whose write failed.
    */
    method WriteAll(message: string) returns (toRemove: seq<Client>)
      requires Valid()
      modifies this`clients, issued
      ensures Valid()
      ensures clients == Keep(old(clients), old(Reachable()))
      ensures forall c :: c in issued ==> (!c.isClosed <==> c in old(Reachable()))
      ensures forall c :: c in issued ==>
        c.stream == if c in old(Reachable()) then Stream(Readable, old(c.stream.chunks) + [message]) else old(c.stream)
      ensures Elements(toRemove) == Elements(old(clients)) - old(Reachable())
    {
      ghost var reached := Reachable();
      ghost var before := map c | c in issued :: c.stream;
      var snapshot := clients;
      toRemove := [];
      var i := 0;
      assert snapshot[..0] == [];
      while i < |snapshot|
        invariant 0 <= i <= |snapshot|
        // stated as one fact, not split into the predicate's conjuncts
        invariant Writing(snapshot, i, reached, message, before, toRemove) == true
      {
        toRemove := WriteNext(snapshot, i, reached, message, before, toRemove);
        i := i + 1;
      }
      FilteringFacts(snapshot, i, reached);
      assert snapshot[..i] == snapshot;
      forall c | c in issued
        ensures !c.isClosed <==> c in reached
      {
        assert Owns(c);
      }
    }

    /** One step of the write pass: `snapshot[i]` gets `message`, and is recorded if that fails. */
    method WriteNext(snapshot: seq<Client>, i: nat, ghost reached: set<Client>, message: string,
                     ghost before: map<Client, Stream>, toRemove: seq<Client>) returns (toRemove': seq<Client>)
      requires i < |snapshot| && Writing(snapshot, i, reached, message, before, toRemove)
      modifies this`clients, issued
      ensures Writing(snapshot, i + 1, reached, message, before, toRemove')
    {
      var client := snapshot[i];
      DistinctPrefix(snapshot, i);
      FilteringFacts(snapshot, i, reached);
      assert client.stream == before[client] && !client.isClosed;
      var ok := client.Write(message);
      toRemove' := toRemove;
      if !ok {
        ElementsSnoc(toRemove, client);
        toRemove' := toRemove + [client];
      }
      forall c | c in issued
        ensures c.stream == if c in reached && c in Elements(snapshot[..i + 1]) then Stream(Readable, before[c].chunks + [message]) else before[c]
      {
      }
    }

    /** `clientsToRemove.forEach(client => client.cleanup())`: on closed clients it changes nothing. */
    method CleanupAll(cs: seq<Client>)
      requires Valid()
      requires forall c :: c in Elements(cs) ==> c in issued && c.isClosed
      modifies this`clients, issued
      ensures Valid()
      ensures clients == old(clients)
      ensures forall c :: c in issued ==> c.stream == old(c.stream) && c.isClosed == old(c.isClosed)
    {
      var j := 0;
      while j < |cs|
        invariant 0 <= j <= |cs|
        invariant Valid()
        invariant clients == old(clients)
        invariant forall c :: c in issued ==> c.stream == old(c.stream) && c.isClosed == old(c.isClosed)
      {
        assert cs[j] in Elements(cs);
        cs[j].Cleanup();
        j := j + 1;
      }
    }

    /**
      `getStats()`: one entry per registered client, in order. The clock is read
      once per entry: `clock(i)` is the reading taken for the `i`-th one.
    */
    function GetStats(clock: nat -> int): (s: Stats)
      reads this, clients
      ensures s.totalClients == |clients| == |s.clients|
      ensures forall i :: 0 <= i < |clients| ==>
        s.clients[i].id == clients[i].id && s.clients[i].connectedAt == clients[i].connectedAt
        && s.clients[i].duration == clock(i) - clients[i].connectedAt
    {
      var cs := clients;
      Stats(|cs|, seq(|cs|, i requires 0 <= i < |cs| => ClientInfo(cs[i].id, cs[i].connectedAt, clock(i) - cs[i].connectedAt)))
    }

    /** Two clients of one service never share an id: the counter part differs. */
    lemma IdsUnique(a: Client, b: Client)
      requires Valid() && a in issued && b in issued
      ensures a.id == b.id <==> a == b
    {
      assert Owns(a) && Owns(b);
      FormatIdInjective(a.serial, a.stamp, b.serial, b.stamp);
    }

    /** `getStats().totalClients` is the number of open clients. */
    lemma StatsCountOpenClients(clock: nat -> int)
      requires Valid()
      ensures GetStats(clock).totalClients == |set c | c in issued && !c.isClosed|
    {
      var open := set c | c in issued && !c.isClosed;
      forall c | c in issued
        ensures c in Elements(clients) <==> c in open
      {
        assert Owns(c);
      }
      assert Elements(clients) == open;
      DistinctCardinality(clients);
    }

    /** `getStats()` lists each client once: two entries never carry the same id. */
    lemma StatsIdsDistinct(clock: nat -> int, i: nat, j: nat)
      requires Valid() && i < j < |clients|
      ensures GetStats(clock).clients[i].id != GetStats(clock).clients[j].id
    {
      DistinctIndices(clients, i, j);
      IdsUnique(clients[i], clients[j]);
    }

    /** `cleanup()`: every registered client is cleaned up and the set is emptied. */
    method Cleanup()
      requires Valid()
      modifies this`clients, issued
      ensures Valid()
      ensures clients == []
      ensures forall c :: c in issued ==> c.isClosed && !c.timerPending
      ensures forall c :: c in issued ==> c.stream == SafeClose(old(c.stream))
    {
      var snapshot := clients;
      ghost var done: set<Client> := {};
      var i := 0;
      while i < |snapshot|
        invariant 0 <= i <= |snapshot|
        invariant Valid()
        invariant Distinct(snapshot) && Elements(snapshot) == Elements(old(clients))
        invariant clients == snapshot[i..]
        invariant done == Elements(snapshot[..i])
        invariant forall c :: c in issued ==> c.stream == if c in done then SafeClose(old(c.stream)) else old(c.stream)
      {
        var client := snapshot[i];
        DistinctSplit(snapshot, i);
        DeleteBetween([], client, snapshot[i + 1..]);
        client.Cleanup();
        done := done + {client};
        i := i + 1;
      }
      assert snapshot[..i] == snapshot;
      clients := [];
    }
  }
}
