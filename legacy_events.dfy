/**
  The legacy broadcaster of the root application's older event endpoint: a module-level
  set of writers, one per open event stream. A writer wraps the stream's
  controller; when an enqueue throws it deletes itself from the set and
  swallows the error. There is no closed flag and no timer, and a stream the
  viewer cancels stays registered until a write to it fails.

  The module-level set becomes the `clients` field of a `Broadcaster` object.
*/
module LegacyEvents {
  import opened Wrappers
  import opened Streams
  import opened EventFormat
  import opened InsertionOrderedSet

  /** The text announced when the stored value has no usable `dynamicString`. */
  const DefaultText: string := "default dynamic string"

  /**
    What reading and parsing the stored text file gives: nothing when the read
    or the parse throws, otherwise the object's `dynamicString` field, if any.
  */
  datatype StoredText = Unreadable | Stored(dynamicString: Option<string>)

  /** `data.dynamicString || 'default dynamic string'`: an absent or empty field falls back. */
  function CurrentText(field: Option<string>): (t: string)
    ensures field.Some? && field.value != "" ==> t == field.value
    ensures field.None? || field.value == "" ==> t == DefaultText
    ensures t != ""
  {
    match field
    case Some(v) => if v != "" then v else DefaultText
    case None => DefaultText
  }

  /**
    The events a new connection receives before it is registered, in order.
    The greeting comes first, and no viewer reads it as an update; the current
    text follows exactly when the stored value could be read, and a viewer
    recovers that text (or the default) from it.
  */
  function InitialMessages(stored: StoredText): (ms: seq<string>)
    ensures |ms| == if stored.Unreadable? then 1 else 2
    ensures ParseUpdate(ms[0]) == None
    ensures stored.Stored? ==> ParseUpdate(ms[1]) == Some(CurrentText(stored.dynamicString))
  {
    ConnectedIsNotUpdate("");
    match stored
    case Unreadable => [ConnectedMessage]
    case Stored(field) =>
      ParseUpdateRoundTrip(CurrentText(field));
      [ConnectedMessage, UpdateMessage(CurrentText(field))]
  }

  /** The `customWriter` built in `start(controller)`. */
  class Writer {
    const registry: Broadcaster
    var stream: Stream

    constructor (registry: Broadcaster, stream: Stream)
      ensures this.registry == registry && this.stream == stream
    {
      this.registry := registry;
      this.stream := stream;
    }

    /**
      `customWriter.write(chunk)`: enqueue the chunk; when enqueue throws, the
      writer deletes itself from the set and the error goes no further.
    */
    method Write(chunk: string)
      requires registry.Valid() && this in registry.issued
      modifies this`stream, registry`clients
      ensures registry.Valid()
      ensures stream == Enqueue(old(stream), chunk).0
      ensures registry.clients ==
        if old(stream.state) == Readable then old(registry.clients) else Delete(old(registry.clients), this)
    {
      var r := Enqueue(stream, chunk);
      stream := r.0;
      if !r.1 {
        DeleteKeepsDistinct(registry.clients, this);
        registry.clients := Delete(registry.clients, this);
      }
    }

    /** The `cleanup` closure stored on the writer: it deletes this writer and no other. */
    method Cleanup()
      requires registry.Valid() && this in registry.issued
      modifies registry`clients
      ensures registry.Valid()
      ensures registry.clients == Delete(old(registry.clients), this)
      ensures Elements(registry.clients) == Elements(old(registry.clients)) - {this}
    {
      DeleteKeepsDistinct(registry.clients, this);
      registry.clients := Delete(registry.clients, this);
    }

    /**
      The viewer goes away: the platform cancels the stream and calls the
      stream's `cancel()`, which only logs, so the writer stays registered.
    */
    method Disconnect()
      requires registry.Valid() && this in registry.issued
      modifies this`stream
      ensures registry.Valid()
      ensures stream == Cancel(old(stream)) && stream.state != Readable
      ensures registry.clients == old(registry.clients)
    {
      stream := Cancel(stream);
    }

    /** The transport: the stream fails. */
    method Break()
      requires registry.Valid() && this in registry.issued
      modifies this`stream
      ensures registry.Valid()
      ensures stream == Fail(old(stream))
      ensures registry.clients == old(registry.clients)
    {
      stream := Fail(stream);
    }
  }

  /** The module-level `clients` set. */
  class Broadcaster {
    /** The registered writers, in insertion order. */
    var clients: seq<Writer>
    /** Every writer connected through this broadcaster. */
    ghost var issued: set<Writer>

    /** No writer twice, and only writers of this broadcaster. */
    ghost predicate Valid()
      reads this, issued
    {
      && Distinct(clients)
      && Elements(clients) <= issued
      && (forall w :: w in issued ==> w.registry == this)
    }

    /** The registered writers whose stream still accepts chunks. */
    ghost function Reachable(): set<Writer>
      reads this, issued
    {
      set w | w in issued && w in Elements(clients) && w.stream.state == Readable
    }

    constructor ()
      ensures Valid()
      ensures clients == [] && issued == {}
    {
      clients := [];
      issued := {};
    }

    /**
      `start(controller)` of a new event stream: the greeting is enqueued, then
      the current text when the stored value could be read, and only then is
      the new writer registered, last.
    */
    method Connect(stored: StoredText) returns (w: Writer)
      requires Valid()
      modifies this
      ensures Valid()
      ensures fresh(w) && w.registry == this
      ensures w.stream == Stream(Readable, InitialMessages(stored))
      ensures issued == old(issued) + {w}
      ensures clients == old(clients) + [w]
    {
      var s := Enqueue(Opened, ConnectedMessage).0;
      match stored {
        case Unreadable =>
        case Stored(field) =>
          s := Enqueue(s, UpdateMessage(CurrentText(field))).0;
      }
      w := new Writer(this, s);
      AddKeepsDistinct(clients, w);
      clients := Add(clients, w);
      issued := issued + {w};
    }

    /**
      The pass of `broadcastUpdate` after it has written to the first `i`
      writers of `snapshot`: `before` holds every writer's stream at the start
      and `reached` the writers whose stream was readable then. Those written to
      and reachable got `message` once, all others are untouched, and the
      failed ones have deleted themselves.
    */
    ghost predicate Broadcasting(snapshot: seq<Writer>, i: nat, reached: set<Writer>, message: string,
                                 before: map<Writer, Stream>)
      reads this, issued
    {
      && i <= |snapshot|
      && Valid()
      && Distinct(snapshot) && Elements(snapshot) <= issued && issued <= before.Keys
      && (forall w :: w in Elements(snapshot) ==> (w in reached <==> before[w].state == Readable))
      && reached <= Elements(snapshot)
      && clients == Filtering(snapshot, i, reached)
      && (forall w :: w in issued ==>
            w.stream == if w in reached && w in Elements(snapshot[..i]) then Stream(Readable, before[w].chunks + [message]) else before[w])
    }

    /**
      `broadcastUpdate(data)`: every writer registered at call time gets one
      write of the update event; afterwards exactly those whose stream accepted
      it are still registered, in their order, and every registered writer's
      stream is readable.
    */
    method BroadcastUpdate(data: string)
      requires Valid()
      modifies this`clients, issued
      ensures Valid()
      ensures clients == Keep(old(clients), old(Reachable()))
      ensures forall w :: w in Elements(clients) ==> w.stream.state == Readable
      ensures forall w :: w in issued ==>
        w.stream == if w in old(Reachable()) then Stream(Readable, old(w.stream.chunks) + [UpdateMessage(data)]) else old(w.stream)
    {
      var message := UpdateMessage(data);
      ghost var reached := Reachable();
      ghost var before := map w | w in issued :: w.stream;
      var snapshot := clients;
      var i := 0;
      assert snapshot[..0] == [];
      while i < |snapshot|
        invariant 0 <= i <= |snapshot|
        // stated as one fact, not split into the predicate's conjuncts
        invariant Broadcasting(snapshot, i, reached, message, before) == true
      {
        WriteNext(snapshot, i, reached, message, before);
        i := i + 1;
      }
      FilteringFacts(snapshot, i, reached);
      assert snapshot[..i] == snapshot;
    }

    /** The `forEach` callback of `broadcastUpdate` on `snapshot[i]`: one write of `message`. */
    method WriteNext(snapshot: seq<Writer>, i: nat, ghost reached: set<Writer>, message: string,
                     ghost before: map<Writer, Stream>)
      requires i < |snapshot| && Broadcasting(snapshot, i, reached, message, before)
      modifies this`clients, issued
      ensures Broadcasting(snapshot, i + 1, reached, message, before)
    {
      var writer := snapshot[i];
      DistinctPrefix(snapshot, i);
      FilteringFacts(snapshot, i, reached);
      assert writer.stream == before[writer];
      writer.Write(message);
      forall w | w in issued
        ensures w.stream == if w in reached && w in Elements(snapshot[..i + 1]) then Stream(Readable, before[w].chunks + [message]) else before[w]
      {
      }
    }
  }
}
