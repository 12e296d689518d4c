/**
  The controller of a ReadableStream, the push channel of one viewer, as a value:
  its state and every chunk enqueued so far (what the viewer receives). Chunks
  can be enqueued only while the stream is readable; once the viewer has
  cancelled it (Closed) or it has failed (Errored), `enqueue` and `close` throw.
  The state is the oracle that decides whether a write succeeds: the transport
  changes it through `Cancel` and `Fail`, the registries only observe it.
*/
module Streams {

  datatype StreamState = Readable | Closed | Errored

  datatype Stream = Stream(state: StreamState, chunks: seq<string>)

  /** A stream as `start(controller)` receives it. */
  const Opened: Stream := Stream(Readable, [])

  /** `controller.enqueue(chunk)`: the stream afterwards, and false where the platform throws. */
  function Enqueue(s: Stream, chunk: string): (r: (Stream, bool))
    ensures r.1 <==> s.state == Readable
    ensures r.0 == if r.1 then Stream(s.state, s.chunks + [chunk]) else s
  {
    if s.state == Readable then (Stream(s.state, s.chunks + [chunk]), true) else (s, false)
  }

  /** `controller.close()`: the stream afterwards, and false where the platform throws. */
  function Close(s: Stream): (r: (Stream, bool))
    ensures r.1 <==> s.state == Readable
    ensures r.0 == if r.1 then Stream(Closed, s.chunks) else s
  {
    if s.state == Readable then (Stream(Closed, s.chunks), true) else (s, false)
  }

  /** The viewer goes away: a readable stream is cancelled and accepts nothing more. */
  function Cancel(s: Stream): (r: Stream)
    ensures r.state != Readable && r.chunks == s.chunks
  {
    if s.state == Readable then Stream(Closed, s.chunks) else s
  }

  /** The stream fails. */
  function Fail(s: Stream): (r: Stream)
    ensures r.state == Errored && r.chunks == s.chunks
  {
    Stream(Errored, s.chunks)
  }
}
