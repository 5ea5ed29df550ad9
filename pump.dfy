/**
 * The output pump: the first background thread of `main`. It reads the pty
 * master into a 1024-byte buffer and feeds every byte read, in order, to the
 * escape-sequence parser, which calls back into the `HackerHandler`. A read
 * of zero bytes, or a failed read (`unwrap_or(0)`), ends the loop.
 *
 * The parser (`vte::Parser`) is external: it is the parameter `step`, which
 * takes the parser state and one byte to the next state and the callbacks
 * that byte triggers.
 */
module Pump {
  import opened Utf8
  import opened Handler

  /** The size of the pump's read buffer. */
  const BufferSize: nat := 1024

  /** What the pty has for the reader at each read. */
  datatype PtyEvent =
    | Output(data: seq<byte>)  // bytes the child wrote; empty means nothing more
    | EndOfStream              // the child side is closed
    | Error                    // the read fails

  /** The result of one `read` call. */
  datatype ReadResult = ReadOk(n: nat) | ReadErr

  /** A read that yields no bytes: the pump's stop condition. */
  predicate Stops(e: PtyEvent) {
    !e.Output? || e.data == []
  }

  /** The bytes the pump can be given: all the output before the first event on which it stops. */
  function Delivered(events: seq<PtyEvent>): seq<byte>
  {
    if events == [] then []
    else match events[0]
      case Output(d) => if d == [] then [] else d + Delivered(events[1..])
      case _ => []
  }

  /** What is left for the reader once the pump has stopped. */
  function Rest(events: seq<PtyEvent>): seq<PtyEvent>
  {
    if events == [] then []
    else if Stops(events[0]) then events[1..]
    else Rest(events[1..])
  }

  /** The concatenation of a sequence of chunks. */
  function Flatten(chunks: seq<seq<byte>>): seq<byte>
  {
    if chunks == [] then [] else chunks[0] + Flatten(chunks[1..])
  }

  /** Feeding `bytes` one at a time to the parser from state `s`: the final state and every callback, in order. */
  function Run<S>(step: (S, byte) -> (S, seq<Callback>), s: S, bytes: seq<byte>): (r: (S, seq<Callback>))
    ensures bytes == [] ==> r == (s, [])
    ensures |bytes| == 1 ==> r == step(s, bytes[0])
  {
    if bytes == [] then (s, [])
    else
      var prev := Run(step, s, bytes[..|bytes| - 1]);
      var next := step(prev.0, bytes[|bytes| - 1]);
      assert |bytes| == 1 ==> bytes[..0] == [] && prev.1 + next.1 == next.1;
      (next.0, prev.1 + next.1)
  }

  /** Feeding the chunks one after the other, each continuing from the state the previous one left. */
  function RunChunks<S>(step: (S, byte) -> (S, seq<Callback>), s: S, chunks: seq<seq<byte>>): (S, seq<Callback>)
  {
    if chunks == [] then (s, [])
    else
      var first := Run(step, s, chunks[0]);
      var rest := RunChunks(step, first.0, chunks[1..]);
      (rest.0, first.1 + rest.1)
  }

  /** Feeding `a` and then `b` is feeding `a + b`. */
  lemma {:induction false} RunAppend<S>(step: (S, byte) -> (S, seq<Callback>), s: S, a: seq<byte>, b: seq<byte>)
    ensures Run(step, s, a + b).0 == Run(step, Run(step, s, a).0, b).0
    ensures Run(step, s, a + b).1 == Run(step, s, a).1 + Run(step, Run(step, s, a).0, b).1
    decreases |b|
  {
    if b == [] {
      assert a + b == a;
    } else {
      var n := |b| - 1;
      assert (a + b)[..|a + b| - 1] == a + b[..n];
      assert (a + b)[|a + b| - 1] == b[n];
      RunAppend(step, s, a, b[..n]);
    }
  }

  /**
   * The buffer size is invisible to the parser: however the stream is cut
   * into chunks, the parser reaches the same state and makes the same
   * callbacks as when fed the whole stream at once.
   */
  lemma {:induction false} ChunkingInvisible<S>(step: (S, byte) -> (S, seq<Callback>), s: S, chunks: seq<seq<byte>>)
    ensures RunChunks(step, s, chunks) == Run(step, s, Flatten(chunks))
    decreases |chunks|
  {
    if chunks != [] {
      ChunkingInvisible(step, Run(step, s, chunks[0]).0, chunks[1..]);
      RunAppend(step, s, chunks[0], Flatten(chunks[1..]));
    }
  }

  /** The data of events on which the pump does not stop, concatenated. */
  function OutputOf(events: seq<PtyEvent>): seq<byte>
    requires forall i :: 0 <= i < |events| ==> !Stops(events[i])
  {
    if events == [] then []
    else assert !Stops(events[0]); events[0].data + OutputOf(events[1..])
  }

  /**
   * The pump stops at the first empty or failed read: the bytes it can be
   * given are the output before that read, and whatever follows the read is
   * never looked at.
   */
  lemma {:induction false} StopsAtFirstEmptyRead(before: seq<PtyEvent>, stop: PtyEvent, after: seq<PtyEvent>)
    requires forall i :: 0 <= i < |before| ==> !Stops(before[i])
    requires Stops(stop)
    ensures Delivered(before + [stop] + after) == OutputOf(before)
    ensures Rest(before + [stop] + after) == after
    decreases |before|
  {
    var all := before + [stop] + after;
    if before == [] {
      assert all[0] == stop && all[1..] == after;
    } else {
      assert all[0] == before[0];
      assert all[1..] == before[1..] + [stop] + after;
      StopsAtFirstEmptyRead(before[1..], stop, after);
    }
  }

  /** What one read into a buffer yields: its result, the bytes placed in the buffer, and what is left to read. */
  datatype Reading = Reading(result: ReadResult, got: seq<byte>, left: seq<PtyEvent>)

  /**
   * One read into a buffer of `size` bytes: as much of the next output as
   * fits, with the remainder left for the next read; an exhausted script or
   * a closed stream reads zero bytes.
   */
  function NextRead(pending: seq<PtyEvent>, size: nat): (rd: Reading)
    ensures rd.result.ReadOk? ==> rd.result.n == |rd.got| <= size
    ensures rd.result.ReadErr? ==> rd.got == []
  {
    if pending == [] then Reading(ReadOk(0), [], [])
    else match pending[0]
      case Output(d) =>
        if |d| <= size then Reading(ReadOk(|d|), d, pending[1..])
        else Reading(ReadOk(size), d[..size], [Output(d[size..])] + pending[1..])
      case EndOfStream => Reading(ReadOk(0), [], pending[1..])
      case Error => Reading(ReadErr, [], pending[1..])
  }

  /** A read that yields no bytes is the stopping read: the pump has nothing more to be given. */
  lemma ReadStops(before: seq<PtyEvent>, size: nat)
    requires 0 < size && NextRead(before, size).got == []
    ensures Delivered(before) == [] && Rest(before) == NextRead(before, size).left
  {
  }

  /** A read that yields bytes delivers the next bytes of the output, in order. */
  lemma ReadContinues(before: seq<PtyEvent>, size: nat)
    requires NextRead(before, size).got != []
    ensures Delivered(before) == NextRead(before, size).got + Delivered(NextRead(before, size).left)
    ensures Rest(before) == Rest(NextRead(before, size).left)
  {
    var rd := NextRead(before, size);
    var d := before[0].data;
    if size < |d| {
      assert rd.left[0] == Output(d[size..]) && rd.left[1..] == before[1..];
      assert d == d[..size] + d[size..];
    }
  }

  /** The outcome of the pump loop: the parser's final state, the chunks read, the callbacks made, what is left unread. */
  datatype Pumped<S> = Pumped(parser: S, chunks: seq<seq<byte>>, callbacks: seq<Callback>, rest: seq<PtyEvent>)

  /** The pump loop from parser state `s` over the coming reads `pending`, read by read. */
  function PumpFrom<S>(step: (S, byte) -> (S, seq<Callback>), s: S, pending: seq<PtyEvent>): (r: Pumped<S>)
    ensures |r.chunks| <= |Delivered(pending)|
    decreases |Delivered(pending)|
  {
    var rd := NextRead(pending, BufferSize);
    if rd.got == [] then Pumped(s, [], [], rd.left)
    else
      ReadContinues(pending, BufferSize);
      var fed := Run(step, s, rd.got);
      var tail := PumpFrom(step, fed.0, rd.left);
      Pumped(tail.parser, [rd.got] + tail.chunks, fed.1 + tail.callbacks, tail.rest)
  }

  /** Every chunk the pump reads holds at least one byte and at most a buffer's worth. */
  lemma {:induction false} PumpChunksFit<S>(step: (S, byte) -> (S, seq<Callback>), s: S, pending: seq<PtyEvent>)
    ensures forall i :: 0 <= i < |PumpFrom(step, s, pending).chunks| ==>
              0 < |PumpFrom(step, s, pending).chunks[i]| <= BufferSize
    decreases |Delivered(pending)|
  {
    var rd := NextRead(pending, BufferSize);
    if rd.got != [] {
      ReadContinues(pending, BufferSize);
      PumpChunksFit(step, Run(step, s, rd.got).0, rd.left);
    }
  }

  /**
   * The pump reads exactly the output before the first empty or failed
   * read, in order, and leaves everything after that read unread.
   */
  lemma {:induction false} PumpReadsDelivered<S>(step: (S, byte) -> (S, seq<Callback>), s: S, pending: seq<PtyEvent>)
    ensures Flatten(PumpFrom(step, s, pending).chunks) == Delivered(pending)
    ensures PumpFrom(step, s, pending).rest == Rest(pending)
    decreases |Delivered(pending)|
  {
    var rd := NextRead(pending, BufferSize);
    if rd.got == [] {
      ReadStops(pending, BufferSize);
    } else {
      ReadContinues(pending, BufferSize);
      var tail := PumpFrom(step, Run(step, s, rd.got).0, rd.left);
      PumpReadsDelivered(step, Run(step, s, rd.got).0, rd.left);
      assert ([rd.got] + tail.chunks)[1..] == tail.chunks;
    }
  }

  /** The parser sees the chunks one after the other, continuing each time from where it stopped. */
  lemma {:induction false} PumpRunsChunks<S>(step: (S, byte) -> (S, seq<Callback>), s: S, pending: seq<PtyEvent>)
    ensures (PumpFrom(step, s, pending).parser, PumpFrom(step, s, pending).callbacks)
            == RunChunks(step, s, PumpFrom(step, s, pending).chunks)
    decreases |Delivered(pending)|
  {
    var rd := NextRead(pending, BufferSize);
    if rd.got != [] {
      ReadContinues(pending, BufferSize);
      var tail := PumpFrom(step, Run(step, s, rd.got).0, rd.left);
      PumpRunsChunks(step, Run(step, s, rd.got).0, rd.left);
      assert ([rd.got] + tail.chunks)[0] == rd.got && ([rd.got] + tail.chunks)[1..] == tail.chunks;
    }
  }

  /**
   * Ordering: the parser is fed exactly the delivered output, byte after
   * byte in the order read, as if the whole stream came in a single read.
   */
  lemma PumpFeedsDelivered<S>(step: (S, byte) -> (S, seq<Callback>), s: S, pending: seq<PtyEvent>)
    ensures (PumpFrom(step, s, pending).parser, PumpFrom(step, s, pending).callbacks)
            == Run(step, s, Delivered(pending))
  {
    PumpRunsChunks(step, s, pending);
    ChunkingInvisible(step, s, PumpFrom(step, s, pending).chunks);
    PumpReadsDelivered(step, s, pending);
  }

  class PtyReader {
    /** What the pty will have for each of the coming reads. */
    var pending: seq<PtyEvent>

    constructor (script: seq<PtyEvent>)
      ensures pending == script
    {
      pending := script;
    }

    /** `reader.read(&mut buf)`: the bytes read are placed at the front of `buf`. */
    method Read(buf: array<byte>) returns (r: ReadResult)
      modifies this, buf
      ensures r == NextRead(old(pending), buf.Length).result
      ensures pending == NextRead(old(pending), buf.Length).left
      ensures r.ReadOk? ==> buf[..r.n] == NextRead(old(pending), buf.Length).got
    {
      var rd := NextRead(pending, buf.Length);
      var got := rd.got;
      forall i | 0 <= i < |got| {
        buf[i] := got[i];
      }
      pending := rd.left;
      r := rd.result;
    }
  }

  /**
   * `let n = reader.read(&mut buf).unwrap_or(0)`, giving `buf[0..n]`: a
   * failed read counts as a read of zero bytes.
   */
  method ReadChunk(reader: PtyReader, buf: array<byte>) returns (chunk: seq<byte>)
    modifies reader, buf
    ensures chunk == NextRead(old(reader.pending), buf.Length).got
    ensures reader.pending == NextRead(old(reader.pending), buf.Length).left
  {
    var r := reader.Read(buf);
    var n := if r.ReadOk? then r.n else 0;
    chunk := buf[..n];
  }

  /** `parser.advance(&mut handler, byte)`. */
  method Advance<S>(step: (S, byte) -> (S, seq<Callback>), parser: S, handler: HackerHandler, b: byte)
    returns (next: S)
    modifies handler.tx
    ensures next == step(parser, b).0
    ensures handler.tx.queue == old(handler.tx.queue) + Messages(step(parser, b).1)
  {
    var r := step(parser, b);
    handler.PerformAll(r.1);
    next := r.0;
  }

  /** Feeding one more byte of `bytes` extends the run over its prefix by one step. */
  lemma RunPrefix<S>(step: (S, byte) -> (S, seq<Callback>), s: S, bytes: seq<byte>, i: nat)
    requires i < |bytes|
    ensures var prev := Run(step, s, bytes[..i]);
      var next := step(prev.0, bytes[i]);
      Run(step, s, bytes[..i + 1]) == (next.0, prev.1 + next.1)
  {
    assert bytes[..i + 1][..i] == bytes[..i];
  }

  /** Messages sent after `queue0`, callback run by callback run, queue up in order. */
  lemma QueueGrows(queue0: seq<string>, done: seq<Callback>, more: seq<Callback>)
    ensures queue0 + Messages(done) + Messages(more) == queue0 + Messages(done + more)
  {
    MessagesAppend(done, more);
  }

  /** One turn of the byte loop: feeding `bytes[i]` extends the run over the prefix before it. */
  method FeedByte<S>(step: (S, byte) -> (S, seq<Callback>), s: S, handler: HackerHandler, bytes: seq<byte>, i: nat,
                     cur: S, ghost queue0: seq<string>)
    returns (next: S)
    requires i < |bytes|
    requires cur == Run(step, s, bytes[..i]).0
    requires handler.tx.queue == queue0 + Messages(Run(step, s, bytes[..i]).1)
    modifies handler.tx
    ensures next == Run(step, s, bytes[..i + 1]).0
    ensures handler.tx.queue == queue0 + Messages(Run(step, s, bytes[..i + 1]).1)
  {
    ghost var done := Run(step, s, bytes[..i]).1;
    ghost var more := step(cur, bytes[i]).1;
    RunPrefix(step, s, bytes, i);
    QueueGrows(queue0, done, more);
    next := Advance(step, cur, handler, bytes[i]);
  }

  /** `for &byte in &buf[0..n] { parser.advance(&mut handler, byte) }`. */
  method FeedChunk<S>(step: (S, byte) -> (S, seq<Callback>), parser: S, handler: HackerHandler, chunk: seq<byte>)
    returns (next: S)
    modifies handler.tx
    ensures next == Run(step, parser, chunk).0
    ensures handler.tx.queue == old(handler.tx.queue) + Messages(Run(step, parser, chunk).1)
  {
    next := parser;
    ghost var queue0 := handler.tx.queue;
    assert queue0 + Messages(Run(step, parser, chunk[..0]).1) == queue0;
    for i := 0 to |chunk|
      invariant next == Run(step, parser, chunk[..i]).0
      invariant handler.tx.queue == queue0 + Messages(Run(step, parser, chunk[..i]).1)
    {
      next := FeedByte(step, parser, handler, chunk, i, next, queue0);
    }
    assert chunk[..|chunk|] == chunk;
  }

  /** `p` preceded by chunks `cs` and callbacks `cbs` already done. */
  function After<S>(cs: seq<seq<byte>>, cbs: seq<Callback>, p: Pumped<S>): (q: Pumped<S>)
    ensures q.parser == p.parser && q.rest == p.rest
    ensures q.chunks == cs + p.chunks && q.callbacks == cbs + p.callbacks
  {
    Pumped(p.parser, cs + p.chunks, cbs + p.callbacks, p.rest)
  }

  lemma AfterNothing<S>(p: Pumped<S>)
    ensures After([], [], p) == p
  {
    assert [] + p.chunks == p.chunks && [] + p.callbacks == p.callbacks;
  }

  lemma AfterEnd<S>(cs: seq<seq<byte>>, cbs: seq<Callback>, parser: S, rest: seq<PtyEvent>)
    ensures After(cs, cbs, Pumped(parser, [], [], rest)) == Pumped(parser, cs, cbs, rest)
  {
    assert cs + [] == cs && cbs + [] == cbs;
  }

  lemma AfterAfter<S>(cs: seq<seq<byte>>, cbs: seq<Callback>, c: seq<byte>, more: seq<Callback>, p: Pumped<S>)
    ensures After(cs, cbs, After([c], more, p)) == After(cs + [c], cbs + more, p)
  {
    assert cs + ([c] + p.chunks) == (cs + [c]) + p.chunks;
    assert cbs + (more + p.callbacks) == (cbs + more) + p.callbacks;
  }

  /** One turn of the pump loop: read a chunk and, unless it is empty, feed it to the parser. */
  method PumpTurn<S>(step: (S, byte) -> (S, seq<Callback>), parser: S, reader: PtyReader, handler: HackerHandler,
                     buf: array<byte>)
    returns (next: S, chunk: seq<byte>, ghost more: seq<Callback>)
    requires buf.Length == BufferSize
    modifies reader, buf, handler.tx
    ensures chunk == [] ==> && next == parser
                            && PumpFrom(step, parser, old(reader.pending)) == Pumped(parser, [], [], reader.pending)
                            && handler.tx.queue == old(handler.tx.queue)
    ensures chunk != [] ==> && |Delivered(reader.pending)| < |Delivered(old(reader.pending))|
                            && PumpFrom(step, parser, old(reader.pending)) == After([chunk], more, PumpFrom(step, next, reader.pending))
                            && handler.tx.queue == old(handler.tx.queue) + Messages(more)
  {
    ghost var before := reader.pending;
    chunk := ReadChunk(reader, buf);
    if chunk == [] {
      next, more := parser, [];
    } else {
      ReadContinues(before, BufferSize);
      more := Run(step, parser, chunk).1;
      next := FeedChunk(step, parser, handler, chunk);
    }
  }

  /** The pump loop, read by read, against its definition `PumpFrom`. */
  method PumpLoop<S>(step: (S, byte) -> (S, seq<Callback>), init: S, reader: PtyReader, handler: HackerHandler)
    returns (parser: S, chunks: seq<seq<byte>>)
    modifies reader, handler.tx
    ensures var p := PumpFrom(step, init, old(reader.pending));
      parser == p.parser && chunks == p.chunks && reader.pending == p.rest
      && handler.tx.queue == old(handler.tx.queue) + Messages(p.callbacks)
  {
    var buf := new byte[BufferSize];
    ghost var whole, q0 := PumpFrom(step, init, reader.pending), handler.tx.queue;
    ghost var callbacks: seq<Callback> := [];
    parser, chunks := init, [];
    AfterNothing(whole);
    while true
      invariant whole == After(chunks, callbacks, PumpFrom(step, parser, reader.pending))
      invariant handler.tx.queue == q0 + Messages(callbacks)
      decreases |Delivered(reader.pending)|
    {
      var chunk;
      ghost var more;
      parser, chunk, more := PumpTurn(step, parser, reader, handler, buf);
      if chunk == [] {
        AfterEnd(chunks, callbacks, parser, reader.pending);
        break;
      }
      AfterAfter(chunks, callbacks, chunk, more, PumpFrom(step, parser, reader.pending));
      QueueGrows(q0, callbacks, more);
      chunks := chunks + [chunk];
      callbacks := callbacks + more;
    }
  }

  /**
   * The output pump thread. Its results are the parser's final state, the
   * bytes fed to it and the chunks they were read in: every chunk holds
   * between 1 and 1024 bytes, the bytes fed are exactly the output before
   * the first empty or failed read, in order, the channel receives exactly
   * the messages of the callbacks those bytes trigger, and the reader has
   * consumed the stopping read and nothing after it.
   */
  method OutputPump<S>(step: (S, byte) -> (S, seq<Callback>), init: S, reader: PtyReader, handler: HackerHandler)
    returns (parser: S, fed: seq<byte>, chunks: seq<seq<byte>>)
    modifies reader, handler.tx
    ensures forall i :: 0 <= i < |chunks| ==> 0 < |chunks[i]| <= BufferSize
    ensures Flatten(chunks) == fed
    ensures fed == Delivered(old(reader.pending))
    ensures reader.pending == Rest(old(reader.pending))
    ensures parser == Run(step, init, fed).0
    ensures handler.tx.queue == old(handler.tx.queue) + Messages(Run(step, init, fed).1)
  {
    ghost var script := reader.pending;
    PumpChunksFit(step, init, script);
    PumpReadsDelivered(step, init, script);
    PumpFeedsDelivered(step, init, script);
    parser, chunks := PumpLoop(step, init, reader, handler);
    fed := Flatten(chunks);
  }
}
