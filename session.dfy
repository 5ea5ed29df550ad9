/**
 * The session engine's output side from the pty to the screen: the pump
 * thread feeds the reader's output through the parser into a fresh channel,
 * and the render thread drains that channel onto the screen.
 */
module Session {
  import opened Utf8
  import opened Mpsc
  import opened Handler
  import opened Pump
  import opened Render

  /**
   * `main`'s channel, handler, pump and consumer, with the pump run to its
   * end before the consumer drains the channel. The screen gains, in read
   * order, what each callback triggered by the delivered output stands for;
   * the reader keeps only what follows the pump's stopping read.
   */
  method OutputSession<S>(step: (S, byte) -> (S, seq<Callback>), init: S, reader: PtyReader, screen: Screen)
    returns (parser: S)
    modifies reader, screen
    ensures parser == Run(step, init, Delivered(old(reader.pending))).0
    ensures reader.pending == Rest(old(reader.pending))
    ensures screen.actions == old(screen.actions) + ShownAll(Run(step, init, Delivered(old(reader.pending))).1)
  {
    ghost var script, shown0 := reader.pending, screen.actions;
    var ch := new Channel();
    var handler := new HackerHandler(ch);
    var fed, chunks;
    parser, fed, chunks := OutputPump(step, init, reader, handler);
    ghost var cbs := Run(step, init, fed).1;
    assert fed == Delivered(script);
    assert ch.queue == Messages(cbs);
    assert screen.actions == shown0;
    RenderConsumer(ch, screen);
    assert screen.actions == shown0 + RenderAll(Messages(cbs));
    EndToEnd(cbs);
  }
}
