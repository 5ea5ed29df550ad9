/**
 * The render consumer: the second background thread of `main`. It drains
 * the channel in order; the sentinel "CLEAR" clears the whole screen and
 * moves the cursor to the top-left corner, any other message is printed
 * one character at a time.
 */
module Render {
  import opened Wrappers
  import opened Utf8
  import opened Mpsc
  import opened Handler

  /** The crossterm commands the consumer issues on standard output. */
  datatype ScreenAction =
    | ClearAll                         // Clear(ClearType::All)
    | MoveTo(column: nat, row: nat)
    | PrintChar(c: char)               // Print(c)

  /** The actions for one message. */
  function RenderMessage(msg: string): (acts: seq<ScreenAction>)
    ensures msg == ClearSentinel ==> acts == [ClearAll, MoveTo(0, 0)]
    ensures msg != ClearSentinel ==> |acts| == |msg| && forall i :: 0 <= i < |msg| ==> acts[i] == PrintChar(msg[i])
  {
    if msg == ClearSentinel then [ClearAll, MoveTo(0, 0)]
    else seq(|msg|, i requires 0 <= i < |msg| => PrintChar(msg[i]))
  }

  /** The actions for a queue of messages, message after message. */
  function RenderAll(msgs: seq<string>): (acts: seq<ScreenAction>)
    ensures ClearAll in acts <==> ClearSentinel in msgs
  {
    if msgs == [] then [] else RenderMessage(msgs[0]) + RenderAll(msgs[1..])
  }

  /**
   * Rendering is message by message: draining `a` and later `b` shows the
   * same as draining `a + b` at once, so how the consumer's receives
   * interleave with the pump's sends does not change the screen.
   */
  lemma {:induction false} RenderAllAppend(a: seq<string>, b: seq<string>)
    ensures RenderAll(a + b) == RenderAll(a) + RenderAll(b)
    decreases |a|
  {
    if a == [] {
      assert a + b == b;
    } else {
      assert (a + b)[0] == a[0] && (a + b)[1..] == a[1..] + b;
      RenderAllAppend(a[1..], b);
    }
  }

  /**
   * What one parser callback shows on screen once it has passed through the
   * handler and the consumer, stated on its own: a printed character or a
   * forwarded control byte is printed, an erase-in-display clears and homes,
   * anything else shows nothing.
   */
  function Shown(cb: Callback): seq<ScreenAction>
  {
    match cb
    case Print(c) => [PrintChar(c)]
    case Execute(b) => if IsForwardedControl(b) then [PrintChar(b as int as char)] else []
    case CsiDispatch(_, _, _, c) => if c == 'J' then [ClearAll, MoveTo(0, 0)] else []
    case _ => []
  }

  /** The screen actions of a run of callbacks, in order. */
  function ShownAll(cbs: seq<Callback>): seq<ScreenAction>
  {
    if cbs == [] then [] else ShownAll(cbs[..|cbs| - 1]) + Shown(cbs[|cbs| - 1])
  }

  /** The handler and the consumer together show exactly what each callback stands for. */
  lemma ShownByMessage(cb: Callback)
    ensures RenderAll(Emitted(Message(cb))) == Shown(cb)
  {
    var m := Message(cb);
    if m.Some? {
      assert Emitted(m) == [m.value];
      assert RenderAll([m.value]) == RenderMessage(m.value);
      if cb.Execute? {
        var s := m.value;
        assert s == [cb.b as int as char];
      }
    }
  }

  /**
   * End to end through the channel: the screen shows, in order, what each
   * callback of the parser stands for; in particular the render loop's test
   * for "CLEAR" never mistakes printed text for the sentinel.
   */
  lemma {:induction false} EndToEnd(cbs: seq<Callback>)
    ensures RenderAll(Messages(cbs)) == ShownAll(cbs)
    decreases |cbs|
  {
    if cbs != [] {
      var n := |cbs| - 1;
      EndToEnd(cbs[..n]);
      RenderAllAppend(Messages(cbs[..n]), Emitted(Message(cbs[n])));
      ShownByMessage(cbs[n]);
    }
  }

  /** The output "hi\r\n" parsed as two prints and two executes shows 'h', 'i', CR, LF in that order. */
  lemma HiScenario()
    ensures RenderAll(Messages([Print('h'), Print('i'), Execute(0x0D), Execute(0x0A)]))
            == [PrintChar('h'), PrintChar('i'), PrintChar('\r'), PrintChar('\n')]
  {
    var cbs := [Print('h'), Print('i'), Execute(0x0D), Execute(0x0A)];
    EndToEnd(cbs);
    assert cbs[..3] == [Print('h'), Print('i'), Execute(0x0D)];
    assert cbs[..3][..2] == [Print('h'), Print('i')];
    assert cbs[..3][..2][..1] == [Print('h')];
    assert [Print('h')][..0] == [];
    assert ShownAll([Print('h')]) == [PrintChar('h')];
    assert ShownAll(cbs[..2]) == [PrintChar('h'), PrintChar('i')];
    assert ShownAll(cbs[..3]) == [PrintChar('h'), PrintChar('i'), PrintChar('\r')];
  }

  class Screen {
    /** Every command issued so far, oldest first. */
    var actions: seq<ScreenAction>

    constructor ()
      ensures actions == []
    {
      actions := [];
    }

    /** `execute!(stdout, action)`. */
    method Apply(a: ScreenAction)
      modifies this
      ensures actions == old(actions) + [a]
    {
      actions := actions + [a];
    }
  }

  /** Receiving the first pending message moves its actions from the queue's side to the screen's. */
  lemma RenderFirst(shown: seq<ScreenAction>, pending: seq<string>)
    requires pending != []
    ensures shown + RenderAll(pending) == (shown + RenderMessage(pending[0])) + RenderAll(pending[1..])
  {
  }

  /**
   * The body of the render loop for one received message: the sentinel
   * clears the screen and homes the cursor, anything else is printed
   * character by character.
   */
  method RenderOne(msg: string, screen: Screen)
    modifies screen
    ensures screen.actions == old(screen.actions) + RenderMessage(msg)
  {
    if msg == ClearSentinel {
      screen.Apply(ClearAll);
      screen.Apply(MoveTo(0, 0));
    } else {
      for i := 0 to |msg|
        invariant screen.actions == old(screen.actions) + RenderMessage(msg)[..i]
      {
        screen.Apply(PrintChar(msg[i]));
      }
    }
  }

  /**
   * `while let Ok(msg) = rx.recv() { ... }` once the pump has finished: the
   * queue is drained and the screen gains the actions of every pending
   * message, in the order the messages were sent.
   */
  method RenderConsumer(rx: Channel, screen: Screen)
    modifies rx, screen
    ensures rx.queue == []
    ensures screen.actions == old(screen.actions) + RenderAll(old(rx.queue))
  {
    ghost var shown0, queue0 := screen.actions, rx.queue;
    while true
      invariant shown0 + RenderAll(queue0) == screen.actions + RenderAll(rx.queue)
      decreases |rx.queue|
    {
      if rx.queue != [] {
        RenderFirst(screen.actions, rx.queue);
      }
      var next := rx.Recv();
      if next.None? {
        break;
      }
      RenderOne(next.value, screen);
    }
    assert RenderAll([]) == [] && screen.actions + [] == screen.actions;
  }
}
