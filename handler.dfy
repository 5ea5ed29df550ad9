/**
 * `HackerHandler`, the `vte::Perform` implementation: it turns each callback
 * of the escape-sequence parser into at most one `String` message on the
 * channel. Printable characters and four control bytes become one-character
 * messages; erase-in-display (CSI ... J, ECMA-48 section 8.3.39) becomes the
 * in-band sentinel "CLEAR"; everything else is dropped.
 */
module Handler {
  import opened Wrappers
  import opened Utf8
  import opened Mpsc

  newtype u16 = x: int | 0 <= x < 0x1_0000

  /** `vte::Params`: the parameters of a sequence, each a list of sub-parameters. */
  type Params = seq<seq<u16>>

  /** One call the parser makes on its `Perform` implementation. */
  datatype Callback =
    | Print(c: char)
    | Execute(b: byte)
    | Hook(params: Params, intermediates: seq<byte>, ignore: bool, action: char)
    | Put(b: byte)
    | Unhook
    | OscDispatch(oscParams: seq<seq<byte>>, bellTerminated: bool)
    | CsiDispatch(params: Params, intermediates: seq<byte>, ignore: bool, action: char)
    | EscDispatch(intermediates: seq<byte>, ignore: bool, b: byte)

  /** The message the render consumer reads as "clear the screen". */
  const ClearSentinel: string := "CLEAR"

  /** Line feed, carriage return, tab and backspace are forwarded as themselves. */
  predicate IsForwardedControl(b: byte) {
    b == 0x0A || b == 0x0D || b == 0x09 || b == 0x08
  }

  /** The message `execute(b)` sends, if any. */
  function ExecuteMessage(b: byte): (m: Option<string>)
    ensures m.Some? <==> IsForwardedControl(b)
    ensures m.Some? ==> |m.value| == 1 && m.value[0] as int == b as int
  {
    match b
    case 0x0A => Some("\n")
    case 0x0D => Some("\r")
    case 0x09 => Some("\t")
    case 0x08 => Some([8 as char])
    case _ => None
  }

  /** The message `csi_dispatch(.., c)` sends, if any: only the final character matters. */
  function CsiMessage(c: char): (m: Option<string>)
    ensures m.Some? <==> c == 'J'
    ensures m.Some? ==> m.value == ClearSentinel
  {
    if c == 'J' then Some(ClearSentinel) else None
  }

  /** The message the handler sends for one callback, if any. */
  function Message(cb: Callback): (m: Option<string>)
    ensures cb.Print? ==> m == Some([cb.c])
    ensures cb.Execute? ==> m == ExecuteMessage(cb.b)
    ensures m.Some? ==> cb.Print? || cb.Execute? || cb.CsiDispatch?
    ensures m.Some? && !cb.CsiDispatch? ==> |m.value| == 1
    ensures m == Some(ClearSentinel) <==> cb.CsiDispatch? && cb.action == 'J'
  {
    match cb
    case Print(c) => Some([c])
    case Execute(b) => ExecuteMessage(b)
    case CsiDispatch(_, _, _, c) => CsiMessage(c)
    case _ => None
  }

  /** The zero or one messages an optional message stands for. */
  function Emitted(m: Option<string>): (s: seq<string>)
    ensures |s| <= 1 && (s == [] <==> m.None?)
    ensures m.Some? ==> s[0] == m.value
  {
    if m.Some? then [m.value] else []
  }

  /** The messages the handler sends for a run of callbacks, in order. */
  function Messages(cbs: seq<Callback>): (ms: seq<string>)
    ensures |ms| <= |cbs|
  {
    if cbs == [] then []
    else Messages(cbs[..|cbs| - 1]) + Emitted(Message(cbs[|cbs| - 1]))
  }

  /** Messages are sent callback by callback: splitting a run of callbacks splits its messages. */
  lemma {:induction false} MessagesAppend(a: seq<Callback>, b: seq<Callback>)
    ensures Messages(a + b) == Messages(a) + Messages(b)
    decreases |b|
  {
    if b == [] {
      assert a + b == a;
    } else {
      var n := |b| - 1;
      assert (a + b)[..|a + b| - 1] == a + b[..n];
      assert (a + b)[|a + b| - 1] == b[n];
      MessagesAppend(a, b[..n]);
    }
  }

  /*
   * The sentinel is unambiguous: in the messages of any run of callbacks, a
   * message is "CLEAR" exactly when it came from an erase-in-display CSI
   * dispatch, and every other message is one character long.
   */

  /** Every message other than the sentinel is a single character. */
  lemma {:induction false} OtherMessagesAreChars(cbs: seq<Callback>)
    ensures forall m :: m in Messages(cbs) && m != ClearSentinel ==> |m| == 1
    decreases |cbs|
  {
    if cbs != [] {
      var n := |cbs| - 1;
      OtherMessagesAreChars(cbs[..n]);
      assert Messages(cbs) == Messages(cbs[..n]) + Emitted(Message(cbs[n]));
    }
  }

  /** The sentinel is sent exactly when some callback was an erase (`J`) dispatch. */
  lemma {:induction false} SentinelIffErase(cbs: seq<Callback>)
    ensures ClearSentinel in Messages(cbs) <==>
              exists i :: 0 <= i < |cbs| && cbs[i].CsiDispatch? && cbs[i].action == 'J'
    decreases |cbs|
  {
    if cbs != [] {
      var n := |cbs| - 1;
      var init := cbs[..n];
      SentinelIffErase(init);
      assert Messages(cbs) == Messages(init) + Emitted(Message(cbs[n]));
      if ClearSentinel in Messages(init) {
        var i :| 0 <= i < |init| && init[i].CsiDispatch? && init[i].action == 'J';
        assert cbs[i] == init[i];
      }
      if exists i :: 0 <= i < |cbs| && cbs[i].CsiDispatch? && cbs[i].action == 'J' {
        var i :| 0 <= i < |cbs| && cbs[i].CsiDispatch? && cbs[i].action == 'J';
        if i < n {
          assert init[i] == cbs[i];
        }
      }
    }
  }

  /** Printed text survives as its characters: printing `s` sends one message per character. */
  lemma {:induction false} PrintsRoundTrip(s: string)
    ensures Messages(Prints(s)) == seq(|s|, i requires 0 <= i < |s| => [s[i]])
    decreases |s|
  {
    if s != [] {
      var n := |s| - 1;
      assert Prints(s)[..n] == Prints(s[..n]);
      PrintsRoundTrip(s[..n]);
    }
  }

  /** The `print` callbacks for the characters of `s`, in order. */
  function Prints(s: string): (cbs: seq<Callback>)
    ensures |cbs| == |s| && forall i :: 0 <= i < |s| ==> cbs[i] == Print(s[i])
  {
    seq(|s|, i requires 0 <= i < |s| => Print(s[i]))
  }

  class HackerHandler {
    const tx: Channel

    constructor (tx: Channel)
      ensures this.tx == tx
    {
      this.tx := tx;
    }

    /** `print(c)`: sends the one-character string of `c`. */
    method Print(c: char)
      modifies tx
      ensures tx.queue == old(tx.queue) + [[c]]
    {
      tx.Send([c]);
    }

    /** `execute(byte)`: forwards line feed, carriage return, tab and backspace; drops every other byte. */
    method Execute(b: byte)
      modifies tx
      ensures tx.queue == old(tx.queue) + Emitted(ExecuteMessage(b))
    {
      match b {
        case 0x0A => tx.Send("\n");
        case 0x0D => tx.Send("\r");
        case 0x09 => tx.Send("\t");
        case 0x08 => tx.Send([8 as char]);
        case _ =>
      }
    }

    /** `csi_dispatch`: sends the sentinel for final character 'J', whatever the parameters. */
    method CsiDispatch(params: Params, intermediates: seq<byte>, ignore: bool, c: char)
      modifies tx
      ensures tx.queue == old(tx.queue) + Emitted(CsiMessage(c))
    {
      if c == 'J' {
        tx.Send(ClearSentinel);
      }
    }

    /** `hook`: does nothing. */
    method Hook(params: Params, intermediates: seq<byte>, ignore: bool, c: char)
      ensures tx.queue == old(tx.queue)
    {
    }

    /** `put`: does nothing. */
    method Put(b: byte)
      ensures tx.queue == old(tx.queue)
    {
    }

    /** `unhook`: does nothing. */
    method Unhook()
      ensures tx.queue == old(tx.queue)
    {
    }

    /** `osc_dispatch`: does nothing. */
    method OscDispatch(params: seq<seq<byte>>, bellTerminated: bool)
      ensures tx.queue == old(tx.queue)
    {
    }

    /** `esc_dispatch`: does nothing. */
    method EscDispatch(intermediates: seq<byte>, ignore: bool, b: byte)
      ensures tx.queue == old(tx.queue)
    {
    }

    /** The parser invoking the handler for one callback. */
    method Perform(cb: Callback)
      modifies tx
      ensures tx.queue == old(tx.queue) + Emitted(Message(cb))
    {
      match cb {
        case Print(c) => Print(c);
        case Execute(b) => Execute(b);
        case Hook(p, i, ig, a) => Hook(p, i, ig, a);
        case Put(b) => Put(b);
        case Unhook => Unhook();
        case OscDispatch(p, bell) => OscDispatch(p, bell);
        case CsiDispatch(p, i, ig, a) => CsiDispatch(p, i, ig, a);
        case EscDispatch(i, ig, b) => EscDispatch(i, ig, b);
      }
    }

    /** The parser invoking the handler for each callback of a run, in order. */
    method PerformAll(cbs: seq<Callback>)
      modifies tx
      ensures tx.queue == old(tx.queue) + Messages(cbs)
    {
      for j := 0 to |cbs|
        invariant tx.queue == old(tx.queue) + Messages(cbs[..j])
      {
        assert cbs[..j + 1][..j] == cbs[..j];
        Perform(cbs[j]);
      }
      assert cbs[..|cbs|] == cbs;
    }
  }
}
