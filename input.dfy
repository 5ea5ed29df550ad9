/**
 * The input relay: the loop at the end of `main`. Each turn reads one
 * terminal event; a key press is mapped to the bytes the shell should see
 * and written to the pty (then flushed), Esc leaves the loop, and at the end
 * of every turn the loop also stops once the child shell has exited. An
 * error from `write_all`, `flush` or `try_wait` leaves `main` through `?`.
 */
module Input {
  import opened Wrappers
  import opened Utf8

  /** crossterm's `KeyCode`. */
  datatype KeyCode =
    | Backspace | Enter | Left | Right | Up | Down | Home | End | PageUp | PageDown
    | Tab | BackTab | Delete | Insert | F(n: nat) | Char(c: char) | Null | Esc
    | CapsLock | ScrollLock | NumLock | PrintScreen | Pause | Menu | KeypadBegin
    | Media | Modifier

  /** What `event::read()` returned: a key press, some other event, or an error. */
  datatype InputEvent = Key(code: KeyCode) | OtherEvent | ReadFailed

  /** What `child.try_wait()` returned: still running, exited, or an error. */
  datatype WaitStatus = Running | Exited | WaitFailed

  /**
   * The outcome of the foreign calls in one turn of the loop: the event
   * read, whether `write_all` and `flush` succeed, and what `try_wait`
   * reports. A turn only consults the parts it reaches.
   */
  datatype Tick = Tick(input: InputEvent, writeOk: bool, flushOk: bool, child: WaitStatus)

  /** Why the loop ended: `break` on Esc or child exit, or an error passed up by `?`. */
  datatype Exit = EscPressed | ChildExited | WriteFailed | FlushFailed | WaitError

  /** What a key asks of the relay. */
  datatype KeyAction = Send(bytes: seq<byte>) | Ignore | Quit

  /** The character a sending key stands for. */
  function KeyChar(code: KeyCode): char
    requires code.Char? || code.Enter? || code.Backspace?
  {
    if code.Char? then code.c else if code.Enter? then '\n' else '\U{7F}'
  }

  /**
   * The `match code` of the input loop: a character is sent as its UTF-8
   * encoding, Enter as a line feed, Backspace as DEL (never 0x08), Esc quits
   * and every other key sends nothing.
   */
  function KeyMap(code: KeyCode): (a: KeyAction)
    ensures a.Quit? <==> code.Esc?
    ensures a.Send? <==> code.Char? || code.Enter? || code.Backspace?
    ensures a.Send? ==> Decode(a.bytes) == Some(KeyChar(code))
    ensures code.Enter? ==> a == Send([0x0A])
    ensures code.Backspace? ==> a == Send([0x7F])
  {
    match code
    case Char(c) => DecodeEncode(c); Send(Encode(c))
    case Enter => Send([0x0A])
    case Backspace => Send([0x7F])
    case Esc => Quit
    case _ => Ignore
  }

  /** The bytes a key sends are the only encoding of its character. */
  lemma KeyBytesUnique(code: KeyCode, bs: seq<byte>)
    requires code.Char? || code.Enter? || code.Backspace?
    ensures KeyMap(code) == Send(bs) <==> Decode(bs) == Some(KeyChar(code))
  {
    EncodeDecode(KeyChar(code), bs);
  }

  /** A successful operation on the pty writer. */
  datatype WriterOp = Wrote(bytes: seq<byte>) | Flushed

  /** The master side of the pty, as the input loop holds it under the lock. */
  class PtyWriter {
    /** Every successful `write_all` and `flush`, oldest first. */
    var log: seq<WriterOp>

    constructor ()
      ensures log == []
    {
      log := [];
    }

    /** `write_all(bytes)`, whose success the environment decides. */
    method WriteAll(bytes: seq<byte>, ok: bool) returns (success: bool)
      modifies this
      ensures success == ok
      ensures log == if ok then old(log) + [Wrote(bytes)] else old(log)
    {
      success := ok;
      if ok {
        log := log + [Wrote(bytes)];
      }
    }

    /** `flush()`, whose success the environment decides. */
    method Flush(ok: bool) returns (success: bool)
      modifies this
      ensures success == ok
      ensures log == if ok then old(log) + [Flushed] else old(log)
    {
      success := ok;
      if ok {
        log := log + [Flushed];
      }
    }
  }

  /** How `if child.try_wait()?.is_some() { break; }` ends the turn. */
  function WaitExit(w: WaitStatus): (e: Option<Exit>)
    ensures e == None <==> w == Running
    ensures e == Some(ChildExited) <==> w == Exited
  {
    match w
    case Running => None
    case Exited => Some(ChildExited)
    case WaitFailed => Some(WaitError)
  }

  /** A turn reaches `try_wait`: no Esc, and no failed write or flush on the way. */
  predicate ReachesWait(t: Tick): (b: bool)
    ensures b ==> t.input != Key(Esc)
    ensures !t.input.Key? ==> b
  {
    match t.input
    case Key(code) =>
      (match KeyMap(code)
       case Quit => false
       case Send(_) => t.writeOk && t.flushOk
       case Ignore => t.flushOk)
    case _ => true
  }

  /** The writer operations of one turn and, when the loop ends there, why. */
  datatype Turn = Turn(ops: seq<WriterOp>, exit: Option<Exit>)

  /** One turn of the input loop, as a function of what the environment answers. */
  function TickStep(t: Tick): (r: Turn)
    ensures r.exit == Some(EscPressed) <==> t.input == Key(Esc)
    ensures t.input == Key(Esc) ==> r.ops == []
    ensures ReachesWait(t) ==> r.exit == WaitExit(t.child)
    ensures !ReachesWait(t) ==> r.exit.Some? && r.exit.value != ChildExited && r.exit.value != WaitError
    ensures |r.ops| <= 2
  {
    match t.input
    case Key(code) =>
      (match KeyMap(code)
       case Quit => Turn([], Some(EscPressed))
       case Send(bs) =>
         if !t.writeOk then Turn([], Some(WriteFailed))
         else if !t.flushOk then Turn([Wrote(bs)], Some(FlushFailed))
         else Turn([Wrote(bs), Flushed], WaitExit(t.child))
       case Ignore =>
         if !t.flushOk then Turn([], Some(FlushFailed))
         else Turn([Flushed], WaitExit(t.child)))
    case _ => Turn([], WaitExit(t.child))
  }

  /**
   * Every write reaches the pty under a flush: in the writer's log, each
   * `Wrote` is followed by a `Flushed`, unless the flush right after it failed
   * and ended the session.
   */
  predicate FlushedAfterWrites(ops: seq<WriterOp>, exit: Option<Exit>) {
    forall i {:trigger ops[i]} :: 0 <= i < |ops| && ops[i].Wrote? ==>
      (i + 1 < |ops| && ops[i + 1] == Flushed) || (i + 1 == |ops| && exit == Some(FlushFailed))
  }

  /**
   * Within one turn, the only write carries the bytes of the key that was
   * read, and it comes first; a flush follows it unless that flush failed
   * and ended the loop. Conversely, a sending key whose `write_all`
   * succeeds is written, and every key turn other than Esc that gets past
   * its flush, an ignored key's included, has flushed last. A turn whose
   * event is not a key touches the writer not at all.
   */
  lemma TurnWritesKey(t: Tick)
    ensures var r := TickStep(t);
      && (forall i :: 0 <= i < |r.ops| && r.ops[i].Wrote? ==>
              t.input.Key? && KeyMap(t.input.code) == Send(r.ops[i].bytes) && i == 0)
      && FlushedAfterWrites(r.ops, r.exit)
    ensures var r := TickStep(t);
      t.input.Key? && KeyMap(t.input.code).Send? && t.writeOk ==>
        1 <= |r.ops| && r.ops[0] == Wrote(KeyMap(t.input.code).bytes)
    ensures var r := TickStep(t);
      t.input.Key? && !t.input.code.Esc? && ReachesWait(t) ==> 1 <= |r.ops| && r.ops[|r.ops| - 1] == Flushed
    ensures !t.input.Key? ==> TickStep(t).ops == []
  {
  }

  /** Everything the loop does over a script of turns: writer operations, exit reason, turns taken. */
  datatype Outcome = Outcome(ops: seq<WriterOp>, exit: Option<Exit>, turns: nat)

  /**
   * The loop run over a script of turns. It stops at the first turn that
   * ends it; a script that runs out first leaves the session running
   * (`exit == None`), where the real loop would wait for the next event.
   */
  function Relay(ticks: seq<Tick>): (o: Outcome)
    ensures o.turns <= |ticks|
    decreases |ticks|
  {
    if ticks == [] then Outcome([], None, 0)
    else
      var r := TickStep(ticks[0]);
      if r.exit.Some? then Outcome(r.ops, r.exit, 1)
      else
        var o := Relay(ticks[1..]);
        Outcome(r.ops + o.ops, o.exit, o.turns + 1)
  }

  /**
   * The loop takes turns until the first one that ends it: every turn
   * before the last one taken continues, the last one taken gives the exit
   * reason, and when no turn ends the loop the whole script is consumed.
   */
  lemma {:induction false} RelayStopsAtFirstExit(ticks: seq<Tick>)
    ensures var o := Relay(ticks);
      && (forall j :: 0 <= j < o.turns - 1 ==> TickStep(ticks[j]).exit == None)
      && (o.exit.Some? ==> 1 <= o.turns && TickStep(ticks[o.turns - 1]).exit == o.exit)
      && (o.exit.None? ==> o.turns == |ticks| && forall j :: 0 <= j < |ticks| ==> TickStep(ticks[j]).exit == None)
    decreases |ticks|
  {
    if ticks != [] && TickStep(ticks[0]).exit.None? {
      RelayStopsAtFirstExit(ticks[1..]);
      var o, p := Relay(ticks), Relay(ticks[1..]);
      forall j | 0 <= j < |ticks| && (j < o.turns - 1 || o.exit.None?)
        ensures TickStep(ticks[j]).exit == None
      {
        if j > 0 {
          assert ticks[j] == ticks[1..][j - 1];
        }
      }
      if o.exit.Some? {
        assert ticks[o.turns - 1] == ticks[1..][p.turns - 1];
      }
    }
  }

  /** The turns after the one that ends the loop are never looked at. */
  lemma {:induction false} RelayIgnoresLaterTurns(ticks: seq<Tick>, later: seq<Tick>)
    requires Relay(ticks).exit.Some?
    ensures Relay(ticks + later) == Relay(ticks)
    decreases |ticks|
  {
    assert (ticks + later)[0] == ticks[0];
    if TickStep(ticks[0]).exit.None? {
      assert (ticks + later)[1..] == ticks[1..] + later;
      RelayIgnoresLaterTurns(ticks[1..], later);
    }
  }

  /**
   * Esc ends the session in the turn it is read, writing and flushing
   * nothing in that turn, whatever the child is doing: the loop's log is
   * that of the turns before it.
   */
  lemma {:induction false} EscQuits(ticks: seq<Tick>, j: nat)
    requires j < |ticks| && ticks[j].input == Key(Esc)
    requires forall k :: 0 <= k < j ==> TickStep(ticks[k]).exit == None
    ensures Relay(ticks) == Outcome(Relay(ticks[..j]).ops, Some(EscPressed), j + 1)
    decreases j
  {
    if j > 0 {
      forall k | 0 <= k < j - 1
        ensures TickStep(ticks[1..][k]).exit == None
      {
        assert ticks[1..][k] == ticks[k + 1];
      }
      assert ticks[1..][j - 1] == ticks[j];
      EscQuits(ticks[1..], j - 1);
      assert ticks[..j][0] == ticks[0] && ticks[..j][1..] == ticks[1..][..j - 1];
      assert TickStep(ticks[0]).exit == None;
    } else {
      assert Relay(ticks[..0]) == Outcome([], None, 0);
    }
  }

  /**
   * A turn that reaches `try_wait` when the child has exited is the last
   * one: if no earlier turn ended the loop, the loop ends there because the
   * child exited.
   */
  lemma {:induction false} ChildExitEnds(ticks: seq<Tick>, j: nat)
    requires j < |ticks| && ReachesWait(ticks[j]) && ticks[j].child == Exited
    ensures Relay(ticks).turns <= j + 1 && Relay(ticks).exit.Some?
    ensures (forall k :: 0 <= k < j ==> TickStep(ticks[k]).exit == None) ==>
              Relay(ticks).exit == Some(ChildExited) && Relay(ticks).turns == j + 1
    decreases j
  {
    if j > 0 && TickStep(ticks[0]).exit.None? {
      assert ticks[1..][j - 1] == ticks[j];
      ChildExitEnds(ticks[1..], j - 1);
      if forall k :: 0 <= k < j ==> TickStep(ticks[k]).exit == None {
        forall k | 0 <= k < j - 1
          ensures TickStep(ticks[1..][k]).exit == None
        {
          assert ticks[1..][k] == ticks[k + 1];
        }
      }
    }
  }

  lemma {:induction false} RelayFlushesWrites(ticks: seq<Tick>)
    ensures FlushedAfterWrites(Relay(ticks).ops, Relay(ticks).exit)
    decreases |ticks|
  {
    if ticks != [] {
      var r := TickStep(ticks[0]);
      TurnWritesKey(ticks[0]);
      if r.exit.None? {
        RelayFlushesWrites(ticks[1..]);
        FlushedAppend(r.ops, Relay(ticks[1..]).ops, Relay(ticks[1..]).exit);
      }
    }
  }

  /** Logs that keep the flush discipline stay so when joined, if the first one ends the loop nowhere. */
  lemma FlushedAppend(a: seq<WriterOp>, b: seq<WriterOp>, exit: Option<Exit>)
    requires FlushedAfterWrites(a, None) && FlushedAfterWrites(b, exit)
    ensures FlushedAfterWrites(a + b, exit)
  {
    var ops := a + b;
    forall i | 0 <= i < |ops| && ops[i].Wrote?
      ensures (i + 1 < |ops| && ops[i + 1] == Flushed) || (i + 1 == |ops| && exit == Some(FlushFailed))
    {
      if i < |a| {
        assert ops[i] == a[i] && a[i].Wrote?;
        assert ops[i + 1] == a[i + 1];
      } else {
        assert ops[i] == b[i - |a|] && b[i - |a|].Wrote?;
        if i + 1 < |ops| {
          assert ops[i + 1] == b[i + 1 - |a|];
        }
      }
    }
  }

  /** The bytes that reached the pty, in order. */
  function WrittenBytes(ops: seq<WriterOp>): seq<byte>
  {
    if ops == [] then [] else (if ops[0].Wrote? then ops[0].bytes else []) + WrittenBytes(ops[1..])
  }

  /** The bytes a turn hands to the pty: the key's bytes, when it is a sending key and `write_all` succeeds. */
  function SentBytes(t: Tick): seq<byte>
  {
    if t.input.Key? && KeyMap(t.input.code).Send? && t.writeOk then KeyMap(t.input.code).bytes else []
  }

  /** The bytes the turns of a script hand to the pty, turn after turn. */
  function SentAll(ticks: seq<Tick>): seq<byte>
  {
    if ticks == [] then [] else SentBytes(ticks[0]) + SentAll(ticks[1..])
  }

  lemma {:induction false} WrittenAppend(a: seq<WriterOp>, b: seq<WriterOp>)
    ensures WrittenBytes(a + b) == WrittenBytes(a) + WrittenBytes(b)
    decreases |a|
  {
    if a == [] {
      assert a + b == b;
    } else {
      assert (a + b)[0] == a[0] && (a + b)[1..] == a[1..] + b;
      WrittenAppend(a[1..], b);
    }
  }

  /** What one turn writes is what it hands to the pty. */
  lemma TurnWrittenBytes(t: Tick)
    ensures WrittenBytes(TickStep(t).ops) == SentBytes(t)
  {
    var r := TickStep(t);
    if |r.ops| == 2 {
      assert r.ops[1..][1..] == [];
    } else if |r.ops| == 1 {
      assert r.ops[1..] == [];
    }
  }

  /**
   * The bytes that reach the shell over any script are the bytes of the
   * sending keys whose write succeeded, in the order typed, over the turns
   * the loop takes.
   */
  lemma {:induction false} RelayWritesKeys(ticks: seq<Tick>)
    ensures WrittenBytes(Relay(ticks).ops) == SentAll(ticks[..Relay(ticks).turns])
    decreases |ticks|
  {
    if ticks != [] {
      var r := TickStep(ticks[0]);
      TurnWrittenBytes(ticks[0]);
      var n := Relay(ticks).turns;
      assert ticks[..n][0] == ticks[0];
      if r.exit.Some? {
        assert ticks[..n][1..] == [];
        assert SentAll(ticks[..n]) == SentBytes(ticks[0]) + [];
      } else {
        var o := Relay(ticks[1..]);
        RelayWritesKeys(ticks[1..]);
        WrittenAppend(r.ops, o.ops);
        assert ticks[..n][1..] == ticks[1..][..o.turns];
      }
    } else {
      assert ticks[..0] == [];
    }
  }

  /** The UTF-8 encoding of a whole string, character after character. */
  function EncodeAll(s: string): seq<byte>
  {
    if s == [] then [] else Encode(s[0]) + EncodeAll(s[1..])
  }

  /** A user typing `s`, one key per turn, with every write, flush and `try_wait` succeeding. */
  function Typing(s: string): (ticks: seq<Tick>)
    ensures |ticks| == |s|
  {
    if s == [] then [] else [Tick(Key(Char(s[0])), true, true, Running)] + Typing(s[1..])
  }

  /**
   * Typing a string sends its UTF-8 encoding to the shell: the session keeps
   * running, one write and one flush per key, and the bytes written are the
   * encoding of the string.
   */
  lemma {:induction false} TypingSendsUtf8(s: string)
    ensures var o := Relay(Typing(s));
      o.exit == None && o.turns == |s| && |o.ops| == 2 * |s| && WrittenBytes(o.ops) == EncodeAll(s)
    decreases |s|
  {
    if s != [] {
      var ticks := Typing(s);
      assert ticks[1..] == Typing(s[1..]);
      TypedKeyTurn(s[0]);
      TypingSendsUtf8(s[1..]);
      var rest := Relay(Typing(s[1..])).ops;
      assert Relay(ticks).ops == [Wrote(Encode(s[0])), Flushed] + rest;
      WrittenAfterKey(Encode(s[0]), rest);
    }
  }

  /** One typed character, with everything succeeding: written, flushed, and the loop goes on. */
  lemma TypedKeyTurn(c: char)
    ensures TickStep(Tick(Key(Char(c)), true, true, Running)) == Turn([Wrote(Encode(c)), Flushed], None)
  {
  }

  lemma WrittenAfterKey(bs: seq<byte>, rest: seq<WriterOp>)
    ensures WrittenBytes([Wrote(bs), Flushed] + rest) == bs + WrittenBytes(rest)
  {
    var ops := [Wrote(bs), Flushed] + rest;
    assert ops[1..] == [Flushed] + rest && ([Flushed] + rest)[1..] == rest;
    assert WrittenBytes([Flushed] + rest) == [] + WrittenBytes(rest);
  }

  /**
   * One turn of the loop body against the writer: the event of `t` is
   * mapped, written and flushed, and `try_wait` is consulted, in the
   * source's order, stopping at the first `break` or failed `?`.
   */
  method RelayTurn(t: Tick, writer: PtyWriter) returns (exit: Option<Exit>)
    modifies writer
    ensures exit == TickStep(t).exit
    ensures writer.log == old(writer.log) + TickStep(t).ops
  {
    if t.input.Key? {
      var action := KeyMap(t.input.code);
      if action.Quit? {
        return Some(EscPressed);
      }
      if action.Send? {
        var written := writer.WriteAll(action.bytes, t.writeOk);
        if !written {
          return Some(WriteFailed);
        }
      }
      var flushed := writer.Flush(t.flushOk);
      if !flushed {
        return Some(FlushFailed);
      }
    }
    exit := WaitExit(t.child);
  }

  /** `o` preceded by turns that performed `ops` and took `n` turns without ending the loop. */
  function Later(ops: seq<WriterOp>, n: nat, o: Outcome): (q: Outcome)
    ensures q.exit == o.exit && q.ops == ops + o.ops && q.turns == n + o.turns
  {
    Outcome(ops + o.ops, o.exit, n + o.turns)
  }

  lemma LaterLater(ops: seq<WriterOp>, n: nat, more: seq<WriterOp>, o: Outcome)
    ensures Later(ops, n, Later(more, 1, o)) == Later(ops + more, n + 1, o)
  {
    assert ops + (more + o.ops) == (ops + more) + o.ops;
  }

  /** Taking one turn of the script left at `i`. */
  lemma RelayAt(ticks: seq<Tick>, i: nat)
    requires i < |ticks|
    ensures var r := TickStep(ticks[i]);
      if r.exit.Some? then Relay(ticks[i..]) == Later(r.ops, 1, Outcome([], r.exit, 0))
      else Relay(ticks[i..]) == Later(r.ops, 1, Relay(ticks[i + 1..]))
  {
    assert ticks[i..][0] == ticks[i];
    assert ticks[i..][1..] == ticks[i + 1..];
    var r := TickStep(ticks[i]);
    assert r.ops + [] == r.ops;
  }

  /**
   * The input loop over a script of turns: it performs the writer
   * operations of `Relay(ticks)` and stops where it does, for the same reason.
   */
  method InputRelay(ticks: seq<Tick>, writer: PtyWriter) returns (exit: Option<Exit>, turns: nat)
    modifies writer
    ensures exit == Relay(ticks).exit && turns == Relay(ticks).turns
    ensures writer.log == old(writer.log) + Relay(ticks).ops
  {
    ghost var done: seq<WriterOp> := [];
    ghost var log0 := writer.log;
    turns, exit := 0, None;
    assert ticks[0..] == ticks;
    LeadIn(Relay(ticks));
    while turns < |ticks|
      invariant turns <= |ticks| && exit == None
      invariant Relay(ticks) == Later(done, turns, Relay(ticks[turns..]))
      invariant writer.log == log0 + done
      decreases |ticks| - turns
    {
      RelayAt(ticks, turns);
      ghost var r := TickStep(ticks[turns]);
      exit := RelayTurn(ticks[turns], writer);
      if exit.Some? {
        LaterLater(done, turns, r.ops, Outcome([], exit, 0));
        done, turns := done + r.ops, turns + 1;
        LeadOut(done, turns, exit);
        return;
      }
      LaterLater(done, turns, r.ops, Relay(ticks[turns + 1..]));
      done, turns := done + r.ops, turns + 1;
    }
    assert ticks[turns..] == [];
    LeadOut(done, turns, None);
  }

  lemma LeadIn(o: Outcome)
    ensures Later([], 0, o) == o
  {
    assert [] + o.ops == o.ops;
  }

  lemma LeadOut(ops: seq<WriterOp>, n: nat, exit: Option<Exit>)
    ensures Later(ops, n, Outcome([], exit, 0)) == Outcome(ops, exit, n)
  {
    assert ops + [] == ops;
  }
}
