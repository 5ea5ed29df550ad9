# Hacker-Term session engine in Dafny

Hacker-Term runs `zsh` on a pseudo-terminal and shows its output in a
green-on-black "hacker" style. The engine behind it is `src/main.rs`.

- **Output pump:** a background thread reads the pty master in 1024-byte chunks. It feeds every byte to the escape-sequence parser (`vte`).
- **Handler:** `HackerHandler` turns the parser's callbacks into string messages on an mpsc channel. Printable characters and four control bytes become one-character messages. Erase-in-display (CSI … `J`, ECMA-48 section 8.3.39) becomes the in-band sentinel `"CLEAR"`.
- **Render consumer:** a second thread drains the channel in order. `"CLEAR"` clears the screen and homes the cursor. Any other message is printed character by character.
- **Input relay:** the main thread maps key presses to the bytes the shell should see. It writes them to the pty and flushes. The loop stops on Esc or once the child has exited.

This project models those four pieces and proves what each promises.

- **`Wrappers`:** an `Option` type.
- **`Utf8`:** bytes, and the UTF-8 encoding of one character (RFC 3629, sections 3 and 4). The model includes a decoder, so the encoding can be stated as a round trip.
- **`Mpsc`:** the channel, as a class over a FIFO `seq<string>`.
- **`Handler`:** the `vte::Perform` callbacks as a datatype, the message each one sends, and the `HackerHandler` class that sends them.
- **`Pump`:** the pty reader.
  - It is a class over a script of what the pty delivers on each read.
  - The parser is a function-typed parameter `step: (S, byte) -> (S, seq<Callback>)`.
  - The pump loop is a method proved against the specification function `PumpFrom`.
- **`Render`:** the screen, as a log of crossterm commands. The consumer loop is proved against `RenderAll`, and `ShownAll` is an independent per-callback reference for the whole pipeline.
- **`Session`:** the channel, the handler, the pump and the consumer put together, from the pty's output to the screen.
- **`Input`:** crossterm key codes and the key map.
  - The pty writer is a class with a log of successful writes and flushes.
  - The input loop is a method proved against the specification function `Relay` over a script of turns.
  - Each turn of the script records what `event::read`, `write_all`, `flush` and `try_wait` return.

The foreign calls become inputs:

- **Parser:** the `vte::Parser` state machine is the `step` parameter.
- **Pty reads:** the pty's output is the reader's script.
- **Terminal, writer and child:** key events, write and flush results, and the child's status come from the input script.

Where the two threads overlap in time, `Render.RenderAllAppend` shows that the screen does not depend on how the consumer's receives interleave with the pump's sends. The model therefore runs the pump first and the consumer after it: `Session.OutputSession` creates the channel and the handler, runs `Pump.OutputPump` to its end and then `Render.RenderConsumer`, and proves that the screen gains, in read order, what each callback of the delivered output stands for.

As written, `src/main.rs` would not compile in three places, and the model follows what the code evidently means.

- The handler at line 98 is bound without `mut` but is borrowed `&mut` at line 106.
- `reader.read` at line 101 needs the `std::io::Read` trait, which line 12 does not import.
- `cmd.spawn(&pty.pty)` at line 89 does not match the `portable_pty` API, where the slave side spawns the command.

## Model

| member | source | states |
|---|---|---|
| `Utf8.Encode` | src/main.rs:135 | `c.to_string().as_bytes()` is 1 to 4 bytes; it is one byte exactly for ASCII, and that byte is the character; every later byte is a continuation byte |
| `Utf8.Decode` | src/main.rs:135 | a decoder for a single character (RFC 3629, section 4): only 1 to 4 bytes ever decode; overlong forms, surrogates and values above U+10FFFF are refused |
| `Utf8.DecodeEncode` | src/main.rs:135 | decoding the bytes written for a character gives that character back |
| `Utf8.EncodeOfDecoded` | src/main.rs:135 | every byte string that decodes is the encoding of what it decodes to |
| `Utf8.EncodeDecode` | src/main.rs:135 | a byte string decodes to `c` if and only if it is the encoding of `c`, so the bytes sent for a character are its only UTF-8 form |
| `Mpsc.Channel.constructor` | src/main.rs:74 | a new channel holds no messages |
| `Mpsc.Channel.Send` | src/main.rs:30 | `tx.send(msg)` puts the message at the back of the queue |
| `Mpsc.Channel.Recv` | src/main.rs:114 | `rx.recv()` returns the oldest message and removes it, or `None` once nothing is pending and the sender is gone |
| `Handler.ExecuteMessage` | src/main.rs:33-45 | `execute(b)` sends a message if and only if `b` is LF, CR, TAB or BS; that message is the single character with code `b` |
| `Handler.CsiMessage` | src/main.rs:51-56 | `csi_dispatch` sends a message if and only if the final character is `'J'`, and that message is `"CLEAR"` |
| `Handler.Message` | src/main.rs:27-58 | for a callback: `print(c)` sends `[c]`; `execute` sends as above; only print, execute and CSI dispatch send anything; every message from any other callback than CSI dispatch is one character; the message is `"CLEAR"` if and only if the callback is a CSI dispatch with final `'J'` |
| `Handler.Messages` | src/main.rs:27-58 | the messages a run of callbacks sends, in callback order; each callback sends at most one, so there are never more messages than callbacks |
| `Handler.MessagesAppend` | src/main.rs:27-58 | the messages of two runs of callbacks, one after the other, are the two runs' messages in that order |
| `Handler.OtherMessagesAreChars` | src/main.rs:30-42 | over any run of callbacks, every message other than `"CLEAR"` is one character long |
| `Handler.SentinelIffErase` | src/main.rs:54 | `"CLEAR"` is among the messages of a run of callbacks if and only if one of them is a CSI dispatch with final `'J'`; printed text can never fake the sentinel |
| `Handler.PrintsRoundTrip` | src/main.rs:28-31 | printing the characters of a string sends exactly one message per character, namely that character, in order |
| `Handler.HackerHandler.constructor` | src/main.rs:98 | `HackerHandler { tx }` holds the channel's sender |
| `Handler.HackerHandler.Print` | src/main.rs:28-31 | appends exactly the one-character string of `c` to the channel |
| `Handler.HackerHandler.Execute` | src/main.rs:33-45 | appends `"\n"`, `"\r"`, `"\t"` or `"\x08"` for 0x0A, 0x0D, 0x09, 0x08; any other byte leaves the channel unchanged |
| `Handler.HackerHandler.CsiDispatch` | src/main.rs:51-56 | appends `"CLEAR"` when the final character is `'J'`, whatever the parameters, intermediates and ignore flag; otherwise nothing |
| `Handler.HackerHandler.Hook` | src/main.rs:47 | leaves the channel unchanged |
| `Handler.HackerHandler.Put` | src/main.rs:48 | leaves the channel unchanged |
| `Handler.HackerHandler.Unhook` | src/main.rs:49 | leaves the channel unchanged |
| `Handler.HackerHandler.OscDispatch` | src/main.rs:50 | leaves the channel unchanged |
| `Handler.HackerHandler.EscDispatch` | src/main.rs:57 | leaves the channel unchanged |
| `Handler.HackerHandler.Perform` | src/main.rs:27-58 | the parser's call for one callback appends exactly that callback's message, if any |
| `Handler.HackerHandler.PerformAll` | src/main.rs:105-107 | the parser's calls for a run of callbacks append their messages in callback order |
| `Pump.Run` | src/main.rs:105-107 | the parser fed a byte string one byte at a time, front first. No bytes leave the state as it was, with no callbacks, and one byte is exactly one `advance` step |
| `Pump.RunAppend` | src/main.rs:105-107 | feeding `a` then `b` to the parser ends where feeding `a + b` does, with the callbacks of `a` followed by those of `b` |
| `Pump.ChunkingInvisible` | src/main.rs:100-108 | feeding the chunks one after the other is the same as feeding their concatenation in one go, in final state and in callbacks |
| `Pump.StopsAtFirstEmptyRead` | src/main.rs:101-104 | the bytes the pump can be given are the output before the first empty or failed read, and what follows that read is never looked at |
| `Pump.NextRead` | src/main.rs:101 | one read into the buffer reports as many bytes as it placed there and never more than the buffer holds; a failed read places none |
| `Pump.ReadStops` | src/main.rs:101-104 | a read that yields no bytes means there is no more output to give the parser |
| `Pump.ReadContinues` | src/main.rs:101-107 | a read that yields bytes yields the next bytes of the output; the rest of the output follows it |
| `Pump.PumpFrom` | src/main.rs:100-108 | the pump loop from a parser state over the coming reads, read by read. Every read that continues consumes output, so there are never more chunks than bytes delivered before the stop |
| `Pump.PumpChunksFit` | src/main.rs:99-105 | every chunk the pump reads has between 1 and 1024 bytes |
| `Pump.PumpReadsDelivered` | src/main.rs:100-108 | the chunks read, concatenated, are exactly the output before the first empty or failed read; everything after that read is left unread |
| `Pump.PumpRunsChunks` | src/main.rs:100-108 | the parser runs over the chunks in order, each chunk starting from the state the last one left |
| `Pump.PumpFeedsDelivered` | src/main.rs:100-108 | the parser's final state and callbacks are those of feeding the delivered output byte by byte in order, as if it came in one read |
| `Pump.PtyReader.constructor` | src/main.rs:91 | the reader starts with the given script of what the pty delivers |
| `Pump.PtyReader.Read` | src/main.rs:101 | `reader.read(&mut buf)` copies the next bytes into the front of the buffer, at most as many as it holds; it reports the count or the error and keeps the rest for the next read |
| `Pump.ReadChunk` | src/main.rs:101 | `let n = reader.read(&mut buf).unwrap_or(0)`: the chunk is `buf[0..n]`, and it is empty on error |
| `Pump.Advance` | src/main.rs:106 | `parser.advance(&mut handler, byte)` moves the parser one step and sends the messages of that step's callbacks |
| `Pump.FeedByte` | src/main.rs:105-106 | one turn of the byte loop: the parser and the channel move from the run over `bytes[..i]` to the run over `bytes[..i + 1]` |
| `Pump.FeedChunk` | src/main.rs:105-107 | feeding one chunk leaves the parser where feeding its bytes in order does, and appends the messages of all their callbacks |
| `Pump.PumpTurn` | src/main.rs:101-107 | one loop turn: an empty read changes nothing and the loop stops there; otherwise the chunk is fed, its messages are sent, and the pump's outcome is that chunk followed by the outcome from the new state |
| `Pump.PumpLoop` | src/main.rs:96-109 | the loop ends (less output is left unread after each turn) in the parser state and with the chunks `PumpFrom` gives; the channel gains exactly the messages of its callbacks |
| `Pump.OutputPump` | src/main.rs:96-109 | the pump thread's main result. Every chunk has 1 to 1024 bytes, and the chunks concatenate to the bytes fed. Those are exactly the output before the first empty or failed read. The reader keeps what follows that read. The parser ends where feeding those bytes in order ends, and the channel gains their messages in order |
| `Render.RenderMessage` | src/main.rs:115-125 | `"CLEAR"` becomes clear-all then move-to (0, 0); any other message becomes one print per character, in order |
| `Render.RenderAll` | src/main.rs:114-126 | the screen commands for the received messages, message after message. The screen is cleared at some point if and only if `"CLEAR"` was among the messages |
| `Render.RenderAllAppend` | src/main.rs:114 | draining `a` and later `b` shows what draining `a + b` shows, so relative order is all that matters |
| `Render.ShownByMessage` | src/main.rs:27-58 | one callback through the handler and the consumer shows what the callback stands for: a print or forwarded control byte is printed, an erase clears and homes, the others show nothing |
| `Render.EndToEnd` | src/main.rs:114-126 | rendering the messages of a run of callbacks shows, in order, what each callback stands for |
| `Render.HiScenario` | src/main.rs:114-126 | `h`, `i`, CR, LF passing through the handler are printed as those four characters in order |
| `Render.Screen.constructor` | src/main.rs:113 | a new screen has issued no commands |
| `Render.Screen.Apply` | src/main.rs:116-121 | `execute!(stdout, action)` adds the action at the end of the screen's log |
| `Render.RenderOne` | src/main.rs:115-125 | the loop body appends exactly the actions of the received message |
| `Render.RenderConsumer` | src/main.rs:112-127 | the loop drains the channel. The screen gains the actions of every pending message in the order they were sent |
| `Session.OutputSession` | src/main.rs:74-127 | with one channel between the pump and the consumer, the parser ends in the state of one in-order feed of the delivered output, the reader keeps only what follows the stopping read, and the screen gains, in read order, what each callback triggered by that output stands for |
| `Input.KeyMap` | src/main.rs:133-148 | `match code`. Esc quits, and it is the only key that does. Char, Enter and Backspace send bytes, and they are the only keys that do. The bytes sent decode to the key's character. Enter sends `[0x0A]` and Backspace `[0x7F]`, never 0x08 |
| `Input.KeyBytesUnique` | src/main.rs:134-143 | for a sending key, a byte string is what the key sends if and only if it decodes to the key's character |
| `Input.PtyWriter.constructor` | src/main.rs:92 | the writer starts with nothing written |
| `Input.PtyWriter.WriteAll` | src/main.rs:135-142 | `write_all` reports the environment's answer, and only a successful write adds to the log |
| `Input.PtyWriter.Flush` | src/main.rs:149 | `flush` reports the environment's answer, and only a successful flush adds to the log |
| `Input.WaitExit` | src/main.rs:152-154 | `try_wait` ends the loop unless the child is still running; it reports a child exit exactly when the child has exited |
| `Input.ReachesWait` | src/main.rs:131-152 | whether a turn gets as far as `child.try_wait()`. A turn that read Esc never does. A turn that read something other than a key event, or failed to read, always does |
| `Input.TickStep` | src/main.rs:131-154 | the loop ends with Esc exactly when Esc was read, and then nothing was written or flushed. A turn that reaches `try_wait` ends as `try_wait` says. A turn that stops before it ends with Esc or a write or flush failure. A turn performs at most two operations |
| `Input.TurnWritesKey` | src/main.rs:131-149 | in one turn, the only write comes first and carries the bytes of the key that was read. A flush follows it unless that flush failed. Conversely, a sending key whose `write_all` succeeds is written first. Every key turn other than Esc that reaches `try_wait` has flushed last, an ignored key's turn included. A turn whose event is not a key neither writes nor flushes |
| `Input.TurnWrittenBytes` | src/main.rs:133-143 | the bytes a turn writes are the key's bytes when the key sends and `write_all` succeeds, and nothing otherwise |
| `Input.Relay` | src/main.rs:130-155 | the loop over a script, turn by turn. Its own contract is only a bound: at most one turn per scripted turn. What the loop does is stated by `RelayStopsAtFirstExit`, `EscQuits`, `ChildExitEnds`, `RelayFlushesWrites` and `RelayWritesKeys` |
| `Input.RelayStopsAtFirstExit` | src/main.rs:130-155 | every turn before the last one taken continues, and the last one gives the exit reason. With no exit, the whole script is consumed |
| `Input.RelayIgnoresLaterTurns` | src/main.rs:144-154 | once a turn ends the loop, later events are never looked at |
| `Input.EscQuits` | src/main.rs:144-146 | Esc ends the loop in the turn it is read. Nothing is written or flushed in that turn, whatever the child is doing |
| `Input.ChildExitEnds` | src/main.rs:152-154 | a turn that reaches `try_wait` after the child has exited is the last one; if no turn before it ended the loop, the loop ends because the child exited |
| `Input.RelayFlushesWrites` | src/main.rs:133-149 | every successful write is followed by a flush, unless that flush failed and ended the session |
| `Input.RelayWritesKeys` | src/main.rs:130-155 | over any script, the bytes that reach the shell are the bytes of every sending key whose write succeeded, in the order read, over the turns the loop takes, and no others |
| `Input.TypedKeyTurn` | src/main.rs:134-149 | a typed character with every call succeeding is written, then flushed, and the loop goes on |
| `Input.TypingSendsUtf8` | src/main.rs:130-155 | typing a string keeps the session running and makes one write and one flush per key. The bytes that reach the shell are the string's UTF-8 encoding |
| `Input.RelayTurn` | src/main.rs:131-154 | the loop body against the writer performs exactly one turn's operations and ends the loop for the same reason |
| `Input.InputRelay` | src/main.rs:130-155 | the input loop performs exactly the writer operations of `Relay` on its script, and stops after the same number of turns for the same reason |

## Left out

- The `vte::Parser` state machine is an external crate and is not part of this model. It is the abstract `step` parameter, and no property depends on its transitions.
- Opening the pty, spawning `zsh`, and cloning the reader and writer (src/main.rs:77-92) are operating-system calls. The reader and writer are given as objects, and the child's status comes from the input script.
- crossterm setup and cleanup are terminal I/O. This covers raw mode, alternate screen, colours, and showing and hiding the cursor (src/main.rs:62-71, 157-160).
- Threads, the real `mpsc` channel's blocking and `Arc<Mutex<…>>` are not modelled. The pump runs before the consumer. `Render.RenderAllAppend` covers how receives and sends may interleave. Races on the shared stdout are out of scope.
- `sleep(Duration::from_millis(5))` and the `stdout.flush()` after each printed character are timing only (src/main.rs:122-123). The screen log records each command once it is issued.
- `.unwrap()` panics on a failed send, on a failed screen command, and on a poisoned lock are runtime failures of foreign calls.
- `Input.PtyWriter.WriteAll`: a failed `write_all` is modelled as writing nothing. A real failed write may have written part of the bytes.
- Key events carry modifiers, kind and state, which the loop ignores (`KeyEvent { code, .. }`). The model keeps only the code. `F(n)` holds an unbounded number where crossterm has a `u8`. `Media` and `Modifier` drop their payloads, which the loop never reads.
- `Pump.NextRead`: when the reader's script runs out, the read returns 0 bytes and so counts as end of stream. A real `reader.read` on the pty would block until output arrives or the pty closes.
- `Input.InputRelay`: when the script runs out, the loop stops with no exit reason. The real `event::read()` would block waiting for the next event.
- `src/terminal.rs`, `src/webview.rs`, `src/style.rs` and `src/ui.rs` are not part of this model. They hold GTK widgets, an HTML/JS animation and a CSS string, with no logic of the engine.
