# zagreus in Dafny

zagreus connects a Z80 computer (an RC2014) to terminal clients. The Z80's
serial console and reset pin are wired to a Raspberry Pi.

- **The server** (`zagreus/server.py`) echoes everything the Z80 prints to
  every connected client. It keeps the last 8 KiB of that output as a
  backbuffer, which it replays to each new client. It writes each client's
  typing to the Z80 with ENTER turned into CR LF. It pulses the reset line
  when a client sends the RESET command.
- **Framing.** Text and one-byte commands share one byte stream. `0xFF`
  escapes the byte that follows it. `encode` doubles every `0xFF`, and
  `decode` splits the stream on "`0xFF` plus any byte". A lone `0xFF` that
  ends the stream has no follower; its chunk still starts with `0xFF`, so
  it is read as a command with an empty payload.
- **The client** (`zagreus/client.py`) puts the terminal in raw mode and
  forwards keys to the server. Ctrl-A opens a one-key menu: reset to the
  monitor, clear the screen, exit, boot CP/M or BASIC, send the prefix, or
  help. The menu as written sends the letter `a` for the repeated prefix,
  not Ctrl-A itself (see Findings).
- **Scripts** (`zagreus/expect.py`) are small expect-like scripts that drive
  the boot sequences. They are generators that send text, wait for a
  pattern with a deadline, or sleep.

The project has these modules:

| file | module | contents |
|---|---|---|
| `wrappers.dfy` | `Wrappers` | `Option` |
| `seqs.dfy` | `Seqs` | small facts about sequence concatenation that the proofs cite by name |
| `framing.dfy` | `Framing` | bytes, UTF-8 encoding, `encode`/`decode`/`command`, the CR LF rewrite |
| `keys.dfy` | `Keys` | the three control-code tables, `control`, `base_key`, `pretty_key`, `getkey` |
| `server_model.dfy` | `ServerModel` | the server's state as a value, one function per handler, `serve_once` as `Step`, and their properties |
| `server.dfy` | `Server` | class `Z80Server`, whose methods update its fields in place; each is proved equal to its `ServerModel` function |
| `expect_model.dfy` | `ExpectModel` | `Command`, the four script instructions, the generator as an explicit resume function, `interact` and its properties |
| `expect.dfy` | `Runner` | class `Expect` with the `while True` loop of `interact`, proved against `ExpectModel` |
| `client_model.dfy` | `ClientModel` | the client's state as a value, the menu, the scripts, `run_once` and their properties |
| `client.dfy` | `Client` | class `Z80Client`, which owns an `Expect` object; each method is proved against `ClientModel` |

Conventions used throughout:

- **Connections** are abstract ids. The success or failure of `sendall` is
  an oracle: a set `failed` of the connections whose send raises during
  that event.
- **Select.** One call of `serve_once` or `run_once` handles one event
  reported by `select`.
- **Time** is an integer number of milliseconds, passed in as `now`.
- **Server state.** `delivered` records every byte that reached each
  connection. `z80` records every reset pulse and serial write, in order.
  `disconnected` records every `close_client`, in order.
- **Client state.** `toServer` records every byte the client sent, and
  `console` everything it wrote to the terminal.
- **Classes and model functions.** `Server.Z80Server.SendToAll`,
  `HandleCommand`, `ServeOnce` and the `Client.Z80Client` methods carry
  contracts written with `old`: each method's new state is the model
  function of its old state. Their properties are stated and proved on those
  model functions.
- **Corrected behaviour.** Where the source has a defect (see Findings), the
  model keeps the as-written function beside a corrected one, and the rest of
  the model (`ServerModel.Step`, `ClientModel.Key`, `ClientModel.RunOnce`
  and the class methods built on them) uses the corrected one.

## Model

| member | source | states |
|---|---|---|
| Framing.Utf8NeverEscapes | zagreus/server.py:23-24 | UTF-8 output never contains the escape byte `0xFF` |
| Framing.Utf8Ascii | zagreus/server.py:23-24 | ASCII text encodes one byte per character, with the same code |
| Framing.Encode | zagreus/server.py:23-24 | the output is the input with every `0xFF` doubled: it is as long as the input plus its number of `0xFF`s |
| Framing.EncodeEscapeFree | zagreus/server.py:23-24 | bytes without `0xFF` are left unchanged |
| Framing.EncodeNotLoneEscape | zagreus/server.py:23-24 | encoded text is never a lone `0xFF` |
| Framing.Command | zagreus/server.py:33-34 | `command(c)` decodes to one command with payload `c` between two empty texts; this holds for `c = 0xFF` as well |
| Framing.SplitPartitions | zagreus/server.py:21-27 | `ESCAPE_RE.split` loses nothing: the chunks concatenate to exactly the input |
| Framing.SplitAlternates | zagreus/server.py:21-27 | there is an odd number of chunks, and every odd-indexed chunk is a match: `0xFF` and the byte after it |
| Framing.SplitEscapes | zagreus/server.py:21-27 | a chunk between matches holds `0xFF` only as the last byte of the last chunk, when the input ends in a lone `0xFF` |
| Framing.Label | zagreus/server.py:28-31 | a chunk starting with `0xFF` becomes a command whose payload is the rest of the chunk, any other chunk text; writing the piece back gives the chunk |
| Framing.Decode | zagreus/server.py:26-31 | there is always a piece, one per chunk of the split, and each piece written back is its chunk |
| Framing.DecodeAlternates | zagreus/server.py:26-31 | the pieces alternate text, one-byte command, text, …, odd in number; the only exception is a lone trailing `0xFF`, which comes last as a command with an empty payload |
| Framing.DecodePartitions | zagreus/server.py:26-31 | the pieces, with each command written back as `0xFF` plus its payload, concatenate to exactly the input |
| Framing.TextPiecesEscapeFree | zagreus/server.py:21-31 | a text piece holds `0xFF` only as its last, non-first byte in the last piece, when the input ends in `0xFF` |
| Framing.DecodeEscapeFree | zagreus/server.py:26-31 | input without `0xFF` decodes to a single text piece equal to the input |
| Framing.DecodeEscapePair | zagreus/server.py:21-31 | input starting with `0xFF` and a byte `c` decodes to an empty text and the command `c`, then the decoding of the rest |
| Framing.DecodeLeadingText | zagreus/server.py:21-31 | a leading byte other than `0xFF` joins the text piece that the rest starts with |
| Framing.DecodeTrailingEscape | zagreus/server.py:28-29 | a lone `0xFF` decodes to one command with an empty payload, also after a command |
| Framing.DecodeOfEncode | zagreus/server.py:23-31 | reading each command of `decode(encode(t))` as its payload byte gives back `t` (the byte stream itself is not an inverse: `FF FF` decodes as a command) |
| Framing.EncodedCommandsAreEscapes | zagreus/server.py:23-31 | every command piece in `decode(encode(t))` has payload `0xFF`, never RESET |
| Framing.TextRoundTrip | zagreus/server.py:23-31 | `encode` leaves encoded text unchanged, and decoding it gives back one text piece |
| Framing.CrLf | zagreus/server.py:189 | the output grows by one byte per LF |
| Framing.CrLfPairs | zagreus/server.py:189 | every LF in the output is preceded by a CR |
| Framing.CrLfInverse | zagreus/server.py:189 | collapsing CR LF back to LF recovers the input, so the rewrite loses nothing |
| Keys.IndexOf | zagreus/client.py:22-28 | `str.index`: no result iff the character is absent, otherwise the first position holding it |
| Keys.TablesDistinct | zagreus/client.py:18-20 | the three tables each have 32 entries, and the lower and upper tables have no repeats |
| Keys.Control | zagreus/client.py:22-31 | defined exactly on the characters of either table; the code is below 32, and it is the lower table's index when the character is there, else the upper table's |
| Keys.BaseKey | zagreus/client.py:33-36 | from code 32 up, the result is the key lowercased: no capital letter, and the same key up to case |
| Keys.BaseKeyOfControl | zagreus/client.py:22-35 | `base_key(control(c)) == c` for every `c` in the lower table |
| Keys.ControlOfBaseKey | zagreus/client.py:22-35 | `control(base_key(k)) == k` for every code `k` below 32, so `base_key` loses nothing on control codes |
| Keys.PrettyKey | zagreus/client.py:38-41 | a control code prints as `C-` and one character, a letter's code as its capital; from code 32 up, the key uppercased: no small letter, and the same key up to case |
| Keys.PrettyKeyPrintable | zagreus/client.py:38-41 | the printed name holds no control character |
| Keys.PrettyKeyOfControlLetter | zagreus/client.py:38-41 | the control code of a letter prints as `C-` followed by the capital letter |
| Keys.GetKey | zagreus/client.py:94-98 | DEL becomes backspace, every other key is returned unchanged, and DEL never comes out |
| ServerModel.Initial | zagreus/server.py:71-79 | the new server is valid: listening, no clients, empty backbuffer, the Z80 reset once |
| ServerModel.CloseClient | zagreus/server.py:113-117 | `close_client(c)` forgets exactly `c`'s address, logs `c` as closed, and leaves listening, the backbuffer, what was delivered and the Z80 alone |
| ServerModel.CloseClientRemovesOne | zagreus/server.py:113-117 | `close_client(c)` removes exactly `c` from the list and from the address map, keeping them in step |
| ServerModel.CloseEach | zagreus/server.py:109-111 | closing a list of clients in turn drops exactly them from the list and the map, logs them in order, and changes nothing else |
| ServerModel.Close | zagreus/server.py:105-111 | afterwards the server is not listening, has no clients and no addresses, has logged every former client, and has kept its backbuffer and its history |
| ServerModel.CloseIdempotent | zagreus/server.py:105-111 | closing twice is closing once |
| ServerModel.Trim | zagreus/server.py:125-128 | the result is the last `min(len, 8192)` characters of its input |
| ServerModel.SendToAll | zagreus/server.py:125-136 | keeps the invariant: list and map in step, no duplicates, backbuffer within 8192 |
| ServerModel.SendToAllSpec | zagreus/server.py:125-136 | every surviving client receives `encode(data)` and nothing else changes for it; exactly the failed ones leave the list and the map and are logged in list order; the backbuffer is trimmed |
| ServerModel.SendToAllExtends | zagreus/server.py:125-136 | delivered bytes, Z80 operations and disconnections only grow |
| ServerModel.HandleCommand | zagreus/server.py:211-214 | keeps the invariant |
| ServerModel.HandleCommandSpec | zagreus/server.py:211-214 | any command other than RESET changes nothing; RESET pulses the reset line once, then broadcasts a newline: every client whose send succeeds gets `encode("\n")` and stays, the failed ones are dropped and get nothing, and the backbuffer gains the newline |
| ServerModel.AcceptClient | zagreus/server.py:157-169 | keeps the invariant when a new connection joins |
| ServerModel.NewClientSeesBackbuffer | zagreus/server.py:157-169 | a new client is appended to the list and mapped to its host (or `local`), and the first bytes it receives decode to exactly the backbuffer |
| ServerModel.ApplyPiece | zagreus/server.py:182-190 | keeps the invariant |
| ServerModel.ApplyPieces | zagreus/server.py:182-190 | keeps the invariant over all pieces |
| ServerModel.Z80Effects | zagreus/server.py:182-190 | the Z80 receives at most one operation per decoded piece |
| ServerModel.ApplyPieceZ80 | zagreus/server.py:182-190 | a text piece adds one serial write of the CR LF text; a command adds what `handle_command` does to the Z80 |
| ServerModel.ApplyPiecesZ80 | zagreus/server.py:182-190 | the Z80 sees exactly the pieces' operations, in order |
| ServerModel.ApplyPiecesExtends | zagreus/server.py:182-190 | applying pieces only extends the histories |
| ServerModel.Receive | zagreus/server.py:175-192 | keeps the invariant: data from a former client is ignored, an empty read closes the client, anything else is applied (the corrected form, see Findings) |
| ServerModel.ReceiveReachesZ80 | zagreus/server.py:181-190 | non-empty data from a client sends the Z80 exactly the operations of its decoded pieces |
| ServerModel.TrailingEscapeIgnored | zagreus/server.py:182-190 | a lone trailing `0xFF` decodes to an empty command, which `handle_command` ignores: alone it changes nothing, after a command only the command and the empty text before it reach the Z80 |
| ServerModel.ReceivePlainText | zagreus/server.py:181-190 | data without `0xFF` reaches the Z80 as one write with every LF turned into CR LF |
| ServerModel.ApplyPiecesAsWritten | zagreus/server.py:182-187 | keeps the invariant; looks up the sender's address before every piece |
| ServerModel.ReceiveAsWritten | zagreus/server.py:175-192 | keeps the invariant in the branch as written |
| ServerModel.ResetFromFailingClientRaises | zagreus/server.py:182-187 | a RESET from a client whose own copy of the broadcast fails ends `serve_once` with KeyError |
| ServerModel.AsWrittenAgreesUnlessRaised | zagreus/server.py:182-190 | the as-written loop either agrees with the corrected one or raises KeyError |
| ServerModel.ReceiveAsWrittenAgrees | zagreus/server.py:175-192 | the as-written branch ends normally or with KeyError, and when it ends normally it agrees with `Receive` |
| ServerModel.Step | zagreus/server.py:138-192 | `serve_once`, with client data handled by the corrected `Receive`, keeps the invariant for every admissible event |
| ServerModel.StepExtends | zagreus/server.py:138-192 | every `serve_once` only extends the histories |
| ServerModel.ClosedServerRefuses | zagreus/server.py:139-140 | on a closed server, `serve_once` raises RuntimeError and changes nothing |
| Server.Z80Server.constructor | zagreus/server.py:71-79 | the fields hold `ServerModel.Initial` |
| Server.Z80Server.CloseClient | zagreus/server.py:113-117 | the new fields are `ServerModel.CloseClient` of the old ones |
| Server.Z80Server.CloseClients | zagreus/server.py:109-111 | the loop leaves `CloseEach` of the old fields |
| Server.Z80Server.Close | zagreus/server.py:105-111 | the new fields are `ServerModel.Close` of the old ones |
| Server.Z80Server.SendEach | zagreus/server.py:129-134 | the returned `broken` list is the failed connections in list order; every other connection is sent the payload |
| Server.Z80Server.SendToAll | zagreus/server.py:125-136 | the new fields are `ServerModel.SendToAll` of the old ones |
| Server.Z80Server.HandleCommand | zagreus/server.py:211-214 | the new fields are `ServerModel.HandleCommand` of the old ones |
| Server.Z80Server.ApplyAll | zagreus/server.py:182-190 | the loop over the pieces leaves `ApplyPieces` of the old fields |
| Server.Z80Server.ServeOnce | zagreus/server.py:138-192 | the new fields and the outcome are `ServerModel.Step` (which uses the corrected `Receive`) of the old fields and the event |
| ExpectModel.ReceiveCommand | zagreus/expect.py:107-111 | `receive` yields a command that wants input, has no output, and has a deadline: the caller's, if it gave one |
| ExpectModel.Continue | zagreus/expect.py:103-133 | running a script to its next yield never raises; it finishes exactly when only raw commands remain; otherwise it pauses inside an instruction with fewer left |
| ExpectModel.ContainsOccurs | zagreus/expect.py:124 | true exactly when the pattern occurs somewhere in the text |
| ExpectModel.Resume | zagreus/expect.py:103-133 | resuming raises exactly when an `expect` receives None; progress is made unless input arrives for a step that asks for more |
| ExpectModel.Start | zagreus/expect.py:34-38 | `start` never raises; a yielded step leaves the generator paused inside an instruction |
| ExpectModel.ContinueWaitsWithDeadline | zagreus/expect.py:107-111 | every step that waits for input has a deadline |
| ExpectModel.ResumeWaitsWithDeadline | zagreus/expect.py:107-111 | every step that waits for input has a deadline, after resuming too |
| ExpectModel.LoopEndsWaiting | zagreus/expect.py:83-101 | the loop stops only at a step waiting, unexpired, for input, or with the script gone; the step's output is always cleared |
| ExpectModel.InputConsumedOnce | zagreus/expect.py:83-101 | the loop hands a chunk of input only to the first command it resumes, and only if that command asks for input; every later command asking for input gets None; a command asking for input is given the chunk whenever there is one |
| ExpectModel.InteractConsumesInputOnce | zagreus/expect.py:69-101 | one call of `interact` hands its input to at most one command, the one the script is paused on (or first yields), and to that command whenever it asks for input |
| ExpectModel.InteractEndsWaiting | zagreus/expect.py:69-101 | after `interact`, runner and step are consistent, and any remaining step waits, unexpired, for input |
| ExpectModel.WaitingWithoutInputIsQuiet | zagreus/expect.py:83-86 | without input, a step waiting for input that has not expired is left alone and nothing is emitted |
| ExpectModel.FinishedIsQuiet | zagreus/expect.py:69-74 | once runner and step are None, `interact` does nothing |
| ExpectModel.EmptyScriptStaysRunning | zagreus/expect.py:34-38 | a script that yields nothing finishes in `start` but keeps its runner, and later calls do nothing |
| ExpectModel.ExpectGathers | zagreus/expect.py:113-125 | a chunk completes `expect` exactly when the gathered text then contains the pattern; otherwise `expect` waits again with the same deadline |
| ExpectModel.ExpectCompletesOnFirstMatch | zagreus/expect.py:113-125 | fed a series of chunks, `expect` finishes at the first prefix whose concatenation contains the pattern |
| ExpectModel.ExpectTimesOut | zagreus/expect.py:119-121 | a receive that yields None raises TimeoutError for the pattern |
| ExpectModel.SleepDiscards | zagreus/expect.py:127-133 | `sleep` discards every chunk and waits again until the same deadline, and goes on once a receive yields None |
| ExpectModel.Timeout | zagreus/expect.py:56-63 | no step gives no timeout; otherwise it is `max(0, expires - now)`, or an error when the step has no deadline |
| ExpectModel.TimeoutAgreesWithExpired | zagreus/expect.py:11-14 | a command without a deadline never expires; one with a deadline has expired exactly when its timeout is 0 and the deadline is not now, so a positive timeout means it has not expired |
| Runner.Expect.constructor | zagreus/expect.py:40-54 | a new script has its name and an unstarted generator, and no step |
| Runner.Expect.Running | zagreus/expect.py:65-67 | a script that is not running has no step |
| Runner.Expect.Start | zagreus/expect.py:34-38 | the new runner, step and emitted effects are `ExpectModel.Start` of the old runner |
| Runner.Expect.Advance | zagreus/expect.py:83-101 | the loop leaves runner, step, effects and error as `ExpectModel.Loop` computes them |
| Runner.Expect.Interact | zagreus/expect.py:69-101 | runner, step, effects and error are `ExpectModel.Interact` of the old runner and step; the object stays consistent |
| ClientModel.Initial | zagreus/client.py:108-116 | a new client is connected, running, outside the menu, with no script |
| ClientModel.Send | zagreus/client.py:144-145 | a connected client appends `encode(text)` to what it sent; a closed one changes nothing |
| ClientModel.SendCommand | zagreus/client.py:147-148 | a connected client appends `0xFF` and the command byte |
| ClientModel.Close | zagreus/client.py:130-136 | afterwards the client is disconnected and, if it was connected, stopped; closing a closed client changes nothing |
| ClientModel.ReprBody | zagreus/client.py:208 | the escaped pattern holds no line break |
| ClientModel.ReprRoundTrip | zagreus/client.py:208 | reading the escapes back gives the pattern, so the report loses nothing of it |
| ClientModel.FramedLines | zagreus/client.py:67-88 | writing inside the console's context adds three lines: a newline and a rule before, a rule after |
| ClientModel.ErrorReportLines | zagreus/client.py:205-208 | for a script name without a line break, the error report is five lines: the name's line and the error's line, framed |
| ClientModel.ApplyEffect | zagreus/client.py:201-202 | a script's output or raw command only appends its bytes to what the client sent |
| ClientModel.ApplyEffects | zagreus/client.py:201-202 | script effects change nothing but the bytes sent |
| ClientModel.ApplyEffectsSends | zagreus/client.py:201-202 | a connected client sends exactly the effects' bytes, in order |
| ClientModel.ApplyEffectsDisconnected | zagreus/client.py:201-202 | a closed client ignores the effects |
| ClientModel.Jog | zagreus/client.py:201-208 | jogging the script keeps the script consistent and leaves the connection, the running flag and the menu alone |
| ClientModel.JogQuiet | zagreus/client.py:196-197 | without a running script, jogging changes nothing |
| ClientModel.RunScript | zagreus/client.py:199-203 | installing and starting a script keeps the client consistent |
| ClientModel.FirstOption | zagreus/client.py:234-252 | finds the first option whose letters hold the key, and none when no option does |
| ClientModel.OptionsLiteral | zagreus/client.py:239-252 | the options, in the order they are tried, are r, l, xq, c, b, `a` (the prefix's base key), h? |
| ClientModel.OptionsDisjoint | zagreus/client.py:239-252 | every option has a first letter, and no letter belongs to two options |
| ClientModel.OptionSelected | zagreus/client.py:234-252 | a key chooses the option whose letters hold it |
| ClientModel.HelpOneLine | zagreus/client.py:239-252 | every option's description is one line |
| ClientModel.HelpLineOneLine | zagreus/client.py:252-255 | each help line is exactly one line |
| ClientModel.HelpLinesCount | zagreus/client.py:234-255 | the help screen has exactly one line per option |
| ClientModel.Perform | zagreus/client.py:239-255 | every menu action keeps the client consistent |
| ClientModel.MenuChoosesFirstMatch | zagreus/client.py:239-252 | the first option in order r, l, xq, c, b, a, h? whose letters hold `base_key` of the key decides the action |
| ClientModel.HandleMenuKey | zagreus/client.py:230-255 | keeps the client consistent (the corrected form, see Findings) |
| ClientModel.HandleMenuKeyAsWritten | zagreus/client.py:230-255 | keeps the client consistent, in the menu as written |
| ClientModel.ResetOptionResetsZ80 | zagreus/client.py:210-213 | the reset option sends the RESET command and leaves the monitor script waiting three seconds for the banner |
| ClientModel.PrefixOption | zagreus/client.py:249-251 | the prefix key reaches the sixth option, the one that sends the prefix |
| ClientModel.RepeatedPrefixSendsLetter | zagreus/client.py:249-251 | as written, Ctrl-A Ctrl-A sends the letter `a` |
| ClientModel.AsWrittenOptionSends | zagreus/client.py:230-251 | as written, a key reaching the prefix option sends its base key |
| ClientModel.RepeatedPrefixSendsPrefix | zagreus/client.py:249-251 | corrected, Ctrl-A Ctrl-A sends the byte 1, Ctrl-A itself |
| ClientModel.MenuKeyIsControlA | zagreus/client.py:116 | the menu key is `control('a')`, code 1, whose base key is `a` and whose name is `C-A` |
| ClientModel.Key | zagreus/client.py:184-193 | routing a key through the corrected menu keeps the client consistent |
| ClientModel.KeyReachesServer | zagreus/client.py:184-197 | outside the menu, any key but the prefix is sent to the server, after `getkey` maps DEL to backspace, and then the script is jogged; with no script running nothing else happens |
| ClientModel.PrefixOpensMenu | zagreus/client.py:186-197 | the prefix sends nothing and only opens the menu (then the script is jogged); the next key goes to the menu, which then closes |
| ClientModel.ReplaceFormFeed | zagreus/client.py:179 | text without form feeds is unchanged; with a clear string free of them, none remain |
| ClientModel.ShowPieces | zagreus/client.py:174-182 | showing the decoded pieces keeps the client consistent and leaves the connection, the running flag and the menu alone |
| ClientModel.ShowTextQuiet | zagreus/client.py:174-182 | without a script, a text piece is written to the console with form feeds replaced by the clear string |
| ClientModel.Receive | zagreus/client.py:171-182 | keeps the client consistent (the corrected form: an empty read closes, see Findings) |
| ClientModel.ReceiveAsWritten | zagreus/client.py:171-182 | keeps the client consistent, in the branch as written |
| ClientModel.ServerTextShown | zagreus/client.py:173-180 | server data without `0xFF` appears on the console whole |
| ClientModel.ServerCommandsIgnored | zagreus/client.py:174-176 | a command from the server, or a lone trailing `0xFF`, changes nothing |
| ClientModel.EmptyReadKeepsSpinning | zagreus/client.py:173-182 | as written, an empty read from a closed server leaves the client exactly as it was |
| ClientModel.EmptyReadCloses | zagreus/client.py:173-182 | corrected, an empty read disconnects and stops the client |
| ClientModel.RunOnce | zagreus/client.py:154-197 | `run_once`, with the corrected `Key` and `Receive`, keeps the client consistent for every event |
| ClientModel.StopCloses | zagreus/client.py:155-157 | a stopped client only closes, and closing is idempotent |
| ClientModel.Interrupt | zagreus/client.py:90-92 | the interrupt stops the client |
| Client.Z80Client.constructor | zagreus/client.py:108-116 | the fields hold `ClientModel.Initial` |
| Client.Z80Client.Send | zagreus/client.py:144-145 | the new state is `ClientModel.Send` of the old one |
| Client.Z80Client.SendCommand | zagreus/client.py:147-148 | the new state is `ClientModel.SendCommand` of the old one |
| Client.Z80Client.Close | zagreus/client.py:130-136 | the new state is `ClientModel.Close` of the old one |
| Client.Z80Client.ApplyEffects | zagreus/client.py:201-202 | the loop over the script's effects leaves `ClientModel.ApplyEffects` of the old state |
| Client.Z80Client.Jog | zagreus/client.py:201-208 | the client and its `Expect` object end in `ClientModel.Jog` of the old state |
| Client.Z80Client.RunScript | zagreus/client.py:199-203 | a fresh `Expect` object is installed and started, as `ClientModel.RunScript` computes |
| Client.Z80Client.HandleMenuKey | zagreus/client.py:230-255 | the new state is `ClientModel.HandleMenuKey` of the old one |
| Client.Z80Client.Perform | zagreus/client.py:239-255 | the new state is `ClientModel.Perform` of the old one and the chosen action |
| Client.Z80Client.Key | zagreus/client.py:184-193 | the new state is `ClientModel.Key` (with the corrected menu) of the old one and the key |
| Client.Z80Client.Receive | zagreus/client.py:171-182 | the new state is `ClientModel.Receive` of the old one and the data; an empty read closes |
| Client.Z80Client.ShowPieces | zagreus/client.py:174-182 | the loop over the pieces leaves `ClientModel.ShowPieces` of the old state |
| Client.Z80Client.RunOnce | zagreus/client.py:154-197 | the new state is `ClientModel.RunOnce` (with the corrected menu and empty read) of the old one and the event |
| Client.Z80Client.Interrupt | zagreus/client.py:90-92 | the new state is `ClientModel.Interrupt` of the old one |

## Left out

- Sockets, `select`, `accept`, `recv` and `sendall`, the serial port, and the GPIO reset pin with its 0.1 s pulse are hardware and OS I/O. They appear as events, the `failed` oracle, and the `z80` log of `Pulse` and `Write`.
- `select` batching is not modelled. One `serve_once` or `run_once` handles one event, so the model does not capture the order of several events handled in one call.
- Partial `sendall` is not modelled. A failing send delivers nothing.
- The Z80's serial read with its `buffer_size` of 1024 and the ASCII encoding of serial writes are left out. Z80 data arrives as a string, and client text goes to the Z80 as bytes.
- UTF-8 decoding with `'replace'` is left out. Server text pieces stay bytes, and the client shows each byte as one character, which is exact for ASCII.
- `Keys.Lower` and `Keys.Upper` handle ASCII letters only. Python's Unicode `lower` and `upper` are not modelled.
- `ClientModel.Repr` escapes only backslash, quote, tab, CR and LF, which is not all of Python's `repr`.
- `Keys.Control` returns None for a character outside both tables. Python raises there (a NameError, since line 31 names an undefined `s`).
- The wall clock is an integer `now` in milliseconds that stays fixed for the whole of one `interact`.
- `serve_forever`, `serve_until_idle` (the idle timer), the `Console` context manager's terminal modes, termios raw mode, the SIGINT handler's TIOCSTI cancel, and curses `tigetstr` are left out. The clear-screen string is a parameter.
- Daemonizing, the pid file, `start_in_background`, the click command lines and `Z80Client.inet`/`unix` are process plumbing and are left out.
- Python generators are replaced by explicit states. A script is a sequence of the instructions `send`, a raw command, `expect` and `sleep`, as the client's three scripts use them.
- The `TypeError` fallback of the `Expect.script` decorator and the default `on_error` (which raises an undefined name) are left out. The client always installs its own `on_error`.
- `start` can raise through the generator itself. The modelled script instructions raise only TimeoutError, and only from `expect` after it has yielded, so `start` never raises here.
- `sendall` failures on the client side are not modelled. `send` (the scripts' `on_output`) and `send_command` (called from inside a script, client.py:148,212) can raise from `start` or `interact`; the model always succeeds.
- `ClientModel.Send`, `ClientModel.SendCommand`, `ClientModel.ApplyEffect` and `ClientModel.ApplyEffects` drop bytes sent after `close`, where Python would raise AttributeError on the None socket.
- `ExpectModel.Timeout` returns `NoDeadline` for a step without a deadline, where Python raises TypeError. `run_once` reads the timeout only between calls of `interact`, and `interact` never leaves a step without a deadline pending (`InteractEndsWaiting`).
- `ExpectModel.Expired`, `ExpectModel.Loop`, `ExpectModel.Interact`, `ClientModel.ErrorReport`, `ClientModel.HelpLines` and `ClientModel.Options` carry no contract of their own; their properties are the lemmas listed for them in the Model table.
- The help screen's text is not proved character by character; `ClientModel.HelpLinesCount` proves only that it has one line per option.

## Findings

| source | as written | input that shows it | evidently intended | confidence | as-written member | corrected member |
|---|---|---|---|---|---|---|
| zagreus/server.py:182-187 | every decoded piece's debug line looks up `conn_addrs[s]`. A RESET piece broadcasts a newline, and if the sender's own copy fails, `close_client` removes it from `conn_addrs`. The next piece's lookup then raises KeyError out of `serve_once` | a connected client whose sends fail sends `FF 72` (RESET); the empty text piece after the command looks up the closed client | the rest of the data is handled and `serve_once` returns normally | medium (needs the sender's own send to fail), not executed | ServerModel.ReceiveAsWritten, ServerModel.ResetFromFailingClientRaises | ServerModel.Receive, ServerModel.ReceiveAsWrittenAgrees |
| zagreus/client.py:249-251 | the "repeated prefix sends prefix" branch sends `c`, but line 231 has already rebound `c` to `base_key(c)` | Ctrl-A Ctrl-A | send Ctrl-A (byte 1) to the Z80 | high, not executed | ClientModel.HandleMenuKeyAsWritten, ClientModel.RepeatedPrefixSendsLetter | ClientModel.HandleMenuKey, ClientModel.RepeatedPrefixSendsPrefix |
| zagreus/client.py:173-182 | an empty `recv` (the server closed) is decoded like data into one empty text piece. The client never closes, and `select` keeps reporting the socket readable | the server closes the connection | close the client, as the server does on an empty read (zagreus/server.py:191-192) | high, not executed | ClientModel.ReceiveAsWritten, ClientModel.EmptyReadKeepsSpinning | ClientModel.Receive, ClientModel.EmptyReadCloses |
