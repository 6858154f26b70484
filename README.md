# BattleBoats, a cursor list with BFS, and a toaster oven — a verified model

This project models, in Dafny, the core of a set of embedded-C and Python coursework programs:

- **BattleBoats** (battleBoats/): two boards play a battleship game over a serial line.
  - Messages are NMEA-0183-style frames `$payload*HH\r\n` with an XOR checksum and no talker ID (module `Message`).
  - Who attacks first is settled by a commit-reveal coin flip (module `Negotiation`).
  - Each board keeps its own grid and a knowledge grid of the opponent (module `Field`).
  - The agent state machine runs the negotiation (module `Agent`).
  - The main program owns a byte-at-a-time transmitter and hands events to the agent (module `Lab10`).
  - A PC tool plays the other side; its pure helpers are in module `PcTool`.
- **Cursor list and BFS graph**.
  - The doubly linked cursor list of depthFirstSearch/List.c is modelled as written, quirks included (module `CursorList`).
  - The list contract that breadthFirstSearch/List.h promises is modelled separately (module `ListContract`).
  - The BFS graph of breadthFirstSearch/Graph.c is built on that contract; its distances are proved to be shortest-path lengths (module `Graph`).
- **Toaster oven**.
  - The four-button debouncer of toasterOven/src/Buttons.c (module `Buttons`).
  - The oven controller of toasterOven/src/Lab08_main.c: mode/select/cook state, the knob scaling, the LED progress bar and the per-second countdown (module `Oven`).

Shared helpers:
- `Bits`: XOR and popcount on naturals.
- `Text`: decimal and hex rendering as `sprintf` does it, C-string truncation, and the `%u`/`%3s` scanning of `sscanf`.

Form:
- Code that changes state in place is a class whose methods are tied, in their `ensures`, to a pure function of the old state. This covers the decoder, the fields, the agent, the transmitter, the list, the graph, the debouncer and the oven.
- The properties the program promises are proved about those functions.
- Values the hardware or `rand()` would supply are parameters:
  - the button register;
  - ADC readings;
  - the random draws of the agent and of the boat placement.

Constants:
- Field.h and Negotiation.h are not part of this model. Their constants are taken from the PC tool:
  - `PUBLIC_KEY` = 0xBEEF (battleBoats/BattleBoatsPC.py:46-47);
  - secrets are 16-bit (battleBoats/src/Agent.c:50).
- Grid size and boat sizes are constructor parameters; the PC tool uses 6×10 and sizes 3/4/5/6.
- The boat status bits are taken as 1, 2, 4, 8.

Where the header comments and the code disagree, the model follows the code:
- The decoder splits the frame at the **first** `*` (`strchr`, battleBoats/src/Message.c:174).
- `Message_ParseMessage` ignores the `sscanf` result for numeric fields, so a recognised tag yields its event even when the fields do not parse.
- After an overflow the decoder stops recording. Every later byte, up to the next `$`, yields NO_EVENT again (`Message.OverflowThenIgnored`). A driver that looks at the event only after extra bytes, as battleBoats/src/MessageTest.c:59-67 does, therefore sees NO_EVENT rather than ERROR.
- `AgentInit` resets only the state and the turn counter and keeps the stored A, B and hash (battleBoats/src/Agent.c:30-34).

## Model

| member | source | states |
|---|---|---|
| Bits.PopcountXor | battleBoats/src/Negotiation.c:28-36 | the parity of popcount(a XOR b) is the sum of the parities of a and b |
| Bits.FlipBitFlipsParity | battleBoats/src/Negotiation.c:28-36 | XOR with a single bit 2^k changes popcount parity |
| Bits.XorAssoc | battleBoats/src/Message.c:16-25 | XOR is associative, so a running XOR checksum can be split anywhere |
| Text.DecValue | battleBoats/src/Message.c:37-53 | the decimal digits `sprintf` writes for n read back as n |
| Text.ScanSignedDec | battleBoats/src/Message.c:96-116 | `%u` scanning of a rendered decimal (signed for SHO's `%d`) returns that value and the remaining text |
| Text.ScanJoin | battleBoats/src/Message.c:96-116 | scanning a comma-joined list of rendered numbers returns exactly those numbers |
| Text.Scan3sTag | battleBoats/src/Message.c:85-90 | `%3s` on a payload that starts with a 3-letter tag returns that tag |
| Text.Hex2Injective | battleBoats/src/Message.c:77-79 | two bytes with the same `%02X` rendering are equal |
| Text.CStrTerminated | battleBoats/src/Message.c:169-183 | a NUL written after a prefix cuts the C string to that prefix |
| Text.FirstIndexAfter | battleBoats/src/Message.c:174 | `strchr` finds the first occurrence, even when more follow |
| Message.Checksum | battleBoats/src/Message.c:16-25 | the XOR of all bytes always fits in a byte |
| Message.ChecksumAppend | battleBoats/src/Message.c:16-25 | checksum of a concatenation is the XOR of the two checksums; empty payload gives 0 |
| Message.ChecksumDetectsSingleChange | battleBoats/src/Message.c:75-83 | changing any single byte of the payload changes its checksum |
| Message.CalculateChecksum | battleBoats/src/Message.c:16-25 | the loop returns the XOR of the bytes before the first NUL |
| Message.Tag | battleBoats/include/Message.h:76-80 | every payload tag is exactly three upper-case letters |
| Message.Encode | battleBoats/src/Message.c:29-63 | empty (length 0) exactly for NONE/ERROR; otherwise starts with `$` and ends with `\r\n` |
| Message.PayloadShape | battleBoats/include/Message.h:37 | every payload is plain ASCII without `$ * \r \n` NUL, and at most 40 bytes, within MESSAGE_MAX_PAYLOAD_LEN |
| Message.EncodeLength | battleBoats/include/Message.h:27 | an encoded frame is at most 46 bytes, below MESSAGE_MAX_LEN - 1, so it never overflows the decoder |
| Message.EncodeHasNoNul | battleBoats/src/Message.c:61-62 | the frame has no NUL, so `strlen` returns its full length |
| Message.ParseMessage | battleBoats/src/Message.c:67-125 | success implies the checksum string is the upper-case `%02X` of the payload's checksum and a RECEIVED event; failure leaves the parameters and sets ERROR (the converse is Message.ParseMessageOk) |
| Message.ParseMessageOk | battleBoats/src/Message.c:67-125 | the parse succeeds exactly when the checksum string is the two-digit upper-case rendering of the payload's checksum and the payload's first word is one of the five tags; with the right checksum the result is the tag dispatch's |
| Message.ParseFields | battleBoats/src/Message.c:85-122 | success means a RECEIVED kind; failure is ERROR with the parameters untouched (the dispatch itself is stated by Message.ParseFieldsByTag) |
| Message.ParseFieldsOfTag | battleBoats/src/Message.c:93-117 | a payload whose first word is a type's tag gives that type's RECEIVED event with the values its `TAG,%u[,%u[,%u]]` conversion reads stored, one for CHA/ACC/REV, two for SHO, three for RES, however few of them convert |
| Message.ParseFieldsOkOnlyOnTag | battleBoats/src/Message.c:85-122 | no first word, or a first word that is none of the five tags, is never a success |
| Message.ParseFieldsByTag | battleBoats/src/Message.c:85-122 | for every payload: the result is the tag's RECEIVED event with its fields as above when the first word is a known tag, ERROR with the parameters untouched otherwise, and success holds exactly when the tag is known |
| Message.ParseBareTag | battleBoats/src/Message.c:93-97 | `CHA` with no field is a CHA_RECEIVED event that keeps the old parameter, since the `sscanf` result is ignored |
| Message.ParseUnconvertedField | battleBoats/src/Message.c:108-112 | `SHO,x` is a SHO_RECEIVED event with the parameters untouched |
| Message.ParseUnknownTag | battleBoats/src/Message.c:118-122 | the unknown tag `XYZ` is an ERROR |
| Message.ParseRejectsWrongChecksum | battleBoats/src/Message.c:69-83 | a checksum string that is not the exact upper-case rendering (wrong length, lower case, wrong value) gives ERROR |
| Message.ParseFieldsOfPayload | battleBoats/src/Message.c:93-117 | parsing an encoded payload yields the matching RECEIVED kind with the message's 16-bit values stored |
| Message.ParseOfPayload | battleBoats/src/Message.c:67-125 | payload plus its own checksum parses back to the received form of the message |
| Message.Feed | battleBoats/src/Message.c:130-222 | feeding n bytes yields exactly n per-byte events |
| Message.DecodeStep | battleBoats/src/Message.c:130-222 | a `$` always restarts recording a frame holding just `$` with NO_EVENT; a frame within MaxLen − 1 stays within it; an event other than NO_EVENT only comes while recording, on a byte other than `$`, and ends recording; a success is NO_EVENT or a RECEIVED event on the `\n` that completes a frame; a failure is exactly MESSAGE_ERROR over the incoming event |
| Message.Store | battleBoats/src/Message.c:93-117 | the event type is kept; each converted value lands, modulo 2^16, in its 16-bit parameter in order, and the parameters past the converted ones are left as they were |
| Message.FrameOutcome | battleBoats/src/Message.c:167-218 | a completed frame yields a RECEIVED event or exactly MESSAGE_ERROR over the incoming event |
| Message.FeedAppend | battleBoats/src/Message.c:130-222 | feeding a+b is feeding a then b from the state a left |
| Message.FeedRestartsAtDollar | battleBoats/src/Message.c:137-144 | after a `$` the decoder behaves the same whatever state it was in |
| Message.FeedIgnoresNoise | battleBoats/src/Message.c:146-151 | bytes other than `$` while not recording change no state and yield NO_EVENT |
| Message.FeedRecords | battleBoats/src/Message.c:153-157 | bytes other than `$` with no `\n` directly after a `\r` are appended to the buffer, while they fit, each with NO_EVENT |
| Message.FrameOfEncoding | battleBoats/src/Message.c:167-217 | the end-of-frame parse of an encoded message yields its RECEIVED event |
| Message.DecodeEncoding | battleBoats/src/MessageTest.c:25-46 | feeding an encoded message from any decoder state yields NO_EVENT on every byte but the last and the RECEIVED event with its parameters on the last |
| Message.EncodeSplit | battleBoats/src/Message.c:61 | an encoded frame is `$`, a body with no `$` or `\n` ending in `\r`, then `\n` |
| Message.FeedFrame | battleBoats/src/Message.c:167-217 | a `$…\r\n` frame ends recording and yields exactly the frame's parse outcome on its last byte |
| Message.OverflowIsReported | battleBoats/src/Message.c:154-164 | after a `$`, 80 bytes with no `$` and no `\n` directly after a `\r` (a lone `\n` is buffered like any other byte), then any byte but `$`: every byte before it yields NO_EVENT, that byte yields ERROR and recording stops |
| Message.OverflowThenIgnored | battleBoats/src/Message.c:146-164 | with the same over-long frame followed by bytes up to the next `$`: the events are NO_EVENT on every byte but the overflowing one, which is ERROR, so an over-long frame never decodes, and the decoder ends idle |
| Message.FrameWrongChecksum | battleBoats/src/Message.c:186-217 | a frame whose checksum field is not the payload's upper-case checksum yields ERROR |
| Message.DecodeWrongChecksum | battleBoats/src/Message.c:167-217 | feeding such a frame from any state ends with an ERROR event |
| Message.BadChecksumFrame | battleBoats/src/MessageTest.c:48-57 | `$CHA,12345*00\r\n` yields ERROR |
| Message.Decoder.constructor | battleBoats/src/Message.c:132-134 | a fresh decoder is idle with an empty buffer |
| Message.Decoder.Decode | battleBoats/src/Message.c:130-222 | one byte updates buffer, index and recording flag exactly as the per-byte step function says and returns its event |
| Negotiation.Hash | battleBoats/src/Negotiation.c:17-19 | the commitment (s·s) mod PUBLIC_KEY is always below PUBLIC_KEY |
| Negotiation.VerifiedCommitmentIsReduced | battleBoats/src/Negotiation.c:22-24 | a commitment that verifies is below PUBLIC_KEY |
| Negotiation.Verify | battleBoats/src/Negotiation.c:22-24 | a commitment that verifies is below PUBLIC_KEY and equals the hash of the secret |
| Negotiation.HashCollision | battleBoats/src/Negotiation.c:17-24 | PUBLIC_KEY − s is a second secret that verifies against Hash(s) |
| Negotiation.CoinFlip | battleBoats/src/Negotiation.c:28-36 | the shift-and-toggle loop returns HEADS iff popcount(A XOR B) is odd |
| Negotiation.FlipSymmetric | battleBoats/src/Negotiation.c:29 | CoinFlip(A, B) == CoinFlip(B, A) |
| Negotiation.FlipSame | battleBoats/src/Negotiation.c:28-36 | CoinFlip(A, A) is TAILS |
| Negotiation.FlipOneBit | battleBoats/src/Negotiation.c:28-36 | flipping one bit of B flips the outcome |
| Negotiation.FlipOneBitFirst | battleBoats/src/Negotiation.c:28-36 | flipping one bit of A flips the outcome |
| Negotiation.FlipZeroOne | battleBoats/src/Negotiation.c:39-57 | B = 0 and B = 1 give opposite outcomes, so one of them is HEADS |
| Negotiation.HeadsPartner | battleBoats/src/Negotiation.c:39-57 | the value in {0, 1} the search loops return always makes the flip HEADS |
| Negotiation.GenerateBGivenHash | battleBoats/src/Negotiation.c:39-47 | the search returns a b in {0,1} with CoinFlip(hash, b) HEADS; the fallback return 0 is never reached |
| Negotiation.GenerateAGivenB | battleBoats/src/Negotiation.c:50-57 | the search returns an a in {0,1} with CoinFlip(a, B) HEADS |
| Negotiation.NegotiationExamples | battleBoats/src/NegotiationTest.c:20-66 | a secret verifies against its own hash and not a neighbour's; sample flips come out HEADS and TAILS |
| Field.PerBoat.With | battleBoats/src/Field.c:122-140 | setting one boat's life changes that boat's life only |
| Field.SquareBoat | battleBoats/src/Field.c:72-92 | a boat marker maps back to its boat type |
| Field.BoatSquareRoundTrip | battleBoats/src/Field.c:72-92 | boat type → marker → boat type is the identity |
| Field.ResultBoat | battleBoats/src/Field.c:168-218 | a SUNK result names the boat it reports |
| Field.AttackReportsSinking | battleBoats/src/Field.c:159-225 | an attack hits iff the square holds a boat; the result is SUNK iff that boat's last life was taken, and then its life is 0 |
| Field.RepeatedAttackIsHarmless | battleBoats/src/Field.c:220-222 | attacking a square a second time is a MISS that changes nothing |
| Field.KnowledgeMirrorsAttack | battleBoats/src/Field.c:229-268 | the knowledge update marks HIT exactly where the defender's square became HIT, and a reported sinking zeroes the same life on both sides |
| Field.OnBoatCell | battleBoats/src/Field.c:99-120 | the i-th cell walked east or south lies on the boat |
| Field.Origin | battleBoats/src/Field.c:340-341 | the random origin choice keeps every cell of the boat on the grid |
| Field.BoatStates | battleBoats/src/Field.c:271-296 | the bit of each boat is set iff that boat has lives left; high bits are 0 |
| Field.BoatStatesZero | battleBoats/src/Field.c:271-296 | the status byte is 0 iff every boat is sunk |
| Field.Field.GetSquareStatus | battleBoats/src/Field.c:42-49 | out of range gives INVALID; in range the grid square |
| Field.Field.SetSquareStatus | battleBoats/src/Field.c:52-62 | returns the old status; in range writes only that square; out of range changes nothing |
| Field.Field.AddBoat | battleBoats/src/Field.c:66-143 | succeeds iff every cell is on the grid and EMPTY; then exactly those cells get the marker and the boat's life becomes its length, otherwise nothing changes |
| Field.Field.RegisterEnemyAttack | battleBoats/src/Field.c:147-226 | out of range: INVALID, MISS, no change; in range: returns the prior square and applies the attack rule to that square and the lives only |
| Field.Field.UpdateKnowledge | battleBoats/src/Field.c:229-268 | returns the old square; sets it EMPTY/HIT from the result and zeroes exactly the sunk boat's life; other squares unchanged |
| Field.Field.GetBoatStates | battleBoats/src/Field.c:271-296 | a boat's bit is set iff its life is positive |
| Field.Field.AIDecideGuess | battleBoats/src/Field.c:353-375 | returns the first UNKNOWN square in row-major order, or (0xFF, 0xFF) when none is left |
| Field.Field.TryPlace | battleBoats/src/Field.c:343-346 | one attempt: on success the boat lies whole on the grid from the drawn origin with its own marker and its life is its size, otherwise nothing changes; occupied squares are never written, so every boat already laid stays laid |
| Field.Field.PlaceBoat | battleBoats/src/Field.c:313-347 | the retry loop for one boat consumes draws in order until an attempt succeeds, and then the boat lies whole on the grid; it fails only when the draws run out, with the lives unchanged; boats already laid stay laid |
| Field.Field.AIPlaceAllBoats | battleBoats/src/Field.c:300-350 | on success each of the four boats, small to huge, lies whole on the grid in a line from its returned placement with its own marker, and every boat has its full lives; occupied squares are never overwritten and only boat markers are written |
| Field.FieldInit | battleBoats/src/Field.c:17-39 | own squares EMPTY, opponent squares UNKNOWN, own lives 0, opponent lives the boat sizes |
| Agent.HonestNegotiationAgrees | battleBoats/src/Agent.c:44-97 | an honest CHA/ACC/REV exchange leaves both agents with the same A and B and exactly one of them attacking |
| Agent.CheatingChallengerAttacks | battleBoats/src/Agent.c:72-83 | with cheating on, the challenger always moves to ATTACKING on ACC |
| Agent.CheatingRevealIsRejected | battleBoats/src/Agent.c:87-93 | a cheating challenger's substituted A fails an honest accepter's check (hash above 1), which goes to END_SCREEN |
| Agent.CheatingAccepterCanDefend | battleBoats/src/Agent.c:56-68 | the cheating accepter's B can still leave it defending |
| Agent.ResetReturnsToStart | battleBoats/src/Agent.c:99-115 | RESET in ATTACKING/DEFENDING/END_SCREEN returns to START with turn 0 and fields reinitialised; elsewhere nothing changes; never a message |
| Agent.NoGameplayStates | battleBoats/src/Agent.c:44-120 | the agent never enters WAITING_TO_SEND or SETUP_BOATS |
| Agent.StepSendsValid | battleBoats/src/Agent.c:44-120 | the agent only ever sends NONE, CHA, ACC or REV, and those it sends are encodable |
| Agent.Step | battleBoats/src/Agent.c:44-121 | a reinitialisation happens exactly on a reset button in ATTACKING, DEFENDING or END_SCREEN, and sets the turn number to 0 while every other step keeps it; a step that keeps the state changes no data and sends NONE; only NONE, CHA, ACC or REV go out; a REV carries the stored secret A, whose hash is then the stored hashA |
| Agent.Agent.GetState | battleBoats/src/Agent.c:36-38 | returns the current state; with SetState, reading back gives what was set |
| Agent.Agent.Init | battleBoats/src/Agent.c:30-34 | state START, turn 0, both fields reinitialised, stored numbers kept |
| Agent.Agent.SetState | battleBoats/src/Agent.c:36-42 | the state read back is the state set; nothing else changes |
| Agent.Agent.Run | battleBoats/src/Agent.c:44-121 | the new state, stored numbers and reply are those of the step function; the fields change only on reset |
| Lab10.TransmitsPending | battleBoats/src/Lab10_main.c:151-163 | an n-byte message goes out in order in n calls; call n+1 raises MESSAGE_SENT and returns to IDLE |
| Lab10.IdleStaysIdle | battleBoats/src/Lab10_main.c:148 | an idle transmitter emits nothing and stays idle |
| Lab10.SendStep | battleBoats/src/Lab10_main.c:145-164 | an idle transmitter does nothing; MESSAGE_SENT is raised exactly when sending with nothing left, and then the transmitter is IDLE; a byte sent is the head of the pending bytes and the rest stay pending while SENDING |
| Lab10.Board.constructor | battleBoats/src/Lab10_main.c:86-101 | starts IDLE with no event and an idle decoder |
| Lab10.Board.StartSendingMessage | battleBoats/src/Lab10_main.c:116-137 | in IDLE, the encoded message becomes the pending bytes and the state SENDING; in SENDING nothing changes |
| Lab10.Board.WriteString | battleBoats/src/Message.c:61 | writing a frame into the buffer leaves it as a NUL-terminated C string of that frame |
| Lab10.Board.SendChar | battleBoats/src/Lab10_main.c:145-164 | one call does what the transmitter step says: emit the next byte, or at the NUL raise MESSAGE_SENT and go IDLE |
| Lab10.Board.FeedLine | battleBoats/src/Lab10_main.c:176-179 | the bytes of the line up to its NUL are fed to the decoder in order |
| Lab10.Board.ReceiveMessage | battleBoats/src/Lab10_main.c:172-189 | a complete UART line is fed first, else a complete serial line, and that line's flag is cleared |
| Lab10.Board.MainStep | battleBoats/src/Lab10_main.c:284-300 | a pending event runs the agent once (new agent data as the agent's step function says), starts a send only for a reply other than NONE and only when idle, and is consumed; the boards are reset to fresh on a reset step and untouched otherwise; the decoder and the two receive lines are never touched; with no event pending nothing on the board, the buffer, the agent or its fields changes |
| Lab10.Board.DeliverEvent | battleBoats/src/Lab10_main.c:287-298 | the pending-event branch of the main loop: the same new state as MainStep states for that case |
| PcTool.BeefHash | battleBoats/BattleBoatsPC.py:46-47 | the PC hash is always below 0xBEEF |
| PcTool.BeefHashMatchesBoard | battleBoats/BattleBoatsPC.py:46-47 | on 16-bit secrets the PC hash equals the board's hash and verifies on the board |
| PcTool.Parity | battleBoats/BattleBoatsPC.py:50-51 | the parity is 0 or 1 |
| PcTool.ParityIsPopcountLow16 | battleBoats/BattleBoatsPC.py:50-51 | the parity is the popcount of the low 16 bits, mod 2 |
| PcTool.ParityMatchesFlip | battleBoats/BattleBoatsPC.py:50-51 | PC parity of A XOR B is 1 iff the board's coin flip is HEADS |
| PcTool.Checksum | battleBoats/BattleBoatsPC.py:282-286 | the loop returns the XOR of all character codes |
| PcTool.XorAllAppend | battleBoats/BattleBoatsPC.py:282-286 | checksum of a concatenation is the XOR of the two checksums |
| PcTool.XorAllMatchesBoard | battleBoats/BattleBoatsPC.py:282-286 | on byte strings the PC checksum equals the board checksum |
| PcTool.Hex02Byte | battleBoats/BattleBoatsPC.py:291 | `{:02X}` of a byte equals the board's `%02X` |
| PcTool.EncodeMessage | battleBoats/BattleBoatsPC.py:288-292 | the frame starts with `$` and ends with `\n` with no `\r` before it |
| PcTool.CheckForLoopback | battleBoats/BattleBoatsPC.py:127-144 | the loop returns the loopback predicate over the shorter field list, and False when no previous message exists |
| PcTool.OwnMessageIsLoopback | battleBoats/BattleBoatsPC.py:127-144 | the message just sent is recognised as its own loopback |
| PcTool.DifferentMessageIsNotLoopback | battleBoats/BattleBoatsPC.py:138-141 | a message differing in any shared field position is not a loopback |
| PcTool.PrevFieldsOfEncoding | battleBoats/BattleBoatsPC.py:130-133 | stripping `$` and the `*` suffix from an encoded message gives back its fields |
| PcTool.PcPayloadIsBoardPayload | battleBoats/BattleBoatsPC.py:288-290 | the PC payload and checksum of a message equal the board's |
| PcTool.PcFrameNeverCompletes | battleBoats/BattleBoatsPC.py:288-292 | a PC frame fed to the board decoder yields NO_EVENT on every byte and leaves it recording |
| PcTool.CrlfFrameIsBoardFrame | battleBoats/BattleBoatsPC.py:288-292 | with `\r\n` the PC frame equals the board's encoding |
| PcTool.CrlfFrameIsReceived | battleBoats/src/Message.c:167-217 | the `\r\n` PC frame is decoded by the board into the message sent |
| ListContract.NewList | depthFirstSearch/List.c:46-54 | a new list is empty with an undefined cursor |
| ListContract.MoveFrontPlacesCursor | breadthFirstSearch/List.h:69-72 | non-empty: cursor at index 0 on the front element; empty: nothing changes |
| ListContract.SetOverwritesCursor | breadthFirstSearch/List.h:65-67 | only the cursor element becomes x; length and cursor unchanged |
| ListContract.SplitAtFront | breadthFirstSearch/List.h:142-146 | with the cursor on the front, split removes nothing |
| ListContract.InsertBeforeKeepsCursorElement | depthFirstSearch/List.c:266-287 | the new element sits just before the cursor element, which stays under the cursor; length grows by 1 |
| ListContract.DeleteUndoesInsertBefore | depthFirstSearch/List.c:266-287 | deleting the inserted element restores the sequence |
| ListContract.DeleteUndoesInsertAfter | depthFirstSearch/List.c:291-320 | deleting the element inserted after the cursor restores the sequence |
| ListContract.DeleteFrontUndoesPrepend | depthFirstSearch/List.c:234-247 | deleteFront after prepend restores the list and cursor |
| ListContract.DeleteBackUndoesAppend | depthFirstSearch/List.c:252-262 | deleteBack after append restores the list and cursor |
| ListContract.JoinUndoesSplit | depthFirstSearch/List.c:454-473 | removed ++ rest is the old sequence, the removed part has `position` elements, and the cursor element is kept |
| ListContract.CopyEquals | breadthFirstSearch/List.h:130-134 | a copy equals the original with an undefined cursor |
| ListContract.MoveNextWalks | depthFirstSearch/List.c:218-229 | k moveNext steps advance the cursor by k, falling off (-1) exactly at the end |
| CursorList.FrontOf | depthFirstSearch/List.c:92-102 | an error exit exactly on an empty list; otherwise the first element |
| CursorList.BackOf | depthFirstSearch/List.c:106-116 | an error exit exactly on an empty list; otherwise the last element |
| CursorList.GetOf | depthFirstSearch/List.c:120-130 | an error exit exactly on an empty list; otherwise the cursor element |
| CursorList.SetOf | depthFirstSearch/List.c:163-174 | an error exit exactly on an empty list or at position 0; otherwise the cursor element becomes x, every other element, the length and the cursor are kept |
| CursorList.MoveFrontOf | depthFirstSearch/List.c:179-184 | position always becomes 0, items unchanged |
| CursorList.MoveBackOf | depthFirstSearch/List.c:189-194 | elements kept; a non-empty list gets the cursor on its last element with a matching position; an empty list is unchanged |
| CursorList.MovePrevOf | depthFirstSearch/List.c:200-211 | elements kept; no cursor: nothing changes; otherwise the cursor moves one towards the front, falling off to NULL at the front, with a matching position |
| CursorList.MoveNextOf | depthFirstSearch/List.c:218-229 | elements kept; no cursor: nothing changes; otherwise the cursor moves one towards the back, falling off to NULL at the back, with a matching position |
| CursorList.PrependOf | depthFirstSearch/List.c:234-247 | the element is put first |
| CursorList.AppendOf | depthFirstSearch/List.c:252-262 | the element is put last, cursor and position unchanged |
| CursorList.InsertBeforeOf | depthFirstSearch/List.c:266-287 | an error exit exactly at position −1 or on an empty list; otherwise x sits just before the cursor element, which keeps the cursor, and the elements are the old ones plus x |
| CursorList.InsertAfterOf | depthFirstSearch/List.c:291-320 | x sits just after the cursor element, the cursor stays on its element, and the elements are the old ones plus x |
| CursorList.DeleteFrontOf | depthFirstSearch/List.c:324-348 | an error exit exactly on an empty list; otherwise the first element is dropped |
| CursorList.DeleteBackOf | depthFirstSearch/List.c:352-371 | an error exit exactly on an empty list |
| CursorList.DeleteOf | depthFirstSearch/List.c:375-397 | an error exit exactly on an empty list or at position −1; otherwise the cursor element is removed (the elements are the rest), and the cursor becomes NULL with position −1 |
| CursorList.ClearOf | depthFirstSearch/List.c:155-159 | the list becomes empty |
| CursorList.JoinOf | depthFirstSearch/List.c:437-446 | A followed by B with an undefined cursor |
| CursorList.SplitOf | depthFirstSearch/List.c:454-473 | removed ++ rest is the old sequence |
| CursorList.CopyOf | depthFirstSearch/List.c:425-431 | the copy has as many elements as the original, no cursor and position −1 |
| CursorList.MovesMatchContract | breadthFirstSearch/List.h:69-90 | the four cursor moves as written agree with the contract (moveFront on a non-empty list) |
| CursorList.InsertsMatchContract | breadthFirstSearch/List.h:92-108 | prepend, append, insertBefore and insertAfter agree with the contract |
| CursorList.DeletesMatchContract | breadthFirstSearch/List.h:110-120 | deleteFront, deleteBack and delete agree with the contract |
| CursorList.ClearAndJoinMatchContract | breadthFirstSearch/List.h:61-63 | clear gives the empty list and join agrees with the contract |
| CursorList.SetAndSplitMatchContractAwayFromFront | depthFirstSearch/List.c:163-174 | set and split agree with the contract whenever the cursor is not at the front |
| CursorList.CopyCorrectIffConstant | depthFirstSearch/List.c:425-431 | the copy equals the original iff every element equals the front |
| CursorList.MoveFrontOnEmptySetsPosition | depthFirstSearch/List.c:179-184 | moveFront on an empty list sets position 0 with no cursor element, unlike the contract |
| CursorList.SetRejectsFront | depthFirstSearch/List.c:168-170 | set with the cursor at the front exits with an error, while the contract overwrites it |
| CursorList.CopyRepeatsFront | depthFirstSearch/List.c:427-428 | copying (1, 2) gives (1, 1), which is not equal |
| CursorList.SplitRejectsFront | depthFirstSearch/List.c:460-462 | split with the cursor at the front exits with an error, while the contract removes nothing |
| CursorList.List.constructor | depthFirstSearch/List.c:46-54 | a new list is the empty state |
| CursorList.List.Length | depthFirstSearch/List.c:70-76 | the number of elements |
| CursorList.List.Position | depthFirstSearch/List.c:81-88 | the stored position |
| CursorList.List.Set | depthFirstSearch/List.c:163-174 | the state change or error exit is that of the set step |
| CursorList.List.MoveFront | depthFirstSearch/List.c:179-184 | state becomes the moveFront step of the old state |
| CursorList.List.MoveBack | depthFirstSearch/List.c:189-194 | state becomes the moveBack step |
| CursorList.List.MovePrev | depthFirstSearch/List.c:200-211 | state becomes the movePrev step |
| CursorList.List.MoveNext | depthFirstSearch/List.c:218-229 | state becomes the moveNext step |
| CursorList.List.Prepend | depthFirstSearch/List.c:234-247 | state becomes the prepend step |
| CursorList.List.Append | depthFirstSearch/List.c:252-262 | state becomes the append step |
| CursorList.List.InsertBefore | depthFirstSearch/List.c:266-287 | state change or error exit of the insertBefore step |
| CursorList.List.InsertAfter | depthFirstSearch/List.c:291-320 | state becomes the insertAfter step |
| CursorList.List.DeleteFront | depthFirstSearch/List.c:324-348 | state change or error exit of the deleteFront step |
| CursorList.List.DeleteBack | depthFirstSearch/List.c:352-371 | state change or error exit of the deleteBack step |
| CursorList.List.Delete | depthFirstSearch/List.c:375-397 | state change or error exit of the delete step |
| CursorList.List.Clear | depthFirstSearch/List.c:155-159 | the repeated deleteFront loop leaves the empty list |
| CursorList.List.Equals | depthFirstSearch/List.c:135-149 | true iff same length and pairwise equal elements |
| CursorList.List.CopyList | depthFirstSearch/List.c:425-431 | a fresh list holding what the loop as written appends |
| CursorList.List.Split | depthFirstSearch/List.c:454-473 | on success the list keeps the rest and the fresh list holds the removed prefix; on error nothing changes |
| CursorList.Join | depthFirstSearch/List.c:437-446 | a fresh list A ++ B with an undefined cursor, A and B unchanged |
| Graph.PathOf | breadthFirstSearch/Graph.c:192-199 | the parent-link path ends at u when u is the source or has a parent, else at NIL |
| Graph.TreePathIsPath | breadthFirstSearch/Graph.c:297-311 | the parent path from s to a discovered v is a graph path of length distance[v] + 1 |
| Graph.PathsAreNoShorter | breadthFirstSearch/Graph.h:49-57 | every graph path from s reaches a discovered vertex whose distance is at most its length − 1 |
| Graph.DistanceIsShortest | breadthFirstSearch/Graph.h:49-57 | BFS distance is the length of a shortest path, INF exactly for unreachable vertices (path [NIL]) |
| Graph.InitialInv | breadthFirstSearch/Graph.c:284-296 | the queue holding only s satisfies the BFS invariant |
| Graph.DequeueStep | breadthFirstSearch/Graph.c:297-299 | taking the front vertex starts a scan that keeps the invariant |
| Graph.DiscoverStep | breadthFirstSearch/Graph.c:302-308 | discovering a white neighbour (grey, distance + 1, parent, enqueue) keeps the invariant |
| Graph.FinishStep | breadthFirstSearch/Graph.c:310 | blackening the scanned vertex restores the loop invariant |
| Graph.FinalStep | breadthFirstSearch/Graph.c:297-311 | at an empty queue every neighbour of a discovered vertex is discovered; colours are black or white |
| Graph.FirstAtLeast | breadthFirstSearch/Graph.c:259-263 | the insertion point is after all smaller elements and at the first element ≥ v |
| Graph.InsertSortedKeepsSorted | breadthFirstSearch/Graph.c:259-268 | sorted insertion adds exactly v and keeps a sorted list sorted |
| Graph.EdgeAddedIsSymmetric | breadthFirstSearch/Graph.c:238-240 | v is added to adj[u] and u to adj[v]; other lists unchanged; two entries more |
| Graph.InsertInOrder | breadthFirstSearch/Graph.c:259-268 | the cursor walk inserts at the sorted position or appends |
| Graph.Graph.constructor | breadthFirstSearch/Graph.c:40-66 | order n, no edges, source NIL, every vertex white with NIL parent and INF distance |
| Graph.Graph.GetOrder | breadthFirstSearch/Graph.c:90-96 | the number of vertices |
| Graph.Graph.GetNumEdges | breadthFirstSearch/Graph.c:100-106 | the number of edges added |
| Graph.Graph.GetNumArcs | breadthFirstSearch/Graph.c:111-118 | always twice the number of edges |
| Graph.Graph.GetSource | breadthFirstSearch/Graph.c:124-134 | NIL or a vertex |
| Graph.Graph.GetParent | breadthFirstSearch/Graph.c:140-155 | error exit iff u out of range; NIL before BFS; a parent is a discovered neighbour one step closer |
| Graph.Graph.GetDist | breadthFirstSearch/Graph.c:160-174 | error exit iff u out of range; INF before BFS; a distance d ≥ 0 has a graph path from the source of length d + 1 |
| Graph.Graph.GetPath | breadthFirstSearch/Graph.c:180-200 | appends the parent-link path from the source to u (NIL when unreachable or before BFS) |
| Graph.Graph.MakeNull | breadthFirstSearch/Graph.c:207-220 | all lists empty, no edges, source NIL, every vertex reset |
| Graph.Graph.AddEdge | breadthFirstSearch/Graph.c:225-241 | in range: v appended to adj[u], u to adj[v], one more edge; out of range: error exit, no change |
| Graph.Graph.AddArc | breadthFirstSearch/Graph.c:246-271 | in range: v inserted in adj[u] at the sorted position, one more edge; out of range: error exit, no change |
| Graph.Graph.Discover | breadthFirstSearch/Graph.c:304-306 | y becomes grey with distance[x] + 1 and parent x |
| Graph.Graph.ResetVertices | breadthFirstSearch/Graph.c:284-288 | every vertex white, INF, NIL |
| Graph.Graph.BFS | breadthFirstSearch/Graph.c:275-313 | invalid source: error exit; otherwise source = s and the arrays form a BFS tree with shortest distances, undiscovered vertices INF/NIL/white |
| Buttons.Rule | toasterOven/src/Buttons.c:123-135 | an event iff the sample differs from the level and the counter is 0 (rise iff the sample is 1), then level = sample and counter = 4; a blocked change keeps both; no change counts down to 0 |
| Buttons.RuleKeepsCountInRange | toasterOven/src/Buttons.c:123-135 | the counter stays in 0..4 |
| Buttons.CountingIsQuiet | toasterOven/src/Buttons.c:123-135 | while the counter is positive no event is reported |
| Buttons.QuietAfterEvent | toasterOven/src/Buttons.c:41-46 | after an event the next 4 calls for that button report nothing |
| Buttons.SettledChangeIsReported | toasterOven/src/Buttons.c:123-131 | a change on a settled button is reported at once, as rise or fall |
| Buttons.PrevUpToBits | toasterOven/src/Buttons.c:119-131 | after the loop each button's level bit is set by its own rule, the other bits are untouched |
| Buttons.EventsAreFlags | toasterOven/src/Buttons.c:114-139 | the event byte is the OR of each button's event flag |
| Buttons.EventsBits | toasterOven/src/Buttons.c:60-69 | bit 2i is set iff button i rose, bit 2i+1 iff it fell |
| Buttons.NoChangeNoEvent | toasterOven/src/Buttons.c:100-102 | a sample equal to the previous levels gives BUTTON_EVENT_NONE |
| Buttons.Debouncer.constructor | toasterOven/src/Buttons.c:36-37 | all levels low, all counters 0 |
| Buttons.Debouncer.CheckEvents | toasterOven/src/Buttons.c:114-139 | the event byte, the new levels and the new counters are those of the per-button rule |
| Buttons.Debouncer.HandleButton | toasterOven/src/Buttons.c:119-135 | one button's rule: its event flag is OR-ed in, its level bit and counter updated, nothing else |
| Oven.ModeOfNumber | toasterOven/src/Lab08_main.c:40-44 | the mode with the given enum number |
| Oven.ModesCycle | toasterOven/src/Lab08_main.c:140-145 | BAKE→TOAST→BROIL→BAKE; a change of mode always changes it and three return to the start |
| Oven.Toggled | toasterOven/src/Lab08_main.c:149-156 | TIME and TEMP swap; the result is never NONE |
| Oven.KnobCookTime | toasterOven/src/Lab08_main.c:326 | the floor of adc·300/1023, 16-bit, at most 300 for a 10-bit reading |
| Oven.KnobTemp | toasterOven/src/Lab08_main.c:328-329 | 300 + floor(adc·250/1023), capped at 555 (cap reached iff adc·250 ≥ 255·1023); at most 550 for a 10-bit reading |
| Oven.KnobIsMonotone | toasterOven/src/Lab08_main.c:326-329 | turning the knob up never lowers the set time or temperature |
| Oven.TargetOf | toasterOven/src/Lab08_main.c:448-458 | BAKE with TEMP sets the temperature, BAKE with TIME or any other mode sets the time |
| Oven.KnobHandlersAgree | toasterOven/src/Lab08_main.c:325-330 | the main-loop choice and the ADC-callback choice of knob target agree |
| Oven.LedsOn | toasterOven/src/Lab08_main.c:135 | ledsOn is a byte, and equals ⌊8·cookTime/setCookTime⌋, at most 8, while no more time is left than was set |
| Oven.ProgressMask | toasterOven/src/Lab08_main.c:129-138 | defined exactly when the shift count is not negative (no time set, or ledsOn, the truncated byte, at most 8); 0 when setCookTime or cookTime is 0, 0xFF when they are equal |
| Oven.ProgressMaskIsTopLeds | toasterOven/src/Lab08_main.c:135-136 | the mask is the top ⌊8·cookTime/setCookTime⌋ bits of a byte |
| Oven.ProgressMaskIsMonotone | toasterOven/src/Lab08_main.c:135-136 | less time left never lights more LEDs |
| Oven.InitialOven | toasterOven/src/Lab08_main.c:303-313 | SETUP, BAKE, TIME, 60 s at 350°, consistent |
| Oven.ChangeModeOf | toasterOven/src/Lab08_main.c:140-145 | the mode changes, state SETUP, select TIME; consistency is kept |
| Oven.ToggleSelectOf | toasterOven/src/Lab08_main.c:146-158 | changes anything iff BAKE and SETUP, and then only the selector |
| Oven.ToggleCookingOf | toasterOven/src/Lab08_main.c:161-168 | COOKING iff it was SETUP, else SETUP; only the state changes |
| Oven.ToggleCookingSkipsSetUp | toasterOven/src/Lab08_main.c:161-168 | toggling straight into COOKING from the start-up values with a set time of 1 makes ledsOn 224 and the LED shift undefined |
| Oven.KnobOf | toasterOven/src/Lab08_main.c:448-460 | outside SETUP nothing changes; in SETUP only the set time or temperature changes, to the knob value, and the event flag is raised |
| Oven.SmStep | toasterOven/src/Lab08_main.c:241-290 | no flag: no change; SETUP reloads time and temperature, clears the flag and changes nothing else; COOKING with time left redraws the LEDs; SELECTOR changes mode and re-raises the flag; RESET starts cooking from the set time (at least 1) and CookTemp with all LEDs lit |
| Oven.SmStepKeepsGood | toasterOven/src/Lab08_main.c:241-290 | the state machine keeps the oven consistent (cooking time plus elapsed time is the set time) |
| Oven.ButtonsOf | toasterOven/src/Lab08_main.c:90-125 | a long button-4 release resets, a long button-3 release changes the selector, a short button-3 release toggles the selection and raises the flag; nothing else changes |
| Oven.Button3Of | toasterOven/src/Lab08_main.c:93-109 | only the state, selector and event flag can change, and button 4's hold state is kept; no release: the oven is unchanged; a release raises the flag and clears button 3's hold; a long release changes to SELECTOR_CHANGE_PENDING; a short one toggles the selection as in BAKE/SETUP; a press alone starts holding |
| Oven.Button4Of | toasterOven/src/Lab08_main.c:111-122 | button 3's hold state is kept; a long release sets RESET_PENDING and raises the flag and nothing else; otherwise the oven is unchanged; a release stops holding; a press alone starts holding |
| Oven.TickOf | toasterOven/src/Lab08_main.c:366-393 | the sub-second counter wraps at 10; only the tenth tick of a cooking oven with time left changes the oven or LEDs; settings kept |
| Oven.TicksOf | toasterOven/src/Lab08_main.c:366-393 | after n ticks the sub-second counter is (ticks + n) mod 10; the mode, selector, set time and set temperature are kept; the cooking invariant is kept |
| Oven.TickKeepsGood | toasterOven/src/Lab08_main.c:374-391 | the countdown keeps the oven consistent |
| Oven.CountingDown | toasterOven/src/Lab08_main.c:374-382 | after n ticks short of the end the oven is still cooking with ⌊(ticks+n)/10⌋ seconds counted down |
| Oven.CookingLasts | toasterOven/src/Lab08_main.c:383-390 | cooking lasts exactly 10·cookTime − ticks ticks and then the oven is in SETUP with the set time and temperature restored, LEDs off |
| Oven.Controller.constructor | toasterOven/src/Lab08_main.c:72-79 | the initial oven record and zeroed statics |
| Oven.Controller.ChangeMode | toasterOven/src/Lab08_main.c:140-145 | the record becomes the changeMode step |
| Oven.Controller.ToggleSelect | toasterOven/src/Lab08_main.c:146-158 | the record becomes the toggleSelect step |
| Oven.Controller.ToggleCooking | toasterOven/src/Lab08_main.c:161-168 | the record becomes the toggleCooking step |
| Oven.Controller.UpdateLedProgressBar | toasterOven/src/Lab08_main.c:129-138 | the LED byte becomes the progress mask, whenever the shift count is not negative |
| Oven.Controller.CheckTimerEvents | toasterOven/src/Lab08_main.c:90-125 | the debounced event byte is returned and the record and hold counters follow the button rules |
| Oven.Controller.HandleButton3 | toasterOven/src/Lab08_main.c:93-109 | the button-3 half of the button rules |
| Oven.Controller.HandleButton4 | toasterOven/src/Lab08_main.c:111-122 | the button-4 half of the button rules |
| Oven.Controller.RunOvenSM | toasterOven/src/Lab08_main.c:241-290 | record and LEDs become the state-machine step |
| Oven.Controller.Tick | toasterOven/src/Lab08_main.c:366-393 | sets the timer flag, counts held buttons (uint8 wrap) and applies the countdown step |
| Oven.Controller.CountHolds | toasterOven/src/Lab08_main.c:370-371 | each pressed button's hold count goes up by one, wrapping at 256 |
| Oven.Controller.CountSecond | toasterOven/src/Lab08_main.c:374-391 | the countdown step, keeping consistency |
| Oven.Controller.ConversionComplete | toasterOven/src/Lab08_main.c:442-462 | a reading whose top 8 of 12 bits changed is stored and applied by the knob rule; otherwise nothing changes |
| Oven.Controller.OutOfWindow | toasterOven/src/Lab08_main.c:489-496 | a reading more than 2 away from the last one is stored and raises both flags |
| Oven.Controller.ApplyKnob | toasterOven/src/Lab08_main.c:322-333 | a pending knob update is cleared and applied by the knob rule |
| Oven.Controller.ServiceEvents | toasterOven/src/Lab08_main.c:337-345 | the timer flag raises the event flag, the state machine runs once, and both flags end cleared |
| Oven.LoopOf | toasterOven/src/Lab08_main.c:319-346 | a pass of the loop, as buttons then knob then tick then the state machine, keeps the cooking invariant, leaves the event and ADC flags clear and the LED byte a byte, takes its hold state from the buttons, and changes nothing when no button was released or pressed, no ADC update or tick is pending and the state machine is not woken |
| Oven.PendingOf | toasterOven/src/Lab08_main.c:322-340 | the ADC and timer blocks of a pass keep the cooking invariant and clear the ADC flag; with no ADC update, no event flag and no tick they change nothing |
| Oven.Controller.LoopStep | toasterOven/src/Lab08_main.c:319-346 | one pass of the loop: the events are the debouncer's, the oven record, hold state and LED byte end as Oven.LoopOf of the old ones with those events, the latest ADC value and the timer flag; the timer flag is cleared and the ADC and tick statics are untouched |

## Left out

- Hardware and I/O:
  - OLED drawing (`updateOvenOLED`, the "Fatal Transmission Error!" screen);
  - `LEDs_Set`, `printf` and trace printing;
  - `HAL_Delay`, UART/DMA and interrupt plumbing;
  - `setup`, `Buttons_Init`, `BUTTON_STATES()`.
  The LED byte is kept as a field of the oven controller. The button register and ADC readings are parameters.
- The BattleBoats timer-3 handler (button-to-event mapping, reseeding) and the serial/UART line assembly into the receive buffers are interrupt plumbing. The completed lines are fields of `Lab10.Board`.
- Randomness: `rand()`, `srand` and the free-running timer. Draws are parameters of `Agent.Agent.Run` and `Field.Field.AIPlaceAllBoats`.
- Field.Field.AIPlaceAllBoats: tries a finite sequence of draws and reports failure when they run out. The source retries forever; its termination needs a fairness assumption that is not modelled.
- Field.Field.UpdateKnowledge: requires in-range coordinates. The source has no bounds check and would write outside the grid.
- Message.Decoder.Decode: the NUL bytes the source writes into the buffer are modelled by cutting the stored text, not by writing the bytes. When the `*` split fails, the buffer contents left behind are not modelled.
- Message.Store: a field scanned by `%u` is stored modulo 2^16 into the 16-bit field. For a decimal field of 2^32 or more the C standard leaves the conversion undefined (C11 7.21.6.2, paragraph 10); C libraries whose `sscanf` goes through `strtoul` saturate it to 0xFFFFFFFF, which reads back as 0xFFFF, whereas the model stores the value modulo 2^16. The spill of the 32-bit store into the neighbouring field is not modelled either; it is platform dependent.
- Negotiation.Hash: `secret * secret` is computed on unbounded integers, because the width of NegotiationData is not part of this model.
- Agent: there is no gameplay phase (SHO/RES handling, turns, WAITING_TO_SEND), because Agent.c has none.
- depthFirstSearch/List.c, `insertAfter` (List.c:315-317): never sets the next node's `prev` link. Node links are not modelled, so this corruption is not represented.
- depthFirstSearch/List.c, `deleteBack` (List.c:360): on a one-element list it assigns `back` twice and never clears `front`. This stale pointer is not represented either.
- CursorList.List.Set, CursorList.List.InsertBefore, CursorList.List.InsertAfter and CursorList.List.Delete require a cursor element wherever the source dereferences the cursor. The source dereferences NULL there, which is undefined behaviour.
- CursorList.GetOf: requires a cursor element on a non-empty list, for the same reason.
- `freeList`, `freeGraph`, `printList`, `printGraph` and breadthFirstSearch/FindPath.c: memory and stream I/O.
- Graph adjacency lists are sequences of the list contract. The per-list cursor that the source's scan moves is not kept.
- Graph.Graph.BFS: its inner loop is split into helper methods. The queue is a list value.
- Oven.ProgressMask, Oven.SmStep, Oven.Controller.RunOvenSM and Oven.Controller.UpdateLedProgressBar: require that the LED shift `0xFF << (8 - ledsOn)` is defined. When a time is set, ledsOn (8·cookTime/setCookTime truncated to a byte) must be at most 8, and in the state machine this is asked of COOKING only. Otherwise the shift amount is negative, which is undefined in C. A cookTime of 32·setCookTime, whose ledsOn wraps to 0, is allowed.
- Oven.Controller: the TIM2 handler and the two ADC callbacks (toasterOven/src/Lab08_main.c:358-503) are methods, each an atomic step between whole passes of the main loop (Oven.Controller.LoopStep). An interrupt that arrives inside a pass is not modelled, nor is its effect on main's read-modify-write of the volatile oven record. For example, runOvenSM's COOKING branch (Lab08_main.c:252-261) can race with the TIM2 countdown (Lab08_main.c:378-390).
- Oven.Controller.ToggleCooking: does not promise to keep the oven consistent. `Oven.ToggleCookingSkipsSetUp` shows it cannot; the source never calls it.
- Oven: the unused `buttonEvent` field of the oven record is not modelled.

## Findings

| source | as written | input that shows it | evidently intended | confidence | as-written member | corrected member |
|---|---|---|---|---|---|---|
| depthFirstSearch/List.c:179-184 | `moveFront` tests `!(length < 0)`, always true, so an empty list gets position 0 and no cursor | moveFront on an empty list | nothing happens on an empty list (List.h:69-72) | not executed | CursorList.MoveFrontOnEmptySetsPosition | ListContract.MoveFrontPlacesCursor |
| depthFirstSearch/List.c:168-170 | `set` exits when the position is 0 | set(L, x) with the cursor on the front | overwrite the cursor element for any defined cursor (List.h:65-67) | not executed | CursorList.SetRejectsFront | ListContract.SetOverwritesCursor |
| depthFirstSearch/List.c:427-428 | `copyList` appends `L->front->data` on every pass | copyList of (1, 2) gives (1, 1) | append each node's data (List.h:130-134) | not executed | CursorList.CopyRepeatsFront | ListContract.CopyEquals |
| depthFirstSearch/List.c:460-462 | `split` exits when the position is 0 | split with the cursor on the front | remove nothing and return an empty list (List.h:142-146) | not executed | CursorList.SplitRejectsFront | ListContract.SplitAtFront |
| battleBoats/BattleBoatsPC.py:291 | the PC frame ends in `\n` only | any message the PC tool encodes, fed to Message_Decode | end frames with `\r\n` as MESSAGE_TEMPLATE does (Message.h:110) | not executed | PcTool.PcFrameNeverCompletes | PcTool.CrlfFrameIsReceived |
