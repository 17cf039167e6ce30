# EByte CAN-over-Ethernet to SLCAN bridge — verified model

This project models the core of a Go bridge. The bridge connects to an EByte CAN-to-Ethernet adapter. It reads the adapter's fixed 13-byte binary CAN frames and re-publishes each frame as an SLCAN text line (for example `t1232ABCD\r`) to every TCP client that has opened the bus. The model has four parts:

- `EByte` (`ebyte_frame.dfy`): the 13-byte adapter frame.
  - Layout: a header byte carrying the DLC, remote and extended bits; a big-endian 32-bit identifier; 8 data bytes.
  - It has a decoder and an encoder, both with exact error conditions.
  - Proved: both round trips.
- `SlcanFrame` (`slcan_frame.dfy`): the SLCAN line of a frame.
  - Layout: a type letter, a masked fixed-width uppercase hex identifier, a DLC character, hex payload pairs, then `\r`.
  - `EncodeFrame` builds the line step by step, as the source's `strings.Builder` does, and is proved equal to the specification function `Line`.
  - Lemmas state the line's layout, length, character set and terminator.
- `SlcanCommand` (`slcan_command.dfy`): classification of client command lines as Open, Close or Unknown.
- `App` (`app_bridge.dfy`): the bridge's stream logic, without sockets, goroutines and locks.
  - `splitSLCAN`, the line splitter, and the scanner that uses it.
  - Per-client command handling: it sets the bus-open flag and queues exactly one reply per line.
  - Each client's outgoing channel, a bounded queue of 16.
  - `broadcastFrame`'s rule: deliver only to open, non-closed clients, never block, drop on full.
  - The loop of `connectAndServe` that slices the adapter byte stream into 13-byte windows.
- `AppRace` (`app_race.dfy`): one client's `closed` flag and channel as a broadcast and the finishing reader see them. It shows the interleaving in which the broadcast sends on a closed channel, and the locked variant that cannot. `App.Bridge.Broadcast` is one atomic step per client, which is the locked variant's behaviour.

Shared types are in `wrappers.dfy` (`Option`, `Result`) and `bytes.dfy` (Go's `byte` and `uint32` as bounded integers).

Bit operations on bytes are written as arithmetic. For `0 <= h < 256`:

| Go | Dafny |
|---|---|
| `h & 0x0F` | `h % 0x10` |
| `h & 0x40 != 0` | `(h / 0x40) % 2 == 1` |
| `h & 0x80 != 0` | `h / 0x80 == 1` |
| OR of disjoint bits | addition |
| `id & 0x1FFFFFFF` | `id % 0x2000_0000` |
| `id & 0x7FF` | `id % 0x800` |

Clients are objects of class `App.Client`. Each has the flags `open` and `closed` and its channel contents `queue`. The bridge's client map is a `set<Client>` field of class `App.Bridge`. Go's map iteration order is unspecified, so `Broadcast` picks clients in any order.

## Model

| member | source | states |
|---|---|---|
| EByte.PutUint32BE | cmd/bridge/internal/ebyte/frame.go:61 | the four big-endian bytes of a 32-bit value read back as that value |
| EByte.PutUint32BEOfUint32BE | cmd/bridge/internal/ebyte/frame.go:40 | reading four bytes big-endian and writing the value back gives the same bytes |
| EByte.Uint32BE | cmd/bridge/internal/ebyte/frame.go:40 | the four bytes are the base-256 digits of the result, most significant first |
| EByte.ParseFrame | cmd/bridge/internal/ebyte/frame.go:25-43 | fails exactly when the length is not 13 or the DLC nibble exceeds 8; a wrong length is reported with that length, a bad DLC with that DLC; on success DLC = `header & 0x0F` ≤ 8, remote = `header & 0x40 != 0`, extended = `header & 0x80 != 0`, bytes 1-4 are the identifier big-endian and the data is bytes 5-12 |
| EByte.SerializeFrame | cmd/bridge/internal/ebyte/frame.go:47-64 | fails exactly when DLC > 8, with the invalid-DLC error; otherwise yields exactly 13 bytes |
| EByte.HeaderFields | cmd/bridge/internal/ebyte/frame.go:53-60 | the written header of a valid frame decodes to its DLC, its remote and extended flags, and zero reserved bits |
| EByte.SerializeLayout | cmd/bridge/internal/ebyte/frame.go:52-62 | serialized layout: header fields as in HeaderFields, bytes 1-4 the identifier big-endian, bytes 5-12 the data |
| EByte.RoundTrip | cmd/bridge/internal/ebyte/frame.go:25-64 | for every frame with DLC ≤ 8, parsing its serialization gives the frame back |
| EByte.HeaderDecomposition | cmd/bridge/internal/ebyte/frame.go:30-38 | a header byte is the sum of its DLC nibble, reserved bits 4-5, and remote and extended bits |
| EByte.ReverseRoundTrip | cmd/bridge/internal/ebyte/frame.go:30-62 | re-serializing a parsed raw frame gives the raw bytes back if and only if header bits 4-5 were zero |
| EByte.ReservedBitsIgnored | cmd/bridge/internal/ebyte/frame.go:30-41 | raw frames that differ only in header bits 4-5 decode alike |
| EByte.ParseExtendedExample | cmd/bridge/internal/ebyte/frame_test.go:5-27 | `88 12 34 56 78 11..88` decodes to an extended data frame, ID 0x12345678, DLC 8 |
| EByte.ParseStandardExample | cmd/bridge/internal/ebyte/frame_test.go:29-51 | `06 00 00 03 F0 AA BB CC DD ...` decodes to a standard data frame, ID 0x3F0, DLC 6 |
| EByte.SerializeRemoteExample | cmd/bridge/internal/ebyte/frame_test.go:81-108 | a remote frame, ID 0x123, DLC 2, serializes with header 0x42, so the remote bit is set |
| SlcanFrame.HexDigit | cmd/bridge/internal/slcan/frame.go:28 | the digit of a value below 16 is an uppercase hex digit that reads back as the value |
| SlcanFrame.Hex | cmd/bridge/internal/slcan/frame.go:28-30 | `%0wX` of a value that fits yields exactly w characters |
| SlcanFrame.HexIsHexString | cmd/bridge/internal/slcan/frame.go:28-30 | a `%0wX` field holds uppercase hex digits only |
| SlcanFrame.HexRoundTrip | cmd/bridge/internal/slcan/frame.go:28-30 | reading a `%0wX` field back gives the formatted value |
| SlcanFrame.HexBytes | cmd/bridge/internal/slcan/frame.go:36-38 | the payload formatted with `%02X` is two characters per byte |
| SlcanFrame.HexBytesIsHexString | cmd/bridge/internal/slcan/frame.go:36-38 | the formatted payload holds uppercase hex digits only |
| SlcanFrame.HexBytesAt | cmd/bridge/internal/slcan/frame.go:36-38 | byte k is formatted at characters 2k and 2k+1, in order |
| SlcanFrame.EncodeFrame | cmd/bridge/internal/slcan/frame.go:14-43 | the line built by appending letter, identifier, DLC character, the payload loop bounded by DLC and 8, and `\r` is `Line(frame)` |
| SlcanFrame.AppendPayload | cmd/bridge/internal/slcan/frame.go:35-39 | the payload loop appends exactly `PayloadField(frame)`: one `%02X` pair per byte for the first min(DLC, 8) bytes of a data frame, nothing for a remote frame |
| SlcanFrame.LineParts | cmd/bridge/internal/slcan/frame.go:14-43 | position of every field in the line: letter at 0, identifier at 1..w, DLC character at w+1, payload, `\r` last |
| SlcanFrame.LineLength | cmd/bridge/internal/slcan/frame.go:14-43 | length is 1 + (extended ? 8 : 3) + 1 + (remote ? 0 : 2·min(DLC, 8)) + 1 |
| SlcanFrame.LineTypeLetter | cmd/bridge/internal/slcan/frame.go:16-25 | the first character is one of t/T/r/R; it is upper-case iff the frame is extended, and r/R iff the frame is remote |
| SlcanFrame.LineFieldsAreHex | cmd/bridge/internal/slcan/frame.go:27-38 | identifier and payload fields consist of uppercase hex digits |
| SlcanFrame.LineTerminator | cmd/bridge/internal/slcan/frame.go:41 | the line ends in `\r` and contains no other `\r` |
| SlcanFrame.LineIdentifier | cmd/bridge/internal/slcan/frame.go:27-31 | the identifier field reads back as `ID & 0x1FFFFFFF` (extended) or `ID & 0x7FF` (standard); higher bits are dropped |
| SlcanFrame.LineDlc | cmd/bridge/internal/slcan/frame.go:33 | the DLC character is `'0' + (DLC & 0x0F)`; for DLC ≤ 8 it is the digit `'0'..'8'` of the DLC |
| SlcanFrame.LinePayload | cmd/bridge/internal/slcan/frame.go:35-39 | for each k < (remote ? 0 : min(DLC, 8)) the k-th hex pair after the DLC character reads back as data byte k |
| SlcanFrame.ParsedFrameLine | cmd/bridge/internal/slcan/frame.go:14-43 | for a frame that ParseFrame produced, the line is a type letter, then uppercase hex digits only, then `\r` |
| SlcanFrame.EncodeStandardExample | cmd/bridge/internal/slcan/frame_test.go:10-22 | `{ID 0x123, DLC 2, AB CD}` encodes to `t1232ABCD\r` |
| SlcanFrame.HexStandardIdExample | cmd/bridge/internal/slcan/frame_test.go:10-22 | 0x123 in three hex digits is `123` |
| SlcanFrame.HexPayloadExample | cmd/bridge/internal/slcan/frame_test.go:10-22 | the payload AB CD formats as `ABCD` |
| SlcanFrame.HexIdExample | cmd/bridge/internal/slcan/frame_test.go:24-35 | 0x1ABCDEF0 in eight hex digits is `1ABCDEF0` |
| SlcanFrame.EncodeExtendedRemoteExample | cmd/bridge/internal/slcan/frame_test.go:24-39 | the extended remote frame 0x1ABCDEF0 encodes to a line that starts `R1ABCDEF0` and ends in `\r` |
| SlcanCommand.ParseCommand | cmd/bridge/internal/slcan/command.go:19-32 | Open iff the first character is `O`, Close iff it is `C`, Unknown iff the line is empty or starts with anything else; the raw text is always kept |
| SlcanCommand.FirstCharacterDecides | cmd/bridge/internal/slcan/command.go:24-31 | whatever follows the first character does not change the kind |
| SlcanCommand.ParseCommandExamples | cmd/bridge/internal/slcan/command_test.go:5-22 | `O` is Open, `C` is Close, `` and `T123` are Unknown with the raw text kept, and lower-case `open`/`close` are Unknown |
| App.FirstTerminator | cmd/bridge/internal/app/bridge.go:182-186 | finds an index holding `\r` or `\n` with no terminator before it, or reports that there is none |
| App.FirstTerminatorAt | cmd/bridge/internal/app/bridge.go:182-186 | a terminator with none before it is the one found |
| App.SplitLine | cmd/bridge/internal/app/bridge.go:181-191 | advance ≤ length of the input. There is no token iff there is no terminator and not (at EOF with input left); then nothing is consumed. A token has no terminator and is a prefix of the input. Either it is followed by a terminator and advance is its length + 1, or it is the whole input at EOF |
| App.SplitSlcan | cmd/bridge/internal/app/bridge.go:181-191 | the scan with early return computes exactly `SplitLine` |
| App.SplitIgnoresEndOfStream | cmd/bridge/internal/app/bridge.go:181-191 | once a terminator is buffered, the split does not depend on the end-of-stream flag; it yields a token and consumes through the first terminator |
| App.SplitOnPrefix | cmd/bridge/internal/app/bridge.go:181-191 | a split of a buffered prefix before end of stream either consumes nothing and asks for more, or equals the split of the whole stream at its end |
| App.ScanLines | cmd/bridge/internal/app/bridge.go:133-137 | the scanner over a fully arrived stream yields at most one line per byte, and at least one line for a non-empty stream |
| App.ScanLinesTerminatorFree | cmd/bridge/internal/app/bridge.go:133-136 | no line the scanner yields contains `\r` or `\n` |
| App.ScanFirstLine | cmd/bridge/internal/app/bridge.go:182-185 | a first line ended by `\r` or `\n` is yielded first, and scanning resumes just after its terminator |
| App.ScanTail | cmd/bridge/internal/app/bridge.go:187-190 | an unterminated tail at end of stream is one last line, or nothing if empty |
| App.ScanJoinedLines | cmd/bridge/internal/app/bridge.go:133-137 | scanning `\r`-terminated lines plus an unterminated tail gives back the lines, plus the tail if it is non-empty |
| App.EmptyLinesExample | cmd/bridge/internal/app/bridge.go:182-185 | `\r\n` yields two empty lines |
| App.Text | cmd/bridge/internal/app/bridge.go:137 | the line text has the token's characters, one per byte |
| App.Respond | cmd/bridge/internal/app/bridge.go:140-156 | a line starting `O` opens the bus, one starting `C` closes it, and both get `\r`; anything else leaves the flag and gets a bell |
| App.Session | cmd/bridge/internal/app/bridge.go:136-157 | exactly one reply per line, in order, each decided by its line's first character |
| App.EmptyLinesRingBell | cmd/bridge/internal/app/bridge.go:136-156 | the two empty lines of `\r\n` get one bell each and leave the flag unchanged |
| App.OfferAllKeepsWhatFits | cmd/bridge/internal/app/bridge.go:208-212 | successive non-blocking sends keep the messages that fit, in order, after what was queued, drop every later one, and never exceed 16 |
| App.Client.constructor | cmd/bridge/internal/app/bridge.go:88-91 | a new client has the bus closed, is not closed and has an empty channel |
| App.Client.HandleLine | cmd/bridge/internal/app/bridge.go:140-156 | on a client not yet closed, one line sets the open flag as `Respond` says and appends exactly its one reply; `closed` is unchanged |
| App.Client.TrySend | cmd/bridge/internal/app/bridge.go:208-212 | on a client whose channel is not closed (a send on a closed one panics), queues the message iff fewer than 16 are queued, otherwise leaves the queue unchanged; reports which |
| App.Client.FinishReading | cmd/bridge/internal/app/bridge.go:126-131 | the end of the reader, which happens once, marks the client closed |
| App.Client.Receive | cmd/bridge/internal/app/bridge.go:169-172 | yields the oldest queued message and removes it, or nothing once closed and drained |
| App.Windows | cmd/bridge/internal/app/bridge.go:258-260 | every sliced window has exactly 13 bytes |
| App.Leftover | cmd/bridge/internal/app/bridge.go:258-260 | the leftover is shorter than 13 bytes |
| App.WindowsPartition | cmd/bridge/internal/app/bridge.go:257-260 | old buffer ++ chunk == concatenated windows ++ leftover |
| App.WindowAt | cmd/bridge/internal/app/bridge.go:258-260 | there are ⌊n/13⌋ windows and window k is bytes 13k..13k+13, so they are consecutive and in arrival order |
| App.WindowsAcrossReads | cmd/bridge/internal/app/bridge.go:257-260 | frame boundaries do not depend on how the stream is split into reads |
| App.Decoded | cmd/bridge/internal/app/bridge.go:261-266 | never more frames than windows |
| App.DecodedAppend | cmd/bridge/internal/app/bridge.go:258-266 | decoding distributes over concatenation: no window's frame is lost, duplicated or reordered, and an invalid window contributes nothing |
| App.DecodedAllValid | cmd/bridge/internal/app/bridge.go:261-266 | when every window parses, frame k is the parse of window k |
| App.Bridge.constructor | cmd/bridge/internal/app/bridge.go:41-45 | a new bridge has no clients |
| App.Bridge.Accept | cmd/bridge/internal/app/bridge.go:88-95 | a fresh client with the bus closed and an empty channel joins the set |
| App.Bridge.Remove | cmd/bridge/internal/app/bridge.go:117-119 | the client leaves the set |
| App.Bridge.Broadcast | cmd/bridge/internal/app/bridge.go:193-214 | every client that is open and not closed gets the frame's SLCAN line queued unless its queue already holds 16, in which case its queue is unchanged; gated-off clients' queues and all flags are unchanged; no queue exceeds 16 |
| App.Bridge.ServeWindow | cmd/bridge/internal/app/bridge.go:259-266 | a window that parses is broadcast once; one that does not changes nothing |
| App.Bridge.ServeChunk | cmd/bridge/internal/app/bridge.go:257-267 | the kept bytes are the leftover of buffer ++ chunk; each open, non-closed client is offered the lines of the decoded windows, in order; no flag changes |
| App.ServeChunkQueue | cmd/bridge/internal/app/bridge.go:257-267 | over one read, an open client's queue gains the lines of the decoded frames that fit, in arrival order, and stays within 16 |
| AppRace.MarkClosed | cmd/bridge/internal/app/bridge.go:126-128 | the first clean-up step sets the flag, leaves the channel as it was, and always yields a reachable state |
| AppRace.CloseChannel | cmd/bridge/internal/app/bridge.go:130 | the second step closes the channel, leaves the flag as it was, and yields a reachable state iff the flag was already set |
| AppRace.CleanupReachable | cmd/bridge/internal/app/bridge.go:126-130 | every prefix of the clean-up, taken in order, keeps a reachable state reachable; all of it leaves flag and channel closed |
| AppRace.FinishReader | cmd/bridge/internal/app/bridge.go:126-131 | the reader's clean-up leaves the client closed and its channel closed |
| AppRace.SendOn | cmd/bridge/internal/app/bridge.go:208-212 | a send panics exactly when the channel is closed |
| AppRace.BroadcastAsWritten | cmd/bridge/internal/app/bridge.go:200-212 | the broadcast skips exactly the clients whose flag read as closed at the check |
| AppRace.AsWrittenCanPanic | cmd/bridge/internal/app/bridge.go:200-212 | an open client whose reader finishes between the check and the send makes the broadcast panic |
| AppRace.BroadcastLocked | cmd/bridge/internal/app/bridge.go:200-212 | with the check and the send under one lock, from any reachable state and with any prefix of the reader's clean-up taken first, the send never panics; it skips exactly when the client was closed or the clean-up had begun |
| AppRace.LockedAgreesWithoutRace | cmd/bridge/internal/app/bridge.go:200-212 | when the reader does not intervene, the locked and the as-written broadcast have the same outcome |

## Left out

- Sockets and timing are not modelled: `net.Listen`, `Accept`, `Dial`, `conn.Read`/`Write`, read deadlines, and the sleep-and-retry loops in `runAdapterLoop` and `acceptClients` (cmd/bridge/internal/app/bridge.go:48-99, 216-256). This is I/O. Each adapter read is the `chunk` parameter of `ServeChunk`.
- Goroutines, the wait group, the mutexes and the `ctx.Done()` cases are not modelled. Every operation is one atomic step on the objects. As a result, interleavings of a reader with a broadcast are not represented in `App`; the one that lets a broadcast send on a closed channel is modelled on its own in `AppRace` (see Findings).
- Blocking sends and receives are not modelled as waiting. A reply send or a receive can block. `App.Client.HandleLine` requires room in the queue. `App.Client.Receive` requires a queued message or a closed client. So each step models the moment the goroutine proceeds.
- A write error in `handleClientWrite` is not modelled (it is I/O). The model does not capture that such an error stops the writer early.
- Connection closing is not modelled: `runClient` waits for both tasks and then closes the connection. Only the removal from the set is modelled (`App.Bridge.Remove`).
- The scanner's behaviour on partial input is not modelled. `App.ScanLines` models `bufio.Scanner` over a stream that has fully arrived. Go's 64 KiB token limit and the scanner's error path are left out. The scanner can call the split on a buffered prefix before the end of the stream; by `App.SplitOnPrefix` such a call either asks for more input or gives the same line as the split of the whole stream.
- App.SplitSlcan: does not return the third result, `err`, because `splitSLCAN` always returns nil there.
- The logger is not modelled (`logger.go` and the warning and debug calls); it produces only output text. Neither are `main.go` and `config.go`, which parse flags and hold a plain struct.
- The GVRET and CANserver binary encoders (`encodeGVRETFrame`, `encodeCANserverFrame`) are not modelled; their code is not in bridge.go and is not part of this model.
- `SlcanFrame.EncodeFrame` has no error path. For DLC > 8 it writes `'0' + (DLC & 0x0F)`: `'9'` for 9, `:` to `?` for 10-15, and from 16 up the nibble wraps (16 writes `'0'`). A data frame then gets 8 payload pairs and a remote frame none (`SlcanFrame.LineDlc`, `SlcanFrame.PayloadLength`). Frames from `ParseFrame` have DLC ≤ 8 (ensures of `EByte.ParseFrame`).

## Findings

| source | as written | input that shows it | evidently intended | confidence | as-written member | corrected member |
|---|---|---|---|---|---|---|
| cmd/bridge/internal/app/bridge.go:200-212 | `broadcastFrame` reads `closed` under `c.mu`, releases the lock, then sends on `c.send`; the reader sets `closed` and then calls `close(c.send)` after releasing the lock | an open client whose reader finishes after the broadcast's check and before its send: the send hits a closed channel, which panics even inside `select` with `default` | no send ever reaches a closed channel; the check and the send are one critical section | not executed; from reading the code | AppRace.AsWrittenCanPanic | AppRace.BroadcastLocked |

