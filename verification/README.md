# MTC timecode decoder — a verified Dafny model

This project models the MIDI Time Code (MTC) reader of technus-timecode. It has three parts:

- **The timecode value** (`timecode.dfy`, module `Timecodes`). This covers `Timecode::new`, which normalises hours, minutes, seconds and frames at a frame rate by carrying frames into seconds, seconds into minutes and minutes into hours. It also covers the derived `Default` and the `Display` rendering `"{h}:{m}:{s}:{f} @ {fps}fps"`.
- **The quarter-frame reassembly buffer** (`quarter_frame_buffer.dfy`, module `QuarterFrames`). It has eight slots, one for each MTC quarter-frame kind. MTC quarter frames are System Common status 0xF1 in the MTC supplement to the MIDI 1.0 Detailed Specification. Each slot keeps the first fragment that arrives for it. Once all eight slots are filled, the slot pairs are XOR-merged into frames, seconds, minutes and hours, the code type is taken from the last slot, and the buffer empties itself.
- **The decoder** (`mtc_decoder.dfy`, module `MtcDecoder`). It holds the port, the connection, the `connected` flag and the receiving end of the channel. The receiver is modelled as a FIFO queue of timecodes.
  - The transport's connect callback is modelled as an atomic step: parse, `add`, `construct_timecode`, then send. The per-message pipeline `Step` (an `add` followed by a `construct_timecode`) lives here too, because it is the callback's code.
  - `get_current_timecode` is a non-blocking take from the front of the queue.

`wrappers.dfy` holds the `Option`, `Result` and `Outcome` datatypes.

Modelling choices:

- `u8` fields are `int` values restricted to 0..255. Each `u8` addition in `Timecode::new` is checked explicitly. A division by zero or a sum above 255 becomes a `Panic` error instead of a value.
- Quarter-frame fragments are the MIDI parser's timecode record: four `bv8` fields and a code-type enum. The parser itself is not modelled.
- The transport is a set of parameters:
  - whether `MidiInput::new` succeeds is a `bool`;
  - opening a port is a function `open: Port -> Option<Handle>`;
  - parsing bytes is a function `parse: Bytes -> Option<MidiMsg>`;
  - the conversion `tc.into()` is a function `convert: Fragment -> Timecode`.
- Every channel gets an identity. A connection's callback therefore sends to a particular receiver, and sending after that receiver has been replaced shows up as `SendPanicked`. That is the `expect` on the send.

The model keeps these behaviours of the code, although a reader might expect otherwise:

- `Timecode::new` with `fps == 0` divides by zero, because `frames >= 0` always holds. It is not a no-op.
- `construct_timecode` leaves the buffer untouched when the buffer is incomplete. It only clears the buffer after a success.
- `add` never overwrites a filled slot, although its doc comment says "replacing".
- A failed transport connect does not leave the decoder in its pre-call state. The port is consumed and the receiver is replaced.
- `disconnect` keeps the receiver. Values still queued can be polled after disconnecting.

## Model

| member | source | states |
|---|---|---|
| Timecodes.Carry | src/backend/timecode.rs:22-40 | One carry step moves the whole multiples of the radix from the lower field into the higher one: the higher field grows by `lo / radix`, the lower one ends below the radix, and `hi * radix + lo` is unchanged. |
| Timecodes.New | src/backend/timecode.rs:20-49 | Fails with division by zero exactly when `fps == 0`. Succeeds exactly when the three carry sums fit in `u8`. On success the result has `frames < fps`, `seconds < 60`, `minutes < 60`, keeps `fps` unchanged, and never has fewer hours than the input. |
| Timecodes.NewConservesTotal | src/backend/timecode.rs:22-40 | Every carry is lossless: the result's total frame count `((h*60+m)*60+s)*fps+f` equals the input's. |
| Timecodes.NormalFormUnique | src/backend/timecode.rs:3-7 | Two timecodes that satisfy the documented ranges, with the same rate and the same total frame count, are equal. |
| Timecodes.NewIsCanonical | src/backend/timecode.rs:17-50 | When the carries fit, `new` returns a timecode `t` if and only if `t` is normalised, has the input's rate and denotes the input's total frame count. |
| Timecodes.NewIdempotent | src/backend/timecode.rs:70-96 | Input already within range comes back field for field. |
| Timecodes.NewTwiceIsNew | src/backend/timecode.rs:20-49 | Normalising a constructed timecode a second time changes nothing. |
| Timecodes.NewBoundaryExamples | src/backend/timecode.rs:70-130 | `new(100,59,59,23,24)` returns its input unchanged. `new(100,59,59,25,24)` gives 101:0:0:1 at 24 fps. |
| Timecodes.NewZeroFpsPanics | src/backend/timecode.rs:22-23 | With `fps = 0`, every input reaches `frames / fps` and aborts with a division by zero. |
| Timecodes.NewHourCarryExamples | src/backend/timecode.rs:36-40 | Hours carry past 24 without wrapping. An hour carry to 256 overflows `u8`. |
| Timecodes.Default | src/backend/timecode.rs:8-15 | The derived default renders as `0:0:0:0 @ 0fps`. Because the rendering is injective, that fixes every field at zero. |
| Timecodes.DefaultNotConstructible | src/backend/timecode.rs:8-50 | `new` cannot produce the default value, because the default's frame rate is 0. |
| Timecodes.Decimal | src/backend/timecode.rs:57 | A `{}` field renders as at least one decimal digit, with no zero padding: zero is exactly `"0"`, a leading `0` occurs only for zero, and the rendering is a single digit exactly when the number is below 10. |
| Timecodes.DecimalRoundTrip | src/backend/timecode.rs:57 | Reading the decimal rendering of a number back gives that number. |
| Timecodes.Format | src/backend/timecode.rs:53-61 | The rendering `"{h}:{m}:{s}:{f} @ {fps}fps"` can be read back: parsing it gives exactly the timecode, frame rate included. The parser accepts only unpadded fields, so this also fixes the exact string. |
| Timecodes.ParseFieldCanonical | src/backend/timecode.rs:57 | A field the parser accepts is exactly the unpadded `{}` rendering of its value, so no zero-padded field reads back. |
| Timecodes.FormatInjective | src/backend/timecode.rs:53-61 | Two timecodes render the same only when they are equal. |
| QuarterFrames.TargetOf | src/backend/mtc_decoder/timecode_quarter_frame_buffer.rs:18-30 | Exactly the eight quarter-frame messages target a slot, always below 8 and with their own fragment. Every other message targets no slot. Which slot each kind gets is fixed by `QuarterFrame` and `TargetOfQuarterFrame`. |
| QuarterFrames.QuarterFrame | src/backend/mtc_decoder/timecode_quarter_frame_buffer.rs:20-27 | The message `QuarterFrameK` carrying a fragment targets slot K-1 with that fragment. |
| QuarterFrames.TargetOfQuarterFrame | src/backend/mtc_decoder/timecode_quarter_frame_buffer.rs:18-30 | A message targets slot `i` with fragment `tc` if and only if it is `QuarterFrame(i+1)` carrying `tc`. |
| QuarterFrames.Empty | src/backend/mtc_decoder/timecode_quarter_frame_buffer.rs:12-14 | A new buffer has eight empty slots. |
| QuarterFrames.Add | src/backend/mtc_decoder/timecode_quarter_frame_buffer.rs:17-36 | Messages that are not quarter frames change nothing. A quarter frame fills its slot only if that slot is empty. A filled slot is never overwritten. Every other slot is unchanged. |
| QuarterFrames.IsFilled | src/backend/mtc_decoder/timecode_quarter_frame_buffer.rs:39-41 | True exactly when every slot holds a fragment. |
| QuarterFrames.Construct | src/backend/mtc_decoder/timecode_quarter_frame_buffer.rs:44-68 | Returns nothing and leaves the buffer untouched unless all eight slots are filled. Otherwise it returns frames = s0⊕s1, seconds = s2⊕s3, minutes = s4⊕s5, hours = s6⊕s7 and the code type of s7, and empties the buffer. |
| QuarterFrames.ConstructClears | src/backend/mtc_decoder/timecode_quarter_frame_buffer.rs:58-59 | A second construction straight after a successful one returns nothing. |
| QuarterFrames.ConstructMergesNibbles | src/backend/mtc_decoder/timecode_quarter_frame_buffer.rs:44-68 | When the first slot of each pair holds only a low nibble and the second only a high nibble, each constructed field is the OR of the two, and its low and high nibbles are exactly the two slots' values. |
| QuarterFrames.ConstructReassembles | src/backend/mtc_decoder/timecode_quarter_frame_buffer.rs:44-68 | Splitting a fragment's fields into low and high nibbles across the eight slots, with its code type in the last slot, and constructing gives that fragment back and an empty buffer. |
| QuarterFrames.AddAllKeepsFirst | src/backend/mtc_decoder/timecode_quarter_frame_buffer.rs:31-34 | After any run of `add`s, each slot holds its earlier value or, if it was empty, the first fragment that arrived for it. |
| QuarterFrames.OrderIndependent | src/backend/mtc_decoder/timecode_quarter_frame_buffer.rs:20-34 | Starting from empty, two message sequences with the same first-arriving fragment for every kind fill the same buffer and complete to the same value. |
| QuarterFrames.DuplicateIgnored | src/backend/mtc_decoder/timecode_quarter_frame_buffer.rs:31-34 | Inserting a repeat of a kind that has already arrived, at any later point, leaves the buffer as it would be without the repeat. |
| QuarterFrames.MissingKindNeverCompletes | src/backend/mtc_decoder/timecode_quarter_frame_buffer.rs:45-48 | While some kind has never arrived, the buffer is not filled and nothing is constructed. |
| MtcDecoder.Step | src/backend/mtc_decoder/mod.rs:80-83 | A value comes out exactly when the message leaves every slot filled, and the buffer is then empty. The value is the XOR merge of the slot pairs of the buffer `add` produced, with the last slot's code type. Otherwise the buffer is the one `add` produced. A message that is not a quarter frame only retries the construction on the unchanged buffer. |
| MtcDecoder.FeedWithoutCompletion | src/backend/mtc_decoder/mod.rs:78-83 | While no prefix fills the buffer, the add-then-construct pipeline emits nothing and keeps exactly the slots that plain `add`s would. |
| MtcDecoder.FullCycle | src/backend/mtc_decoder/mod.rs:78-89 | Quarter frames 1-7 emit nothing. Quarter frame 8 then emits exactly the merge of all eight fragments and leaves the buffer empty. |
| MtcDecoder.New | src/backend/mtc_decoder/mod.rs:24-36 | Fails only if the MIDI backend cannot start. Otherwise it has no port, no receiver and no connection, is not connected, has `fps = 0`, and is coherent. |
| MtcDecoder.Connected | src/backend/mtc_decoder/mod.rs:120-123 | In a coherent state, the flag holds exactly when a connection is open. |
| MtcDecoder.SelectPort | src/backend/mtc_decoder/mod.rs:16 | Setting the public port field stores the port and changes nothing else: frame rate, receiver, connection, flag and channel count are kept, and so is coherence. |
| MtcDecoder.Connect | src/backend/mtc_decoder/mod.rs:48-100 | Succeeds exactly when the backend starts, a port is set and the transport accepts it. Without a port it fails and nothing changes. Once a port is taken, the port is gone and a fresh empty receiver is installed, whether or not the transport connect then fails. On success the connection is open, its buffer is empty, and `connected` is set. A transport failure leaves the connection and the flag as they were. |
| MtcDecoder.Disconnect | src/backend/mtc_decoder/mod.rs:104-118 | With no connection it fails and nothing changes. Otherwise it closes the connection and clears `connected`. The port is not restored and the receiver is not cleared. |
| MtcDecoder.GetCurrentTimecode | src/backend/mtc_decoder/mod.rs:128-143 | Returns nothing when there is no receiver or the queue is empty. Otherwise it removes and returns the oldest queued value. The values queued before the call are always the returned value followed by the values still queued. Port, connection, flag and frame rate are untouched. |
| MtcDecoder.OnMessage | src/backend/mtc_decoder/mod.rs:72-90 | Unparsable bytes change nothing. Otherwise the callback's buffer becomes the result of `add` then `construct_timecode`, and exactly one converted value is queued if and only if construction returned a value. The step panics only when it sends on a channel whose receiver has been replaced. From a coherent state it never panics. |
| MtcDecoder.RunConservesValues | src/backend/mtc_decoder/mod.rs:63-143 | From a coherent state, no interleaving of callback steps, polls and disconnects panics. The values received are followed by those still queued, and together they equal the values queued at the start followed by those sent. So nothing is lost, duplicated or reordered. |
| MtcDecoder.PollTakes | src/backend/mtc_decoder/mod.rs:137-142 | With one value queued, the first poll returns it and the second returns nothing. |
| MtcDecoder.NoReceiverNothingToPoll | src/backend/mtc_decoder/mod.rs:130-135 | Without a receiver, polling returns nothing and changes nothing. |
| MtcDecoder.ConnectSuccessCoherent | src/backend/mtc_decoder/mod.rs:57-99 | A successful connect leaves a coherent, connected decoder with an empty queue and an empty callback buffer. |
| MtcDecoder.ConnectFromIdleCoherent | src/backend/mtc_decoder/mod.rs:52-93 | From an idle decoder, connect keeps it coherent. After a transport failure the port is gone, the queue is empty and the decoder is not connected. |
| MtcDecoder.ReconnectFailureStrandsCallback | src/backend/mtc_decoder/mod.rs:64-93 | Suppose connect is called while connected, with a port the transport refuses. The old connection stays open but its receiver is replaced, so the next completed timecode panics on send. |
| MtcDecoder.ReconnectWindowPanics | src/backend/mtc_decoder/mod.rs:64-95 | Suppose connect is called while connected. After the receiver swap at line 65 the old connection is still open, the state is incoherent, and a message that completes a timecode in that window panics on send, whatever the transport later answers. The swapped-in receiver is the one connect finishes with. |
| MtcDecoder.ConnectFixed | src/backend/mtc_decoder/mod.rs:64-97 | The corrected connect closes any open connection first and installs the new receiver only together with the new connection, after the transport has accepted the port. Without the backend or a port nothing changes. A refused port leaves the decoder disconnected with its receiver and queued values in place. No connection from before the call survives it. |
| MtcDecoder.ConnectFixedPreservesCoherence | src/backend/mtc_decoder/mod.rs:64-97 | The corrected connect keeps the decoder coherent, at its intermediate stage as well as at the end, and no callback fires at the intermediate stage. So no callback can send into a dropped channel. |
| MtcDecoder.ReconnectFailureExample | src/backend/mtc_decoder/mod.rs:52-97 | A concrete trace: new, select port 1, connect, select port 2, transport refuses. The as-written connect leaves the decoder incoherent. The corrected connect does not. |

## Findings

| source | as written | input that shows it | evidently intended | confidence | as-written member | corrected member |
|---|---|---|---|---|---|---|
| src/backend/mtc_decoder/mod.rs:64-93 | `timecode_rx` is replaced before the transport connect, which can fail. On failure the previous connection stays open, and its callback's sender now has no receiver. | A connected decoder is given a new port, and the transport refuses that port. The next completed timecode hits the `expect` on send at line 88 and panics. | A failed connect leaves no callback without its receiver. The receiver is swapped only together with the connection. | medium, not executed | MtcDecoder.ReconnectFailureStrandsCallback | MtcDecoder.ConnectFixedPreservesCoherence |
| src/backend/mtc_decoder/mod.rs:64-95 | On a reconnect the receiver is replaced at line 65, but the old connection is only dropped at line 95. Its callback runs on the transport's thread throughout. | A connected decoder is given a new port and connect is called. A message completing a timecode arrives on the old connection before line 95 runs. Its send at line 88 panics, even if the transport accepts the new port. | The old connection is closed before the receiver is replaced. | low, not executed | MtcDecoder.ReconnectWindowPanics | MtcDecoder.ConnectFixedPreservesCoherence |

## Left out

- Port listing and naming (`get_ports`, `port_name`) are transport I/O, so they are not modelled. Setting the public `port` field is modelled as `SelectPort`.
- `MidiInput::new` is not modelled. The model only records whether it succeeded, as a `bool`.
- `MidiMsg::from_midi` is the parameter `parse`. The foreign parser's nibble decoding of each quarter frame is not modelled, so fragment fields are opaque bytes.
- The `tc.into()` conversion from the parser's timecode to `Timecode` is the parameter `convert`. Its `From` impl is not part of this model, so no mapping from code type to `fps` is invented.
- Threads and blocking are not modelled. The callback is one atomic step, and it interleaves with the consumer's calls only between them. `connect` is also one step. The one intermediate state of `connect` that is modelled is its receiver swap at line 65 (`SwapReceiver`), together with the first stage of the corrected connect (`Release`). Other points inside an operation where the callback could run are not modelled. A `try_recv` on a channel whose sender has gone returns `Err(Disconnected)` once its buffered values are drained, and `get_current_timecode` maps every `Err` to `None`, the same as for an empty channel. So a dropped sender needs no separate state.
- Timecodes.New: a `u8` sum above 255 is modelled as the panic of a checked build. A release build would wrap instead, and that is not modelled.
- The decoder's `fps` field is carried through unchanged, since nothing in the core reads it.
- `src/backend/mtc_decoder.rs` is not modelled. It is an older copy of the decoder whose callback only prints.
- The user interface and application shell are not modelled: `app.rs`, `main.rs`, `components/` and `timecode_type.rs`.
