# piano-monitor, modelled in Dafny

piano-monitor bridges hot-pluggable USB MIDI keyboards to a software synthesizer. Three pieces of sequential logic sit at its core, and this project models each of them and proves what they promise:

- **The MIDI decoder and the router callback** (`src/midi.rs`, module `Midi`). `Midi.Decode` turns a raw byte message into one of five channel-voice events (Note Off, Note On, Control Change, Program Change, Pitch Bend) or `None`. Bytes are `bv8`, so the status nibbles and the pitch-bend assembly `(hi << 7) | lo` are bit-exact. A reference encoder in the layout of the MIDI 1.0 channel-voice messages is proved to round-trip with the decoder. The router callback (`Midi.OnMessage`) sends an event only when the message decodes. Its effect over a stream of messages is the filter-map `Midi.Routed`.
- **The event channel** (module `Channel`). It stands for the unbounded mpsc channel: a FIFO `pending` sequence that `Send` appends to and `TryRecv` pops from.
- **One device-monitor cycle** (`src/monitor.rs`, module `Monitor`). The registry is a `map<string, Router>`. A scan is `Option<seq<Port>>`, where `None` means the scanner could not be opened. Each port carries its name (`None` when reading it fails) and an oracle bit `accepts`, which says whether opening a router on it succeeds. `Monitor.Cycle` runs the loop as the source does: the present set, the connect-if-absent step and `retain`. It is proved equal to the set-level definition `Monitor.Reconciled`. `Monitor.Run` strings cycles together.
- **The render callback and the format dispatch** (`src/audio.rs`, module `Audio`). The synthesizer is a recording stub (`Audio.Synth`). It logs every call, hands out the frames of a fixed script and accepts or refuses events through an oracle. `Audio.Render` drains the channel into the stub, then fills the output array chunk by chunk. It is proved equal to `Audio.Scatter`, a position-by-position description of the buffer. The sample type is a type parameter, and `convert` stands for the sample conversion.
- **The 16-bit sample conversion** (module `Sample`). The generic render path converts each float sample with `i16::from_f32`. This is modelled on reals, both as written and as evidently intended (see Findings).

Three behaviours of the code are easy to misread, and the model follows the code in each:
- Pitch-bend data bytes are not range-checked. The value is `hi * 128 + lo` exactly when `lo < 128` or `hi` is even. When bit 7 of `lo` and bit 0 of `hi` are both set they collide and the sum is lost (`Midi.BendValueOverlap`). The value is always at most 32767.
- The render callback reads one frame per chunk of `channels` samples, not one per sample slot. It writes only slots 0 and 1 of each chunk and leaves the rest untouched, so it does not write every sample of the buffer.
- The dispatch sends U16 devices down the signed 16-bit path.

## Model

| member | source | states |
|---|---|---|
| `Midi.Decode` | src/midi.rs:38-70 | An event is produced exactly when the message is non-empty, its status class is one of the five and it has at least that class's length (3, or 2 for Program Change); otherwise `None`. The event's channel is the status byte's low nibble. |
| `Midi.ChannelOf` | src/midi.rs:42-43 | The channel taken from the status byte is always below 16. |
| `Midi.DecodeNoteOn` | src/midi.rs:50-54 | Class 0x90 with at least 3 bytes gives NoteOn with key and velocity as sent; velocity 0 stays a NoteOn. |
| `Midi.DecodeNoteOffDropsVelocity` | src/midi.rs:46-49 | Class 0x80 with at least 3 bytes gives NoteOff with the key; the third byte is required but has no influence. |
| `Midi.DecodeControlAndProgram` | src/midi.rs:55-63 | 0xB0 needs 3 bytes and gives ControlChange(ctrl, value); 0xC0 needs 2 and gives ProgramChange(program). |
| `Midi.DecodePitchBend` | src/midi.rs:64-67 | 0xE0 with 3 bytes gives PitchBend with value hi shifted left by 7, or-ed with lo; with 7-bit data bytes that is `hi * 128 + lo` and below 16384. |
| `Midi.BendValueRange` | src/midi.rs:65 | The bend value is `hi * 128 + lo` exactly when `lo < 128` or `hi` is even, below 0x4000 when both bytes are 7-bit, and never above 0x7FFF. |
| `Midi.BendValueOverlap` | src/midi.rs:65 | With `lo = 0x80, hi = 0x01` the or-ed value is 0x80, not 0x100: unchecked data bytes overlap. |
| `Midi.DecodeIgnoredClasses` | src/midi.rs:68 | Classes 0xA0, 0xD0 and 0xF0 (pressure and system messages) never produce an event, whatever their length. |
| `Midi.DecodeIgnoresTrailing` | src/midi.rs:45-67 | Bytes past the class's minimum length do not change the result; every prefix shorter than the minimum decodes to `None`. |
| `Midi.DecodeEncode` | src/midi.rs:38-70 | Every well-formed event (4-bit channel, 7-bit data, 14-bit bend) encoded as a MIDI 1.0 channel-voice message decodes back to itself. |
| `Midi.EncodeDecode` | src/midi.rs:38-70 | A message with 7-bit data bytes decodes to a well-formed event whose encoding reproduces the message's leading bytes (all of them except Note Off's dropped velocity). |
| `Midi.OnMessage` | src/midi.rs:22-26 | The callback appends to the channel exactly the decoded event of the message, or nothing when it does not decode. |
| `Midi.RoutedAppend` | src/midi.rs:22-26 | Routing a stream in two parts forwards the parts' events one after the other, so the per-message callback composes into the filter-map of the whole stream, in arrival order. |
| `Midi.RoutedExactly` | src/midi.rs:22-26 | No message yields more than one event; every forwarded event is the decoding of a received message; when all messages decode, the forwarded events are their decodings in order. |
| `Channel.Channel.Send` | src/midi.rs:24 | Sending appends the event at the back of the queue. |
| `Channel.Channel.TryRecv` | src/audio.rs:60 | Receiving takes the oldest event, or reports `None` and leaves an empty queue empty. |
| `Monitor.Lower` | src/monitor.rs:35 | The lower-cased name has the same length and contains no upper-case letter. Every upper-case letter becomes its own lower-case letter, and every other character is kept in place. |
| `Monitor.LowerIdempotent` | src/monitor.rs:35 | Lower-casing an already lower-cased name changes nothing. |
| `Monitor.FilterMatches` | src/monitor.rs:34-35 | "usb" in any mix of letter case, anywhere in a name, passes the filter; a name without the letter u never does. |
| `Monitor.FilterIgnoresCase` | src/monitor.rs:33-35 | Lower-casing a name before filtering does not change the verdict, and a port whose name cannot be read is never considered. |
| `Monitor.IsUsbExactly` | src/monitor.rs:35 | A name passes the filter exactly when it contains the letters u, s, b in a row, each in either case. |
| `Monitor.ContainsAt` | src/monitor.rs:35 | The recursive substring test agrees with "occurs at some position". |
| `Monitor.FirstConnecting` | src/monitor.rs:39-47 | The index it returns is a candidate port with that name that accepts, and no earlier port does; `None` means every candidate port with that name refuses. |
| `Monitor.Cycle` | src/monitor.rs:29-62 | The loop as written yields exactly `Reconciled`. The connect attempts are the ports that are candidates, whose name had no router at the start of the cycle and had no earlier successful port in this scan, in scan order. A failed scan makes no attempt. |
| `Monitor.VisitPorts` | src/monitor.rs:30-51 | The port loop leaves the present set equal to the candidate names and the registry equal to `Registered`. |
| `Monitor.VisitPort` | src/monitor.rs:33-49 | One port: a port that passes the filter adds its name to the present set, and is tried (and registered when it accepts) only if its name has no router yet; the present set, registry and attempt list move from their values over the first i ports to those over the first i + 1. |
| `Monitor.AttemptListExactly` | src/monitor.rs:39-40 | The attempt list holds each attempted port index once, in increasing order, and nothing else. |
| `Monitor.ScanFailureKeepsRegistry` | src/monitor.rs:29 | When the scanner cannot be opened the registry is left exactly as it was. |
| `Monitor.ReconciledKeepsOnlyPresent` | src/monitor.rs:54-61 | After a completed cycle every key is a present name; a registered name still present keeps its router unchanged; a name absent from the scan is dropped. |
| `Monitor.ReconciledConnectsArrivals` | src/monitor.rs:39-47 | A present name without a router is registered exactly when one of its ports accepts, and then with the first such port's router; if all refuse it stays absent and is retried by the next cycle. |
| `Monitor.AttemptsPerName` | src/monitor.rs:39 | Once a port with some name has connected, no later port with that name in the same scan gets an attempt; the first candidate port of an unregistered name does get one. |
| `Monitor.ReconciledConverges` | src/monitor.rs:30-61 | With every candidate port accepting, one cycle makes the registry's keys equal to the present names. |
| `Monitor.ReconciledIdempotent` | src/monitor.rs:27-62 | A second cycle over the same scan changes nothing. |
| `Monitor.RegisteredAfterArrival` | src/monitor.rs:36-43 | A device whose port appears and accepts in cycle k has a router after cycle k. |
| `Monitor.DroppedAfterDeparture` | src/monitor.rs:54-61 | A device missing from the scan of cycle m has no router after cycle m. |
| `Monitor.KeptWhilePresent` | src/monitor.rs:39 | A router survives unchanged through every later cycle whose scan failed or still saw its name. |
| `Audio.PathFor` | src/audio.rs:33-39 | F32 selects the float path; I16 and U16 both select the signed 16-bit generic path; every other format is the unreachable panic. |
| `Audio.Synth.SendEvent` | src/audio.rs:61 | The stub records the forwarded event and reports acceptance or refusal. |
| `Audio.Synth.ReadNext` | src/audio.rs:65 | The stub hands out the next frame of its script and records the read. |
| `Audio.Render` | src/audio.rs:59-71 | Afterwards the queue is empty. The synthesizer's log gains every event queued at entry, in FIFO order, and then exactly `ceil(len / channels)` frame reads, so all forwarding precedes the first read. The buffer equals `Scatter` of its old contents and the converted frames. |
| `Audio.Drain` | src/audio.rs:60-62 | The drain forwards every queued event in order and empties the queue; refusals do not stop it; no frame is read. |
| `Audio.FillChunks` | src/audio.rs:64-70 | The chunk loop reads one frame per chunk and leaves the buffer equal to `Scatter`. |
| `Audio.RenderF32` | src/audio.rs:59-71 | The float callback empties the queue, forwards the queued events and then reads `ceil(len / channels)` frames, advancing the synthesizer by that many frames. The buffer equals `Scatter` of the frames with the samples passed through unchanged. |
| `Audio.RenderI16` | src/audio.rs:95-107 | The generic callback at 16-bit samples, with the corrected conversion: the same queue, log and frame-cursor effects as the float callback, and the buffer equals `Scatter` of the frames converted by `Sample.ToI16`. |
| `Audio.RenderI16AsWritten` | src/audio.rs:95-107 | The generic callback at 16-bit samples as written. On every script whose frames survive the `unwrap` it has the same queue, log and frame-cursor effects, and the buffer equals `Scatter` of the frames converted by `Sample.FromF32AsWritten(..).unwrap()`. |
| `Audio.ScatterSlots` | src/audio.rs:64-70 | Slot 0 of chunk k holds frame k's left sample. With more than one channel, slot 1 exists in every chunk and holds the right sample. Slots at offset 2 or more keep their old values. The length is unchanged. |
| `Audio.ScatterChunk` | src/audio.rs:64-69 | The same facts for one chunk and one offset. |
| `Audio.ChunksCeil` | src/audio.rs:64 | `Chunks(len, channels)` is the rounded-up quotient: chunk k starts inside the buffer exactly when k is below it. |
| `Audio.ChunksOfWholeFrames` | src/audio.rs:64-65 | A buffer of N frames of C channels gets exactly N frame reads. |
| `Audio.EveryChunkHasSlotOne` | src/audio.rs:67-69 | When the layout fits and there is more than one channel, `frame[1]` is inside the buffer for every chunk. |
| `Audio.ShortLastChunk` | src/audio.rs:64-69 | A buffer of `k * channels + 1` samples with several channels has a one-sample last chunk, the case in which `frame[1]` is out of bounds, and the layout check rejects it. |
| `Sample.FromF32AsWritten` | src/audio.rs:102 | Conversion as written: defined exactly between -32769 and 32768 (otherwise `unwrap` panics), keeping the integer part. |
| `Sample.AsWrittenCollapsesRange` | src/audio.rs:102-104 | A sample in [-1, 1] is written as -1, 0 or 1, and one strictly inside as 0. |
| `Sample.ToI16Scales` | src/audio.rs:102-104 | The corrected conversion is total and within one step of `32768 * x` on the nominal range. It is monotone and maps 0.5 to 16384, -1 to -32768 and 1 to 32767. |

## Findings

| source | as written | input that shows it | evidently intended | confidence | as-written member | corrected member |
|---|---|---|---|---|---|---|
| src/audio.rs:102-104 | `T::from_f32(l).unwrap()` with `T = i16` keeps only the integer part of the float sample and does not scale it | a sample of 0.5 is written as 0; every sample strictly between -1 and 1 is written as 0 | map the nominal range [-1, 1] onto the 16-bit range (scale by 32768, saturate) | medium, not executed: assumes the synthesizer's samples lie near [-1, 1] | `Sample.AsWrittenCollapsesRange` | `Sample.ToI16Scales` |

## Left out

- src/jack_boot.rs (starting and polling the audio-routing daemon) and src/main.rs (environment lookup, channel creation, parking the main thread) are not part of this model. They are operational wiring.
- Device and stream setup, sound-font loading and `new_synth` (src/audio.rs:21-31, 117-132) are not modelled. They are calls into external libraries and file I/O.
- Threads, the two-second sleep between cycles and the cross-thread behaviour of the channel are not modelled. Each component is modelled as one sequential step. In particular, events sent while a drain is running are not modelled.
- The lifetime of a router's input subscription is not modelled. Dropping a router is removal from the map. That no event from a removed device is enqueued afterwards relies on the input library closing the subscription.
- The synthesizer's sample generation and event handling are not modelled. A scripted stub (`Audio.Synth`) replaces them.
- Floating point is not modelled: f32 samples are reals. NaN and f32 rounding are not represented.
- The reason a connect fails is not modelled. Failures to create the input client, to read the port name again or to open the connection are all folded into the port's `accepts` bit.
- Logging is not modelled.
- Monitor.Lower: only ASCII letters are lower-cased. Other characters are left as they are, rather than following Unicode case mapping.
- Audio.Render: a buffer whose last chunk is one sample long while there is more than one channel, or zero channels, makes the source panic. The model requires these cases away (`FitsChunks`) instead of modelling the panic.
- Audio.RenderI16: it uses the corrected conversion; `Audio.RenderI16AsWritten` is the callback with the conversion as written. What the output library does when a U16 device is given 16-bit signed samples is not modelled.
- Audio.RenderI16AsWritten: a frame sample outside (-32769, 32768) makes the source's `unwrap` panic. The model requires such frames away instead of modelling the panic.
- Audio.PathFor: the panic on an unexpected sample format is modelled as `None`.
