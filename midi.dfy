/** Decoding of raw MIDI 1.0 channel-voice messages (src/midi.rs) and the
    per-device router callback that forwards decoded events to the event
    channel. */
module Midi {
  import opened Options
  import Channel

  type Byte = bv8

  /** The five channel-voice events the decoder produces. `channel` is the low
      nibble of the status byte; the data fields are the message's data bytes
      taken as they are (they are not range-checked). */
  datatype MidiEvent =
    | NoteOff(channel: Byte, key: Byte)
    | NoteOn(channel: Byte, key: Byte, vel: Byte)
    | ControlChange(channel: Byte, ctrl: Byte, value: Byte)
    | ProgramChange(channel: Byte, program: Byte)
    | PitchBend(channel: Byte, bend: bv16)

  // Status classes (high nibble of the status byte).
  const NOTE_OFF: Byte := 0x80
  const NOTE_ON: Byte := 0x90
  const CONTROL_CHANGE: Byte := 0xB0
  const PROGRAM_CHANGE: Byte := 0xC0
  const PITCH_BEND: Byte := 0xE0

  /** The status class of a status byte: its high nibble. */
  function StatusClass(status: Byte): Byte
  {
    status & 0xF0
  }

  /** The channel of a status byte: its low nibble. */
  function ChannelOf(status: Byte): (c: Byte)
    ensures c < 16
  {
    status & 0x0F
  }

  /** How many bytes (status included) a message of each recognised class
      needs; `None` for every class the decoder ignores (polyphonic and
      channel pressure, system messages). */
  function MinLength(cls: Byte): Option<nat>
  {
    if cls == NOTE_OFF || cls == NOTE_ON || cls == CONTROL_CHANGE || cls == PITCH_BEND then Some(3)
    else if cls == PROGRAM_CHANGE then Some(2)
    else None
  }

  /** The 14-bit pitch-bend value as the decoder assembles it:
      the second data byte shifted left by seven, or-ed with the first. */
  function BendValue(lo: Byte, hi: Byte): bv16
  {
    ((hi as bv16) << 7) | (lo as bv16)
  }

  /** The channel-voice decoder. Total: every byte sequence yields an event or
      `None`, and an event exactly when the message is non-empty, its class is
      one of the five and it is at least as long as that class needs. */
  function Decode(msg: seq<Byte>): (r: Option<MidiEvent>)
    ensures r.Some? <==>
              |msg| > 0 && MinLength(StatusClass(msg[0])).Some?
              && |msg| >= MinLength(StatusClass(msg[0])).value
    ensures r.Some? ==> r.value.channel == ChannelOf(msg[0])
  {
    if |msg| == 0 then None
    else
      var status := msg[0];
      var channel := ChannelOf(status);
      var cls := StatusClass(status);
      if cls == NOTE_OFF && |msg| >= 3 then Some(NoteOff(channel, msg[1]))
      else if cls == NOTE_ON && |msg| >= 3 then Some(NoteOn(channel, msg[1], msg[2]))
      else if cls == CONTROL_CHANGE && |msg| >= 3 then Some(ControlChange(channel, msg[1], msg[2]))
      else if cls == PROGRAM_CHANGE && |msg| >= 2 then Some(ProgramChange(channel, msg[1]))
      else if cls == PITCH_BEND && |msg| >= 3 then Some(PitchBend(channel, BendValue(msg[1], msg[2])))
      else None
  }

  // ---------------------------------------------------------------------------
  // Properties of the decoder, one class at a time.

  /** Note On keeps its velocity as sent: velocity 0 is not turned into a
      Note Off. */
  lemma DecodeNoteOn(msg: seq<Byte>)
    requires |msg| >= 3 && StatusClass(msg[0]) == NOTE_ON
    ensures Decode(msg) == Some(NoteOn(msg[0] & 0x0F, msg[1], msg[2]))
    ensures msg[2] == 0 ==> Decode(msg).value.NoteOn?
  {
  }

  /** Note Off needs three bytes but keeps only the key: the release velocity
      is dropped. */
  lemma DecodeNoteOffDropsVelocity(msg: seq<Byte>, vel: Byte)
    requires |msg| >= 3 && StatusClass(msg[0]) == NOTE_OFF
    ensures Decode(msg) == Some(NoteOff(msg[0] & 0x0F, msg[1]))
    ensures Decode(msg[2 := vel]) == Decode(msg)
  {
  }

  lemma DecodeControlAndProgram(msg: seq<Byte>)
    requires |msg| >= 2
    ensures StatusClass(msg[0]) == PROGRAM_CHANGE ==>
              Decode(msg) == Some(ProgramChange(msg[0] & 0x0F, msg[1]))
    ensures StatusClass(msg[0]) == CONTROL_CHANGE ==>
              Decode(msg) == (if |msg| >= 3 then Some(ControlChange(msg[0] & 0x0F, msg[1], msg[2])) else None)
  {
  }

  /** The pitch-bend value is `hi * 128 + lo` (a sum that cannot wrap in 16
      bits) exactly when the low byte is a proper 7-bit data byte or the high
      byte is even, so that bit 7 of `lo` and bit 0 of `hi` never meet; it
      fits in 14 bits when both bytes are 7-bit. Bytes with bit 7 set are not
      rejected: the value then still fits in 15 bits. */
  lemma BendValueRange(lo: Byte, hi: Byte)
    ensures BendValue(lo, hi) == (hi as bv16) * 128 + (lo as bv16) <==> lo < 0x80 || hi & 1 == 0
    ensures lo < 0x80 ==> BendValue(lo, hi) == (hi as bv16) * 128 + (lo as bv16)
    ensures lo < 0x80 && hi < 0x80 ==> BendValue(lo, hi) < 0x4000
    ensures BendValue(lo, hi) <= 0x7FFF
  {
  }

  /** When bit 7 of the low byte and bit 0 of the high byte are both set, the
      or-ed bit collides with bit 0 of the shifted high byte and the value is
      not `hi * 128 + lo`. */
  lemma BendValueOverlap()
    ensures BendValue(0x80, 0x01) == 0x80
    ensures (0x01 as bv16) * 128 + (0x80 as bv16) == 0x100
  {
  }

  lemma DecodePitchBend(msg: seq<Byte>)
    requires |msg| >= 3 && StatusClass(msg[0]) == PITCH_BEND
    ensures Decode(msg) == Some(PitchBend(msg[0] & 0x0F, BendValue(msg[1], msg[2])))
    ensures msg[1] < 0x80 && msg[2] < 0x80 ==>
              Decode(msg).value.bend == (msg[2] as bv16) * 128 + (msg[1] as bv16)
              && Decode(msg).value.bend < 0x4000
  {
    BendValueRange(msg[1], msg[2]);
  }

  /** Ignored classes (polyphonic pressure 0xA0, channel pressure 0xD0 and
      system messages 0xF0) never produce an event, whatever follows them. */
  lemma DecodeIgnoredClasses(msg: seq<Byte>)
    requires |msg| > 0
    requires StatusClass(msg[0]) in {0xA0, 0xD0, 0xF0}
    ensures Decode(msg) == None
  {
  }

  /** Bytes after the class's minimum length do not influence the result, and a
      message cut shorter than that minimum decodes to `None`. */
  lemma DecodeIgnoresTrailing(msg: seq<Byte>, n: nat)
    requires |msg| > 0 && MinLength(StatusClass(msg[0])).Some?
    requires MinLength(StatusClass(msg[0])).value <= n <= |msg|
    ensures Decode(msg[..n]) == Decode(msg)
    ensures forall k :: 0 <= k < MinLength(StatusClass(msg[0])).value ==> Decode(msg[..k]) == None
  {
  }

  // ---------------------------------------------------------------------------
  // A reference encoder (the message layout of the MIDI 1.0 specification's
  // channel-voice messages) and the round trip with the decoder.

  /** An event whose fields fit the widths MIDI gives them: a 4-bit channel,
      7-bit data bytes and a 14-bit bend. */
  predicate WellFormed(e: MidiEvent)
  {
    && e.channel < 16
    && match e
       case NoteOff(_, k) => k < 0x80
       case NoteOn(_, k, v) => k < 0x80 && v < 0x80
       case ControlChange(_, c, v) => c < 0x80 && v < 0x80
       case ProgramChange(_, p) => p < 0x80
       case PitchBend(_, b) => b < 0x4000
  }

  /** Release velocity written by the encoder for Note Off (the decoder drops
      that byte). */
  const DEFAULT_RELEASE: Byte := 0x40

  function Encode(e: MidiEvent): seq<Byte>
  {
    match e
    case NoteOff(c, k) => [NOTE_OFF | c, k, DEFAULT_RELEASE]
    case NoteOn(c, k, v) => [NOTE_ON | c, k, v]
    case ControlChange(c, n, v) => [CONTROL_CHANGE | c, n, v]
    case ProgramChange(c, p) => [PROGRAM_CHANGE | c, p]
    case PitchBend(c, b) => [PITCH_BEND | c, (b & 0x7F) as Byte, ((b >> 7) & 0x7F) as Byte]
  }

  lemma StatusByteParts(cls: Byte, c: Byte)
    requires cls & 0x0F == 0 && c < 16
    ensures StatusClass(cls | c) == cls && ChannelOf(cls | c) == c
  {
  }

  lemma BendSplit(b: bv16)
    requires b < 0x4000
    ensures BendValue((b & 0x7F) as Byte, ((b >> 7) & 0x7F) as Byte) == b
  {
  }

  /** Every well-formed event survives encoding and decoding. */
  lemma DecodeEncode(e: MidiEvent)
    requires WellFormed(e)
    ensures Decode(Encode(e)) == Some(e)
  {
    match e
    case NoteOff(c, k) => StatusByteParts(NOTE_OFF, c);
    case NoteOn(c, k, v) => StatusByteParts(NOTE_ON, c);
    case ControlChange(c, n, v) => StatusByteParts(CONTROL_CHANGE, c);
    case ProgramChange(c, p) => StatusByteParts(PROGRAM_CHANGE, c);
    case PitchBend(c, b) =>
      StatusByteParts(PITCH_BEND, c);
      BendSplit(b);
  }

  /** A message whose data bytes are proper 7-bit bytes decodes to a
      well-formed event, and encoding that event gives back the message's
      leading bytes (for Note Off, all but the dropped release velocity). */
  lemma EncodeDecode(msg: seq<Byte>)
    requires Decode(msg).Some?
    requires forall i :: 1 <= i < |msg| ==> msg[i] < 0x80
    ensures WellFormed(Decode(msg).value)
    ensures |Encode(Decode(msg).value)| == MinLength(StatusClass(msg[0])).value
    ensures Encode(Decode(msg).value)[..2] == msg[..2]
    ensures !Decode(msg).value.NoteOff? ==> Encode(Decode(msg).value) == msg[..MinLength(StatusClass(msg[0])).value]
  {
    var e := Decode(msg).value;
    StatusRecompose(msg[0]);
    if e.PitchBend? {
      assert msg[1] < 0x80 && msg[2] < 0x80;
      BendJoin(msg[1], msg[2]);
    }
  }

  lemma StatusRecompose(status: Byte)
    ensures StatusClass(status) | ChannelOf(status) == status
    ensures StatusClass(status) & 0x0F == 0
  {
  }

  lemma BendJoin(lo: Byte, hi: Byte)
    requires lo < 0x80 && hi < 0x80
    ensures BendValue(lo, hi) < 0x4000
    ensures (BendValue(lo, hi) & 0x7F) as Byte == lo
    ensures ((BendValue(lo, hi) >> 7) & 0x7F) as Byte == hi
  {
  }

  // ---------------------------------------------------------------------------
  // The router callback: decode, and forward only what decodes.

  /** The events the router callback forwards for a stream of raw messages,
      in arrival order: the decoded ones, with the `None` results dropped. */
  function Routed(msgs: seq<seq<Byte>>): seq<MidiEvent>
  {
    if msgs == [] then [] else ToSeq(Decode(msgs[0])) + Routed(msgs[1..])
  }

  /** Routing a stream in two parts forwards the two parts' events one after
      the other: the callback can be run message by message. */
  lemma {:induction false} RoutedAppend(a: seq<seq<Byte>>, b: seq<seq<Byte>>)
    ensures Routed(a + b) == Routed(a) + Routed(b)
  {
    if a == [] {
      assert a + b == b;
    } else {
      assert (a + b)[1..] == a[1..] + b;
      RoutedAppend(a[1..], b);
    }
  }

  /** Every forwarded event is the decoding of a received message, no message
      yields more than one event, and when every message decodes nothing is
      dropped: the forwarded events are the decodings, in order. */
  lemma {:induction false} RoutedExactly(msgs: seq<seq<Byte>>)
    ensures |Routed(msgs)| <= |msgs|
    ensures forall e :: e in Routed(msgs) ==> exists m :: m in msgs && Decode(m) == Some(e)
    ensures (forall m :: m in msgs ==> Decode(m).Some?) ==>
              |Routed(msgs)| == |msgs| && forall i :: 0 <= i < |msgs| ==> Some(Routed(msgs)[i]) == Decode(msgs[i])
  {
    if msgs != [] {
      RoutedExactly(msgs[1..]);
      var head := ToSeq(Decode(msgs[0]));
      forall e | e in Routed(msgs)
        ensures exists m :: m in msgs && Decode(m) == Some(e)
      {
        if e in head {
          assert Decode(msgs[0]) == Some(e);
        } else {
          assert e in Routed(msgs[1..]);
          var m :| m in msgs[1..] && Decode(m) == Some(e);
          assert m in msgs;
        }
      }
      if forall m :: m in msgs ==> Decode(m).Some? {
        assert forall m :: m in msgs[1..] ==> m in msgs;
        forall i | 0 <= i < |msgs|
          ensures Some(Routed(msgs)[i]) == Decode(msgs[i])
        {
          if i > 0 {
            assert msgs[i] == msgs[1..][i - 1];
          }
        }
      }
    }
  }

  /** The body of the callback a router registers for its device: decode the
      raw message and, if it decodes, send the event (a send failure is
      ignored; on this unbounded channel sending always succeeds). */
  method OnMessage(tx: Channel.Channel<MidiEvent>, msg: seq<Byte>)
    modifies tx
    ensures tx.pending == old(tx.pending) + Routed([msg])
  {
    var decoded := Decode(msg);
    if decoded.Some? {
      tx.Send(decoded.value);
    }
  }
}
