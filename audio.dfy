/** The render side of the bridge (src/audio.rs): the choice of render path
    by the device's sample format, and the render callback that drains the
    event channel into the synthesizer and fills the output buffer chunk by
    chunk. */
module Audio {
  import opened Options
  import Midi
  import Channel
  import Sample

  // ---------------------------------------------------------------------------
  // Sample-format dispatch.

  /** The sample encodings the output device may report. */
  datatype SampleFormat = I8 | I16 | I32 | I64 | U8 | U16 | U32 | U64 | F32 | F64

  /** The two render callbacks: pass-through floats, or the generic callback
      instantiated at 16-bit signed samples. */
  datatype RenderPath = FloatPath | GenericI16Path

  /** The render path chosen for a device format; `None` is the
      "unexpected sample format" panic. Both 16-bit formats, signed and
      unsigned, get the signed 16-bit callback. */
  function PathFor(format: SampleFormat): (r: Option<RenderPath>)
    ensures r == Some(FloatPath) <==> format == F32
    ensures r == Some(GenericI16Path) <==> format == I16 || format == U16
    ensures r.None? <==> format !in {F32, I16, U16}
  {
    match format
    case F32 => Some(FloatPath)
    case I16 | U16 => Some(GenericI16Path)
    case _ => None
  }

  // ---------------------------------------------------------------------------
  // The synthesizer, as a recording stub.

  /** One stereo frame as the synthesizer produces it. */
  datatype Frame<S> = Frame(left: S, right: S)

  /** A call made on the synthesizer. */
  datatype SynthCall = Forward(ev: Midi.MidiEvent) | ReadFrame

  /** A stand-in for the synthesizer: it records every call in `log`, hands
      out the frames of a fixed script in order, and accepts or refuses each
      event according to `accepts`. */
  class Synth<S> {
    var log: seq<SynthCall>
    var produced: nat
    const script: nat -> Frame<S>
    const accepts: Midi.MidiEvent -> bool

    constructor (script: nat -> Frame<S>, accepts: Midi.MidiEvent -> bool)
      ensures log == [] && produced == 0
      ensures this.script == script && this.accepts == accepts
    {
      log, produced := [], 0;
      this.script, this.accepts := script, accepts;
    }

    /** Event intake; `ok` is false when the synthesizer refuses the event. */
    method SendEvent(ev: Midi.MidiEvent) returns (ok: bool)
      modifies this
      ensures log == old(log) + [Forward(ev)] && produced == old(produced)
      ensures ok == accepts(ev)
    {
      log := log + [Forward(ev)];
      ok := accepts(ev);
    }

    /** The next stereo frame of the script. */
    method ReadNext() returns (f: Frame<S>)
      modifies this
      ensures f == script(old(produced))
      ensures produced == old(produced) + 1 && log == old(log) + [ReadFrame]
    {
      f := script(produced);
      produced := produced + 1;
      log := log + [ReadFrame];
    }
  }

  /** The calls that forward `evs`, in order. */
  function Forwarded(evs: seq<Midi.MidiEvent>): seq<SynthCall>
  {
    seq(|evs|, i requires 0 <= i < |evs| => Forward(evs[i]))
  }

  /** `n` frame reads. */
  function Reads(n: nat): seq<SynthCall>
  {
    seq(n, _ => ReadFrame)
  }

  // ---------------------------------------------------------------------------
  // The layout of the output buffer.

  /** The number of chunks of `channels` samples (the last possibly shorter)
      that a buffer of `len` samples splits into. */
  function Chunks(len: nat, channels: nat): nat
    requires channels >= 1
  {
    (len + channels - 1) / channels
  }

  /** `Chunks` is the rounded-up quotient: chunk `k` starts inside the buffer
      exactly when `k` is below it. */
  lemma ChunksCeil(len: nat, channels: nat, k: nat)
    requires channels >= 1
    ensures k * channels < len <==> k < Chunks(len, channels)
  {
    var n := Chunks(len, channels);
    var m := len + channels - 1;
    assert n * channels <= m < n * channels + channels;
    if k < n {
      assert k <= n - 1;
      MulMono(k, n - 1, channels);
      assert (n - 1) * channels == n * channels - channels;
    } else {
      MulMono(n, k, channels);
    }
  }

  lemma MulMono(a: nat, b: nat, c: nat)
    requires a <= b
    ensures a * c <= b * c
  {
  }

  /** A buffer of `frames` frames of `channels` samples each splits into
      exactly `frames` chunks. */
  lemma ChunksOfWholeFrames(frames: nat, channels: nat)
    requires channels >= 1
    ensures Chunks(frames * channels, channels) == frames
  {
    ChunksCeil(frames * channels, channels, frames);
    if frames > 0 {
      ChunksCeil(frames * channels, channels, frames - 1);
      assert (frames - 1) * channels == frames * channels - channels;
    }
  }

  /** The last chunk has at least two samples whenever there is more than one
      channel: the condition under which writing slot 1 of every chunk stays
      inside the buffer. */
  predicate FitsChunks(len: nat, channels: nat)
  {
    channels >= 1 && (channels > 1 ==> len % channels != 1)
  }

  /** The buffer after rendering, position by position: slot 0 of chunk `k`
      holds the left sample of frame `k`, slot 1 its right sample, and every
      other slot keeps what it held. */
  function Scatter<T>(buf: seq<T>, channels: nat, frames: seq<Frame<T>>): (out: seq<T>)
    requires channels >= 1 && |frames| == Chunks(|buf|, channels)
  {
    seq(|buf|, i requires 0 <= i < |buf| =>
      ChunksCeil(|buf|, channels, i / channels);
      if i % channels == 0 then frames[i / channels].left
      else if i % channels == 1 then frames[i / channels].right
      else buf[i])
  }

  lemma ChunkOffset(k: nat, channels: nat, j: nat)
    requires j < channels
    ensures (k * channels + j) / channels == k && (k * channels + j) % channels == j
  {
    var x := k * channels + j;
    var q, r := x / channels, x % channels;
    assert x == q * channels + r;
    if q > k {
      MulMono(k + 1, q, channels);
    } else if q < k {
      MulMono(q + 1, k, channels);
    }
  }

  /** What the scatter does to chunk `k`: its slot 0 gets the left sample,
      its slot 1 (only when there is more than one channel) the right sample,
      and slots 2 and up are untouched. */
  lemma ScatterChunk<T>(buf: seq<T>, channels: nat, frames: seq<Frame<T>>, k: nat, j: nat)
    requires channels >= 1 && |frames| == Chunks(|buf|, channels)
    requires j < channels && k * channels + j < |buf|
    ensures k < |frames|
    ensures j == 0 ==> Scatter(buf, channels, frames)[k * channels] == frames[k].left
    ensures j == 1 ==> Scatter(buf, channels, frames)[k * channels + 1] == frames[k].right
    ensures j >= 2 ==> Scatter(buf, channels, frames)[k * channels + j] == buf[k * channels + j]
  {
    ChunkOffset(k, channels, j);
    ChunksCeil(|buf|, channels, k);
  }

  /** The scatter chunk by chunk, over the whole buffer: it keeps the
      buffer's length, slot 0 of chunk `k` holds frame `k`'s left sample, slot
      1 (which exists in every chunk when the layout fits and there is more
      than one channel) its right sample, and every slot at offset 2 or more
      within its chunk keeps its old value. */
  lemma ScatterSlots<T>(buf: seq<T>, channels: nat, frames: seq<Frame<T>>)
    requires FitsChunks(|buf|, channels) && |frames| == Chunks(|buf|, channels)
    ensures |Scatter(buf, channels, frames)| == |buf|
    ensures forall k :: 0 <= k < |frames| ==>
              k * channels < |buf| && Scatter(buf, channels, frames)[k * channels] == frames[k].left
    ensures channels > 1 ==> forall k :: 0 <= k < |frames| ==>
              k * channels + 1 < |buf| && Scatter(buf, channels, frames)[k * channels + 1] == frames[k].right
    ensures forall i :: 0 <= i < |buf| && i % channels >= 2 ==> Scatter(buf, channels, frames)[i] == buf[i]
  {
    forall k | 0 <= k < |frames|
      ensures k * channels < |buf| && Scatter(buf, channels, frames)[k * channels] == frames[k].left
      ensures channels > 1 ==> k * channels + 1 < |buf| && Scatter(buf, channels, frames)[k * channels + 1] == frames[k].right
    {
      ChunksCeil(|buf|, channels, k);
      ScatterChunk(buf, channels, frames, k, 0);
      if channels > 1 {
        EveryChunkHasSlotOne(|buf|, channels, k);
        ScatterChunk(buf, channels, frames, k, 1);
      }
    }
  }

  /** Under `FitsChunks`, every chunk has a slot 1 when there is more than one
      channel. */
  lemma EveryChunkHasSlotOne(len: nat, channels: nat, k: nat)
    requires FitsChunks(len, channels) && channels > 1 && k < Chunks(len, channels)
    ensures k * channels + 1 < len
  {
    ChunksCeil(len, channels, k);
    ChunkOffset(k, channels, 1);
  }

  /** A last chunk of a single sample with several channels: slot 1 of that
      chunk is past the end of the buffer, which is the out-of-bounds case
      `FitsChunks` excludes. */
  lemma ShortLastChunk(channels: nat, k: nat)
    requires channels > 1
    ensures !FitsChunks(k * channels + 1, channels)
    ensures Chunks(k * channels + 1, channels) == k + 1
  {
    ChunkOffset(k, channels, 1);
    ChunksCeil(k * channels + 1, channels, k);
    ChunksCeil(k * channels + 1, channels, k + 1);
    assert (k + 1) * channels == k * channels + channels;
  }

  /** The frames the render writes: the next `n` frames of the script from
      position `from`, converted to the output's sample type. */
  function Converted<S, T>(script: nat -> Frame<S>, from: nat, n: nat, convert: S -> T): seq<Frame<T>>
  {
    seq(n, k requires 0 <= k < n => Frame(convert(script(from + k).left), convert(script(from + k).right)))
  }

  // ---------------------------------------------------------------------------
  // The render callback.

  /** One invocation of the render callback. Both source callbacks are this
      method: the float one with `convert` the identity, the generic one with
      `convert` the sample conversion. It first forwards every queued event to
      the synthesizer, in order, until the queue is empty; only then does it
      read one frame per chunk of `channels` samples and scatter it into the
      chunk. */
  method Render<S, T>(rx: Channel.Channel<Midi.MidiEvent>, synth: Synth<S>, output: array<T>,
                      channels: nat, convert: S -> T)
    requires FitsChunks(output.Length, channels)
    modifies rx, synth, output
    ensures rx.pending == []
    ensures synth.produced == old(synth.produced) + Chunks(output.Length, channels)
    ensures synth.log == old(synth.log) + Forwarded(old(rx.pending)) + Reads(Chunks(output.Length, channels))
    ensures output[..] == Scatter(old(output[..]), channels,
                                  Converted(synth.script, old(synth.produced), Chunks(output.Length, channels), convert))
  {
    Drain(rx, synth);
    FillChunks(synth, output, channels, convert);
  }

  /** The float callback: samples pass through unchanged. */
  method RenderF32<S>(rx: Channel.Channel<Midi.MidiEvent>, synth: Synth<S>, output: array<S>, channels: nat)
    requires FitsChunks(output.Length, channels)
    modifies rx, synth, output
    ensures rx.pending == []
    ensures synth.produced == old(synth.produced) + Chunks(output.Length, channels)
    ensures synth.log == old(synth.log) + Forwarded(old(rx.pending)) + Reads(Chunks(output.Length, channels))
    ensures output[..] == Scatter(old(output[..]), channels,
                                  Converted(synth.script, old(synth.produced), Chunks(output.Length, channels), x => x))
  {
    Render(rx, synth, output, channels, x => x);
  }

  /** The generic callback at 16-bit signed samples, with every float sample
      scaled onto the 16-bit range (`Sample.ToI16`). */
  method RenderI16(rx: Channel.Channel<Midi.MidiEvent>, synth: Synth<real>, output: array<Sample.I16>, channels: nat)
    requires FitsChunks(output.Length, channels)
    modifies rx, synth, output
    ensures rx.pending == []
    ensures synth.produced == old(synth.produced) + Chunks(output.Length, channels)
    ensures synth.log == old(synth.log) + Forwarded(old(rx.pending)) + Reads(Chunks(output.Length, channels))
    ensures output[..] == Scatter(old(output[..]), channels,
                                  Converted(synth.script, old(synth.produced), Chunks(output.Length, channels), Sample.ToI16))
  {
    Render(rx, synth, output, channels, Sample.ToI16);
  }

  /** The samples of frame `f` that the generic callback writes, left always
      and right only with more than one channel, survive its `unwrap`. */
  predicate WrittenAsI16(f: Frame<real>, channels: nat)
  {
    Sample.FromF32AsWritten(f.left).Some? && (channels > 1 ==> Sample.FromF32AsWritten(f.right).Some?)
  }

  /** The generic callback at 16-bit signed samples as written: every float
      sample is truncated by `Sample.FromF32AsWritten` without scaling. The
      callback panics on a frame whose written samples fall outside the
      16-bit range; `requires` admits exactly the frames it survives. */
  method RenderI16AsWritten(rx: Channel.Channel<Midi.MidiEvent>, synth: Synth<real>, output: array<Sample.I16>,
                            channels: nat)
    requires FitsChunks(output.Length, channels)
    requires forall k :: synth.produced <= k < synth.produced + Chunks(output.Length, channels) ==>
               WrittenAsI16(synth.script(k), channels)
    modifies rx, synth, output
    ensures rx.pending == []
    ensures synth.produced == old(synth.produced) + Chunks(output.Length, channels)
    ensures synth.log == old(synth.log) + Forwarded(old(rx.pending)) + Reads(Chunks(output.Length, channels))
    ensures output[..] == Scatter(old(output[..]), channels,
                                  Converted(synth.script, old(synth.produced), Chunks(output.Length, channels),
                                            Sample.Unwrapped))
    ensures forall k :: old(synth.produced) <= k < synth.produced ==>
              Sample.FromF32AsWritten(synth.script(k).left) == Some(Sample.Unwrapped(synth.script(k).left)) &&
              (channels > 1 ==>
                 Sample.FromF32AsWritten(synth.script(k).right) == Some(Sample.Unwrapped(synth.script(k).right)))
  {
    Render(rx, synth, output, channels, Sample.Unwrapped);
  }

  /** The drain loop: receive until the queue is empty, forwarding every event
      and ignoring the synthesizer's refusals. */
  method Drain<S>(rx: Channel.Channel<Midi.MidiEvent>, synth: Synth<S>)
    modifies rx, synth
    ensures rx.pending == []
    ensures synth.log == old(synth.log) + Forwarded(old(rx.pending))
    ensures synth.produced == old(synth.produced)
  {
    ghost var drained: seq<Midi.MidiEvent> := [];
    var next := rx.TryRecv();
    while next.Some?
      invariant old(rx.pending) == drained + ToSeq(next) + rx.pending
      invariant next.None? ==> rx.pending == []
      invariant synth.log == old(synth.log) + Forwarded(drained)
      invariant synth.produced == old(synth.produced)
      decreases |rx.pending| + |ToSeq(next)|
    {
      var _ := synth.SendEvent(next.value);
      drained := drained + [next.value];
      next := rx.TryRecv();
    }
    assert drained == old(rx.pending);
  }

  /** The chunk loop: for each chunk of `channels` samples, read one frame and
      write its left sample to slot 0 and, with more than one channel, its
      right sample to slot 1. */
  method FillChunks<S, T>(synth: Synth<S>, output: array<T>, channels: nat, convert: S -> T)
    requires FitsChunks(output.Length, channels)
    modifies synth, output
    ensures synth.produced == old(synth.produced) + Chunks(output.Length, channels)
    ensures synth.log == old(synth.log) + Reads(Chunks(output.Length, channels))
    ensures output[..] == Scatter(old(output[..]), channels,
                                  Converted(synth.script, old(synth.produced), Chunks(output.Length, channels), convert))
  {
    var n := Chunks(output.Length, channels);
    ghost var frames := Converted(synth.script, synth.produced, n, convert);
    for k := 0 to n
      invariant synth.produced == old(synth.produced) + k
      invariant synth.log == old(synth.log) + Reads(k)
      invariant forall i :: 0 <= i < output.Length ==>
                  output[i] == if i < k * channels then Scatter(old(output[..]), channels, frames)[i] else old(output[i])
    {
      ChunksCeil(output.Length, channels, k);
      var start := k * channels;
      var f := synth.ReadNext();
      output[start] := convert(f.left);
      if channels > 1 {
        EveryChunkHasSlotOne(output.Length, channels, k);
        output[start + 1] := convert(f.right);
      }
      forall i | 0 <= i < output.Length
        ensures output[i] == if i < (k + 1) * channels then Scatter(old(output[..]), channels, frames)[i] else old(output[i])
      {
        if start <= i < start + channels {
          ScatterChunk(old(output[..]), channels, frames, k, i - start);
        }
      }
    }
    ChunksCeil(output.Length, channels, n);
  }
}
