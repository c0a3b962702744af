/** Conversion of the synthesizer's float samples to 16-bit signed output
    samples on the generic render path (src/audio.rs, lines 102 and 104).
    Floats are modelled as reals: rounding of f32 arithmetic and NaN are not
    represented. */
module Sample {
  import opened Options

  /** A 16-bit signed sample. */
  type I16 = x: int | -32768 <= x <= 32767

  /** Rust's float-to-integer truncation: toward zero. */
  function Trunc(x: real): (r: int)
    ensures x >= 0.0 ==> r as real <= x < r as real + 1.0
    ensures x < 0.0 ==> r as real - 1.0 < x <= r as real
  {
    if x >= 0.0 then x.Floor else -((-x).Floor)
  }

  /** The conversion as written: `i16::from_f32` keeps the value's integer
      part when it lies strictly between -32769 and 32768 and gives `None`
      otherwise, which the callback's `unwrap` turns into a panic. The value
      is not scaled. */
  function FromF32AsWritten(x: real): (r: Option<I16>)
    ensures r.Some? <==> -32769.0 < x < 32768.0
  {
    if -32769.0 < x < 32768.0 then Some(Trunc(x)) else None
  }

  /** A synthesizer sample in the nominal range [-1, 1] comes out as -1, 0 or
      1: the generic path plays full-scale audio at the bottom two bits of the
      16-bit range. */
  lemma AsWrittenCollapsesRange(x: real)
    requires -1.0 <= x <= 1.0
    ensures FromF32AsWritten(x).Some?
    ensures -1 <= FromF32AsWritten(x).value <= 1
    ensures -1.0 < x < 1.0 ==> FromF32AsWritten(x) == Some(0)
  {
  }

  /** `FromF32AsWritten(x).unwrap()` where it does not panic; outside that
      range the value is never used. */
  function Unwrapped(x: real): I16
  {
    if -32769.0 < x < 32768.0 then FromF32AsWritten(x).value else 0
  }

  /** The intended conversion: scale [-1, 1) onto the 16-bit range and
      saturate outside it, so that no sample can panic. */
  function ToI16(x: real): (r: I16)
  {
    var y := Trunc(x * 32768.0);
    if y > 32767 then 32767 else if y < -32768 then -32768 else y
  }

  /** `ToI16` keeps the signal's scale: inside the nominal range it is within
      one step of `32768 * x`, it never decreases as `x` grows, and it is
      total (no sample is refused). */
  lemma ToI16Scales(x: real, y: real)
    ensures -1.0 <= x < 32767.0 / 32768.0 ==> -1.0 < ToI16(x) as real - 32768.0 * x < 1.0
    ensures x <= y ==> ToI16(x) <= ToI16(y)
    ensures ToI16(0.5) == 16384 && ToI16(-1.0) == -32768 && ToI16(1.0) == 32767
  {
    if x <= y {
      TruncMono(x * 32768.0, y * 32768.0);
    }
  }

  lemma TruncMono(a: real, b: real)
    requires a <= b
    ensures Trunc(a) <= Trunc(b)
  {
  }
}
