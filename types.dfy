/** Definitions shared by every part of the model: time, samples, fixed-width
    integers and optional values. */
module Types {
  /** The global sample rate, in Hz. */
  const SAMPLE_RATE: nat := 44100

  /** A sample time. The source uses a 64-bit counter; it is unbounded here. */
  type Time = nat

  /** One sample. The source uses 32-bit floats; the model uses reals. */
  type Sample = real

  /** One frame: one sample per channel. */
  type Frame = seq<Sample>

  newtype u8 = x: int | 0 <= x < 0x100
  newtype u16 = x: int | 0 <= x < 0x1_0000
  newtype u32 = x: int | 0 <= x < 0x1_0000_0000

  /** 2^64, the modulus of the source's `Time` and `usize` arithmetic. */
  const U64_MODULUS: nat := 0x1_0000_0000_0000_0000

  datatype Option<T> = None | Some(value: T)

  datatype Result<T, E> = Ok(value: T) | Err(error: E)

  /** A gain applied to a sample. Kept as a function so that the solver
      only sees the product where a proof needs it. */
  function Scale(g: real, x: Sample): Sample
  {
    g * x
  }

  /** A frame of `n` silent samples (`vec![0.0; n]`). */
  function Zeros(n: nat): (r: Frame)
    ensures |r| == n
    ensures forall i :: 0 <= i < n ==> r[i] == 0.0
  {
    seq(n, _ => 0.0)
  }

  /** The saturating float-to-unsigned cast `(x * SAMPLE_RATE as f32) as usize`
      (or `as Time`, both 64 bits wide) that turns a duration in seconds
      into a sample count: products at or below 0 become 0, products of
      `2^64` or more become the largest 64-bit value, and the rest are
      truncated toward zero. A NaN, which the cast also sends to 0, has no
      counterpart among the reals. */
  function SecondsToSamples(seconds: real): (r: nat)
    ensures r < U64_MODULUS
    ensures seconds * SAMPLE_RATE as real <= 0.0 ==> r == 0
    ensures 0.0 <= seconds * SAMPLE_RATE as real < U64_MODULUS as real ==>
      r as real <= seconds * SAMPLE_RATE as real < r as real + 1.0
    ensures seconds * SAMPLE_RATE as real >= U64_MODULUS as real ==> r == U64_MODULUS - 1
  {
    var x := seconds * SAMPLE_RATE as real;
    if x <= 0.0 then 0 else if x >= U64_MODULUS as real then U64_MODULUS - 1 else x.Floor
  }
}
