/** The older transformer of the `oxcable::core` tree. Its tables and its
    butterfly passes are those of the current FFT (module `UtilsFft`), with
    three differences: the bit reversal is always the full 32-bit one, the
    table entry shifts it right in a 64-bit word (so a shift by 32 empties
    it instead of being masked), and a transform first checks the length of
    the output buffer and reports an error instead of writing. Sample values
    stay abstract: the butterfly and the final conjugate-and-normalise step
    of an inverse transform are parameters. */
module CoreFft {
  import opened Types
  import opened Bits
  import opened Queues
  import opened UtilsFft
  import opened Modular

  // The bit reversal of a word.

  /** `bit_reverse(n)`: the mask-and-shift network, which moves bit
      `31 - j` of `n` to bit `j` for every `j`. */
  function ReverseWord(n: bv32): (r: bv32)
    ensures forall j: bv32 :: j < 32 ==> Bit(r, j) == Bit(n, 31 - j)
  {
    SwapNetworkMirrors(n);
    SwapNetwork(n)
  }

  /** The value of the reversed word is the reversal of all 32 bits of
      the value of `n`. */
  lemma ReverseWordValue(n: bv32)
    ensures WordValue(ReverseWord(n)) == Reverse32(WordValue(n))
  {
    SwapNetworkIsReverse32(n);
  }

  /** Reversing a word twice gives it back. */
  lemma ReverseWordInvolution(n: bv32)
    ensures ReverseWord(ReverseWord(n)) == n
  {
    SwapNetworkInvolution(n);
  }

  /** The cases of `test_bit_reverse`. */
  lemma ReverseWordExamples()
    ensures ReverseWord(0x00000000) == 0x00000000
    ensures ReverseWord(0xFFFFFFFF) == 0xFFFFFFFF
    ensures ReverseWord(0x00000001) == 0x80000000
    ensures ReverseWord(0x11111111) == 0x88888888
    ensures ReverseWord(0x234f9e01) == 0x8079f2c4
  {
    SwapNetworkExamples();
  }

  // The bit-reversal table.

  /** Entry `i` of the table for `bufsize` points: the full reversal of
      `i as u32`, widened and shifted right by `32 - int_log(bufsize)`. It is
      the reversal of the low `int_log(bufsize)` bits of the index, for every
      index and every size; for a single point the shift is 32 and the entry
      is 0. */
  function ShiftedEntry(i: nat, bufsize: nat): (e: nat)
    ensures e == TableEntry(i, bufsize)
    ensures Log2Up(bufsize % U32_MODULUS) == 0 ==> e == 0
  {
    var bits := Log2Up(bufsize % U32_MODULUS);
    ShiftedReverse(i % U32_MODULUS, bits);
    ReverseWordValue(WordOf(i % U32_MODULUS));
    Shr(WordValue(ReverseWord(WordOf(i % U32_MODULUS))), 32 - bits)
  }

  /** The table as `new` fills it: one entry per index below the size asked
      for, which is the start of the full table and falls short of it
      whenever that size is not a power of two. */
  function EntriesAsWritten(size: nat): (r: seq<nat>)
    ensures size <= NextPowerOfTwo(size)
    ensures r == Table(size)[..size]
  {
    NextPowerOfTwoSpec(size);
    var r := seq(size, i requires 0 <= i < size => ShiftedEntry(i, NextPowerOfTwo(size)));
    assert forall i :: 0 <= i < size ==> r[i] == Table(size)[i];
    r
  }

  /** With the table as written, the copy at the start of a transform runs
      past the end of the table exactly when the size asked for is not a
      power of two or the input is longer than that size. */
  lemma ShortTablePanics(size: nat, inputLength: nat)
    ensures var bufsize := NextPowerOfTwo(size);
      (CopyInPanics(Transformer(bufsize, EntriesAsWritten(size), Range(bufsize)), inputLength)
       <==> size != bufsize || inputLength > size)
  {
    NextPowerOfTwoSpec(size);
  }

  /** `new(size)` with one table entry per point of the rounded-up size:
      each entry computed as the source does, from the full reversal and
      `int_log`, and twiddle `k` standing for the `k`-th power of the root of
      unity. Up to `2^32` points, the result is ready for transforms. */
  method NewTransformer(size: nat) returns (t: Transformer)
    ensures t.size == NextPowerOfTwo(size) && t.bitReverses == Table(size)
    ensures t.twiddles == Range(t.size)
    ensures size <= U32_MODULUS ==> Ready(t)
  {
    var bufsize := NextPowerOfTwo(size);
    var table := EntryTable(bufsize);
    var twiddles: seq<nat> := [];
    for i := 0 to bufsize
      invariant |twiddles| == i && forall j :: 0 <= j < i ==> twiddles[j] == j
    {
      twiddles := twiddles + [i];
    }
    assert table == Table(size);
    t := Transformer(bufsize, table, twiddles);
    if size <= U32_MODULUS {
      NewIsReady(size);
    }
  }

  /** The table loop of `new`, over `bufsize` indices. */
  method EntryTable(bufsize: nat) returns (table: seq<nat>)
    ensures |table| == bufsize
    ensures forall j :: 0 <= j < bufsize ==> table[j] == TableEntry(j, bufsize)
  {
    table := [];
    for i := 0 to bufsize
      invariant |table| == i && forall j :: 0 <= j < i ==> table[j] == TableEntry(j, bufsize)
    {
      var br := ComputeShiftedEntry(i, bufsize);
      table := table + [br];
    }
  }

  /** The body of the table loop: the full reversal of `i as u32`, widened
      and shifted right by `32 - int_log(bufsize as u32)`. */
  method ComputeShiftedEntry(i: nat, bufsize: nat) returns (br: nat)
    ensures br == TableEntry(i, bufsize)
  {
    var bits := IntLog(bufsize % U32_MODULUS);
    br := Shr(WordValue(ReverseWord(WordOf(i % U32_MODULUS))), 32 - bits);
    assert br == ShiftedEntry(i, bufsize);
  }

  // The transform.

  /** `transform` (and so `fft` and `ifft`): an output buffer shorter than
      the transformer's size is reported as an error before anything is
      written; otherwise its first `size` places receive the spectrum and
      the rest is untouched. An input longer than `size` runs off the
      table, so it is only allowed when the error is reported first. */
  method Transform<T>(t: Transformer, input: seq<T>, output: array<T>, inverse: bool,
                      conj: T -> T, zero: T, bf: (T, T, nat) -> (T, T), normalise: T -> T)
    returns (r: Result<(), ()>)
    requires Ready(t)
    requires output.Length >= t.size ==> |input| <= t.size
    modifies output
    ensures r.Err? <==> output.Length < t.size
    ensures r.Err? ==> output[..] == old(output[..])
    ensures r.Ok? ==> output[..t.size] == Spectrum(t, input, inverse, conj, zero, bf, normalise)
    ensures r.Ok? ==> output[t.size..] == old(output[t.size..])
  {
    if output.Length < t.size {
      return Err(());
    }
    UtilsFft.Transform(t, input, output, inverse, conj, zero, bf, normalise);
    r := Ok(());
  }

  /** `test_fft_output_buffer_too_small`: an 8-point transformer rejects a
      7-place output buffer. */
  method ShortOutputRejected() returns (r: Result<(), ()>)
    ensures r.Err?
  {
    var t := NewTransformer(8);
    var output := new int[7](_ => 0);
    var input := [0, 0, 0, 0, 0, 0, 0, 0];
    r := Transform(t, input, output, false, x => -x, 0, (a: int, b: int, w: nat) => (a + b, a - b), x => x);
  }
}
