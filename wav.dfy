/** WAV file input and output: the 44-byte RIFF WAVE header of a 16-bit PCM
    file ('RIFF' chunk, 'fmt ' chunk with WAVE_FORMAT_PCM, 'data' chunk, as
    the WAVE form is defined in the Multimedia Programming Interface and Data
    Specifications 1.0), its little-endian encoding, its validation, and the
    byte accounting of the reader and the writer devices. Files are byte
    sequences in memory; the conversions between samples and 16-bit integers
    are parameters. Header arithmetic wraps at 16 and 32 bits as the source's
    fixed-width integers do in a release build. */
module Wav {
  import opened Types
  import opened Errors
  import opened Modular

  /** 'RIFF', 'WAVE', 'fmt ' and 'data' read as little-endian words. */
  const RIFF: u32 := 0x46464952
  const WAVE: u32 := 0x45564157
  const FMT_: u32 := 0x20746d66
  const DATA: u32 := 0x61746164

  /** The header's size in bytes, where the sample data starts. */
  const HEADER_SIZE: nat := 44

  /** `x` reduced to 32 bits. */
  function Wrap32(x: nat): (r: u32)
    ensures x < 0x1_0000_0000 ==> r as int == x
  {
    (x % 0x1_0000_0000) as u32
  }

  /** `x` reduced to 16 bits. */
  function Wrap16(x: nat): (r: u16)
    ensures x < 0x1_0000 ==> r as int == x
  {
    (x % 0x1_0000) as u16
  }

  datatype Header = Header(
    riffHdr: u32, fileSize: u32, waveLbl: u32, fmtHdr: u32, sectionSize: u32,
    format: u16, numChannels: u16, sampleRate: u32, byteRate: u32,
    blockAlign: u16, bitDepth: u16, dataHdr: u32, dataSize: u32)

  /** `sample_rate * channels * bit_depth / 8` in 32-bit arithmetic. */
  function ByteRate(sampleRate: u32, numChannels: u16, bitDepth: u16): u32
  {
    Wrap32(Wrap32(sampleRate as nat * numChannels as nat) as nat * bitDepth as nat) / 8
  }

  /** `channels * bit_depth / 8` in 16-bit arithmetic. */
  function BlockAlign(numChannels: u16, bitDepth: u16): u16
  {
    Wrap16(numChannels as nat * bitDepth as nat) / 8
  }

  /** `data_size + 36` in 32-bit arithmetic. */
  function FileSize(dataSize: u32): u32
  {
    Wrap32(dataSize as nat + 36)
  }

  /** `WavHeader::new(channels, rate, data_size)`: a 16-bit PCM header. */
  function NewHeader(numChannels: u16, sampleRate: u32, dataSize: u32): Header
  {
    Header(RIFF, FileSize(dataSize), WAVE, FMT_, 16, 1, numChannels, sampleRate,
      ByteRate(sampleRate, numChannels, 16), BlockAlign(numChannels, 16), 16, DATA, dataSize)
  }

  /** When nothing overflows, `new` fills in the sizes the WAVE form
      requires: the RIFF size is the data size plus 36, the byte rate is the
      rate times two bytes per channel, a block is two bytes per channel. */
  lemma NewHeaderFields(numChannels: u16, sampleRate: u32, dataSize: u32)
    requires dataSize as nat + 36 < 0x1_0000_0000
    requires sampleRate as nat * numChannels as nat * 16 < 0x1_0000_0000
    requires numChannels as nat * 16 < 0x1_0000
    ensures var h := NewHeader(numChannels, sampleRate, dataSize);
      && h.fileSize as nat == dataSize as nat + 36
      && h.byteRate as nat == sampleRate as nat * numChannels as nat * 2
      && h.blockAlign as nat == numChannels as nat * 2
      && h.format == 1 && h.bitDepth == 16 && h.sectionSize == 16
  {
    var p := sampleRate as nat * numChannels as nat;
    assert p <= p * 16;
    assert Wrap32(p) as nat == p;
    assert (p * 16) / 8 == p * 2;
  }

  /** The chunk magics and the sizes agree with each other. */
  predicate WellFormed(h: Header)
  {
    && h.riffHdr == RIFF && h.waveLbl == WAVE && h.fmtHdr == FMT_ && h.dataHdr == DATA
    && h.fileSize == FileSize(h.dataSize) && h.sectionSize == 16
    && h.byteRate == ByteRate(h.sampleRate, h.numChannels, h.bitDepth)
    && h.blockAlign == BlockAlign(h.numChannels, h.bitDepth)
  }

  /** The only format read: 16-bit PCM at the library's sample rate. */
  predicate Supported(h: Header)
  {
    h.format == 1 && h.sampleRate as nat == SAMPLE_RATE && h.bitDepth == 16
  }

  /** `check` as written: magics, then sizes, then the supported format. */
  function CheckAsWritten(h: Header): Result<Header, Error>
  {
    if h.riffHdr != RIFF then Err(InvalidFile)
    else if h.waveLbl != WAVE then Err(InvalidFile)
    else if h.fmtHdr != FMT_ then Err(InvalidFile)
    else if h.dataHdr != DATA then Err(InvalidFile)
    else if h.fileSize != FileSize(h.dataSize) then Err(InvalidFile)
    else if h.sectionSize != 16 then Err(InvalidFile)
    else if h.byteRate != ByteRate(h.sampleRate, h.numChannels, h.bitDepth) then Err(InvalidFile)
    else if h.blockAlign != BlockAlign(h.numChannels, h.bitDepth) then Err(InvalidFile)
    else if h.format != 1 then Err(Unsupported("Only PCM is supported"))
    else if h.sampleRate as nat != SAMPLE_RATE then Err(Unsupported("Sample rate conversion not supported"))
    else if h.bitDepth != 16 then Err(Unsupported("Only 16-bit supported"))
    else Ok(h)
  }

  /** `check` accepts a header, unchanged, exactly when it is well formed
      and supported; a malformed header is an invalid file, whatever its
      format, and a well-formed one in another format is unsupported. */
  lemma CheckAsWrittenSpec(h: Header)
    ensures CheckAsWritten(h).Ok? <==> WellFormed(h) && Supported(h)
    ensures CheckAsWritten(h).Ok? ==> CheckAsWritten(h).value == h
    ensures !WellFormed(h) ==> CheckAsWritten(h) == Err(InvalidFile)
    ensures WellFormed(h) && !Supported(h) ==> CheckAsWritten(h).Err? && CheckAsWritten(h).error.Unsupported?
  {
  }

  /** As written, a header announcing no channels passes `check`, after
      which `WavReader::new` divides the data size by the channel count,
      zero. */
  lemma ZeroChannelsPass(dataSize: u32)
    ensures var h := NewHeader(0, SAMPLE_RATE as u32, dataSize);
      CheckAsWritten(h) == Ok(h) && h.numChannels == 0
  {
  }

  /** `check` also rejecting a header without channels, the one it cannot
      read samples from. */
  function Check(h: Header): (r: Result<Header, Error>)
  {
    if CheckAsWritten(h).Ok? && h.numChannels == 0 then Err(InvalidFile) else CheckAsWritten(h)
  }

  /** The corrected `check` accepts exactly the supported, well-formed headers
      with at least one channel and keeps the as-written errors otherwise, so
      that the reader's sample count is always defined. */
  lemma CheckSpec(h: Header)
    ensures Check(h).Ok? <==> WellFormed(h) && Supported(h) && h.numChannels > 0
    ensures Check(h).Ok? ==> Check(h).value == h && Readable(h)
    ensures h.numChannels > 0 ==> Check(h) == CheckAsWritten(h)
    ensures Check(h).Err? ==> Check(h).error == InvalidFile || Check(h).error.Unsupported?
  {
    CheckAsWrittenSpec(h);
  }

  /** What a reader needs of its header: 16-bit samples and at least one
      channel, the two divisors of its sample count. */
  predicate Readable(h: Header)
  {
    h.bitDepth == 16 && h.numChannels > 0
  }

  /** A header made by `new` for a supported rate with channels passes. */
  lemma NewHeaderPasses(numChannels: u16, dataSize: u32)
    requires numChannels > 0
    ensures var h := NewHeader(numChannels, SAMPLE_RATE as u32, dataSize); Check(h) == Ok(h)
  {
    CheckSpec(NewHeader(numChannels, SAMPLE_RATE as u32, dataSize));
  }

  /** The four little-endian bytes of a 32-bit word. */
  function Le32(x: u32): (r: seq<u8>)
    ensures |r| == 4
  {
    var v := x as nat;
    [(v % 0x100) as u8, (v / 0x100 % 0x100) as u8, (v / 0x100 / 0x100 % 0x100) as u8, (v / 0x100 / 0x100 / 0x100) as u8]
  }

  /** The two little-endian bytes of a 16-bit word. */
  function Le16(x: u16): (r: seq<u8>)
    ensures |r| == 2
  {
    [(x as nat % 0x100) as u8, (x as nat / 0x100) as u8]
  }

  /** The 32-bit word stored little-endian at `b[k..k+4]`. */
  function U32At(b: seq<u8>, k: nat): u32
    requires k + 4 <= |b|
  {
    (b[k] as nat + 0x100 * b[k + 1] as nat + 0x1_0000 * b[k + 2] as nat + 0x100_0000 * b[k + 3] as nat) as u32
  }

  /** The 16-bit word stored little-endian at `b[k..k+2]`. */
  function U16At(b: seq<u8>, k: nat): u16
    requires k + 2 <= |b|
  {
    (b[k] as nat + 0x100 * b[k + 1] as nat) as u16
  }

  lemma Le32RoundTrip(x: u32)
    ensures U32At(Le32(x), 0) == x
  {
    var v := x as nat;
    var q1 := v / 0x100;
    var q2 := q1 / 0x100;
    var q3 := q2 / 0x100;
    assert v == v % 0x100 + 0x100 * q1;
    assert q1 == q1 % 0x100 + 0x100 * q2;
    assert q2 == q2 % 0x100 + 0x100 * q3;
  }

  lemma Le16RoundTrip(x: u16)
    ensures U16At(Le16(x), 0) == x
  {
  }

  /** `write_to_file`: the thirteen fields in order, little-endian. */
  function Encode(h: Header): (r: seq<u8>)
    ensures |r| == HEADER_SIZE
  {
    Le32(h.riffHdr) + Le32(h.fileSize) + Le32(h.waveLbl) + Le32(h.fmtHdr) + Le32(h.sectionSize)
    + Le16(h.format) + Le16(h.numChannels) + Le32(h.sampleRate) + Le32(h.byteRate)
    + Le16(h.blockAlign) + Le16(h.bitDepth) + Le32(h.dataHdr) + Le32(h.dataSize)
  }

  /** The fields of the first 44 bytes of `b`, read in order. */
  function Parse(b: seq<u8>): Header
    requires |b| >= HEADER_SIZE
  {
    Header(U32At(b, 0), U32At(b, 4), U32At(b, 8), U32At(b, 12), U32At(b, 16),
      U16At(b, 20), U16At(b, 22), U32At(b, 24), U32At(b, 28),
      U16At(b, 32), U16At(b, 34), U32At(b, 36), U32At(b, 40))
  }

  /** A word read back from where it was written. */
  lemma U32Back(b: seq<u8>, k: nat, x: u32)
    requires k + 4 <= |b| && b[k..k + 4] == Le32(x)
    ensures U32At(b, k) == x
  {
    assert b[k] == Le32(x)[0] && b[k + 1] == Le32(x)[1] && b[k + 2] == Le32(x)[2] && b[k + 3] == Le32(x)[3];
    Le32RoundTrip(x);
  }

  lemma U16Back(b: seq<u8>, k: nat, x: u16)
    requires k + 2 <= |b| && b[k..k + 2] == Le16(x)
    ensures U16At(b, k) == x
  {
    assert b[k] == Le16(x)[0] && b[k + 1] == Le16(x)[1];
    Le16RoundTrip(x);
  }

  /** Reading the 44 bytes `write_to_file` emits, whatever follows them,
      gives back every field. */
  lemma ParseEncode(h: Header, rest: seq<u8>)
    ensures Parse(Encode(h) + rest) == h
  {
    var b := Encode(h) + rest;
    assert b[0..4] == Le32(h.riffHdr);
    assert b[4..8] == Le32(h.fileSize);
    assert b[8..12] == Le32(h.waveLbl);
    assert b[12..16] == Le32(h.fmtHdr);
    assert b[16..20] == Le32(h.sectionSize);
    assert b[20..22] == Le16(h.format);
    assert b[22..24] == Le16(h.numChannels);
    assert b[24..28] == Le32(h.sampleRate);
    assert b[28..32] == Le32(h.byteRate);
    assert b[32..34] == Le16(h.blockAlign);
    assert b[34..36] == Le16(h.bitDepth);
    assert b[36..40] == Le32(h.dataHdr);
    assert b[40..44] == Le32(h.dataSize);
    U32Back(b, 0, h.riffHdr);
    U32Back(b, 4, h.fileSize);
    U32Back(b, 8, h.waveLbl);
    U32Back(b, 12, h.fmtHdr);
    U32Back(b, 16, h.sectionSize);
    U16Back(b, 20, h.format);
    U16Back(b, 22, h.numChannels);
    U32Back(b, 24, h.sampleRate);
    U32Back(b, 28, h.byteRate);
    U16Back(b, 32, h.blockAlign);
    U16Back(b, 34, h.bitDepth);
    U32Back(b, 36, h.dataHdr);
    U32Back(b, 40, h.dataSize);
  }

  /** `read_from_file`: thirteen little-endian reads, then `check`. Running
      out of bytes on any read is the byte-order library's unexpected end
      of data, which converts to an invalid file. */
  function ReadHeader(b: seq<u8>): Result<Header, Error>
  {
    if |b| < HEADER_SIZE then Err(FromByteOrder(UnexpectedEof)) else Check(Parse(b))
  }

  /** A file shorter than a header is an invalid file. */
  lemma TruncatedIsInvalid(b: seq<u8>)
    requires |b| < HEADER_SIZE
    ensures ReadHeader(b) == Err(InvalidFile)
  {
  }

  /** Reading what `write_to_file` wrote checks the header that was written. */
  lemma ReadWritten(h: Header, rest: seq<u8>)
    ensures ReadHeader(Encode(h) + rest) == Check(h)
  {
    ParseEncode(h, rest);
  }

  /** The header of `test_read_wav_header` and `test_wav_writer`: two
      channels, four data bytes, in the bytes the tests spell out. */
  lemma TestHeaderBytes()
    ensures Encode(NewHeader(2, SAMPLE_RATE as u32, 4)) ==
      [0x52, 0x49, 0x46, 0x46, 0x28, 0x00, 0x00, 0x00, 0x57, 0x41,
       0x56, 0x45, 0x66, 0x6D, 0x74, 0x20, 0x10, 0x00, 0x00, 0x00,
       0x01, 0x00, 0x02, 0x00, 0x44, 0xAC, 0x00, 0x00, 0x10, 0xB1,
       0x02, 0x00, 0x04, 0x00, 0x10, 0x00, 0x64, 0x61, 0x74, 0x61,
       0x04, 0x00, 0x00, 0x00]
  {
    TestHeaderFields();
    TestWords();
  }

  lemma TestHeaderFields()
    ensures NewHeader(2, SAMPLE_RATE as u32, 4) == Header(RIFF, 40, WAVE, FMT_, 16, 1, 2, 44100, 176400, 4, 16, DATA, 4)
  {
  }

  lemma TestWords()
    ensures Le32(RIFF) == [0x52, 0x49, 0x46, 0x46] && Le32(40) == [0x28, 0x00, 0x00, 0x00]
    ensures Le32(WAVE) == [0x57, 0x41, 0x56, 0x45] && Le32(FMT_) == [0x66, 0x6D, 0x74, 0x20]
    ensures Le32(16) == [0x10, 0x00, 0x00, 0x00] && Le16(1) == [0x01, 0x00] && Le16(2) == [0x02, 0x00]
    ensures Le32(44100) == [0x44, 0xAC, 0x00, 0x00] && Le32(176400) == [0x10, 0xB1, 0x02, 0x00]
    ensures Le16(4) == [0x04, 0x00] && Le16(16) == [0x10, 0x00]
    ensures Le32(DATA) == [0x64, 0x61, 0x74, 0x61] && Le32(4) == [0x04, 0x00, 0x00, 0x00]
  {
  }

  /** A signed 16-bit sample. */
  type I16 = x: int | -0x8000 <= x < 0x8000

  /** The two little-endian bytes of a sample in two's complement. */
  function SampleBytes(x: I16): (r: seq<u8>)
    ensures |r| == 2
  {
    var v := if x < 0 then x + 0x1_0000 else x;
    [(v % 0x100) as u8, (v / 0x100) as u8]
  }

  /** The sample stored little-endian at `b[k..k+2]`. */
  function SampleAt(b: seq<u8>, k: nat): I16
    requires k + 2 <= |b|
  {
    var v := b[k] as int + 0x100 * b[k + 1] as int;
    if v >= 0x8000 then v - 0x1_0000 else v
  }

  /** Every sample reads back from its two bytes. */
  lemma SampleRoundTrip(b: seq<u8>, k: nat, x: I16)
    requires k + 2 <= |b| && b[k] == SampleBytes(x)[0] && b[k + 1] == SampleBytes(x)[1]
    ensures SampleAt(b, k) == x
  {
  }

  /** A frame of `n` samples read from `b` at `pos`, converted. */
  function ReadFrame(b: seq<u8>, pos: nat, n: nat, convert: I16 -> Sample): (r: Frame)
    requires pos + 2 * n <= |b|
    ensures |r| == n
    ensures forall i :: 0 <= i < n ==> r[i] == convert(SampleAt(b, pos + 2 * i))
  {
    seq(n, i requires 0 <= i < n => convert(SampleAt(b, pos + 2 * i)))
  }

  /** The bytes of a frame, sample by sample. */
  function FrameBytes(f: Frame, quantize: Sample -> I16): (r: seq<u8>)
    ensures |r| == 2 * |f|
    decreases |f|
  {
    if f == [] then [] else SampleBytes(quantize(f[0])) + FrameBytes(f[1..], quantize)
  }

  /** Reading a frame back from its bytes gives each sample quantized. */
  lemma {:induction false} ReadFrameBytes(pre: seq<u8>, f: Frame, post: seq<u8>, quantize: Sample -> I16, i: nat)
    requires i < |f|
    ensures var b := pre + FrameBytes(f, quantize) + post;
      SampleAt(b, |pre| + 2 * i) == quantize(f[i])
    decreases i
  {
    var b := pre + FrameBytes(f, quantize) + post;
    var rest := FrameBytes(f[1..], quantize);
    assert FrameBytes(f, quantize) == SampleBytes(quantize(f[0])) + rest;
    if i == 0 {
      SampleRoundTrip(b, |pre|, quantize(f[0]));
    } else {
      var pre' := pre + SampleBytes(quantize(f[0]));
      assert b == pre' + rest + post;
      ReadFrameBytes(pre', f[1..], post, quantize, i - 1);
    }
  }

  /** `WavReader` over the bytes of a file. */
  class WavReader {
    const numChannels: nat
    const numSamples: nat
    /** The file contents and the read position in them. */
    const file: seq<u8>
    const convert: I16 -> Sample
    var samplesRead: nat
    var pos: nat

    /** The position follows the samples read: two bytes per channel for
        every sample read while there were samples left. */
    ghost predicate Valid()
      reads this
    {
      pos == HEADER_SIZE + 2 * numChannels * Min(samplesRead, numSamples) && HEADER_SIZE <= |file|
    }

    /** The reader right after a header that passed `check`. */
    constructor FromHeader(h: Header, file: seq<u8>, convert: I16 -> Sample)
      requires Readable(h) && |file| >= HEADER_SIZE
      ensures Valid() && this.file == file && this.convert == convert
      ensures numChannels == h.numChannels as nat && samplesRead == 0 && pos == HEADER_SIZE
      ensures numSamples == h.dataSize as nat / 2 / h.numChannels as nat
    {
      var bytesPerSample := h.bitDepth as nat / 8;
      assert bytesPerSample == 2;
      numChannels := h.numChannels as nat;
      numSamples := h.dataSize as nat / bytesPerSample / h.numChannels as nat;
      this.file := file;
      this.convert := convert;
      samplesRead := 0;
      pos := HEADER_SIZE;
      new;
      PosStart(numChannels, numSamples);
    }

    /** `get_num_samples`. */
    function NumSamples(): nat
      reads this
    {
      numSamples
    }

    /** `is_done`: every announced sample has been read. */
    predicate IsDone()
      reads this
    {
      samplesRead >= numSamples
    }

    function NumInputs(): nat
    {
      0
    }

    function NumOutputs(): nat
    {
      numChannels
    }

    /** `restart`: back to the first sample, at byte 44. */
    method Restart() returns (offset: nat)
      requires Valid()
      modifies this
      ensures Valid() && samplesRead == 0 && pos == HEADER_SIZE && offset == HEADER_SIZE
      ensures !IsDone() <==> numSamples > 0
    {
      samplesRead := 0;
      pos := HEADER_SIZE;
      offset := pos;
    }

    /** `tick`: the next frame while samples remain, silence afterwards. A
        file shorter than its header announces makes the source's `expect`
        panic, so the bytes of the next frame must be there. */
    method Tick(t: Time) returns (outputs: Frame)
      requires Valid()
      requires samplesRead < numSamples ==> pos + 2 * numChannels <= |file|
      modifies this
      ensures Valid() && samplesRead == old(samplesRead) + 1
      ensures old(samplesRead) < numSamples ==>
        outputs == ReadFrame(file, old(pos), numChannels, convert) && pos == old(pos) + 2 * numChannels
      ensures old(samplesRead) >= numSamples ==> outputs == Zeros(numChannels) && pos == old(pos)
    {
      var more := samplesRead < numSamples;
      var p := pos;
      var frame: Frame := [];
      for i := 0 to numChannels
        invariant |frame| == i
        invariant more ==> p == old(pos) + 2 * i && frame == ReadFrame(file, old(pos), i, convert)
        invariant !more ==> p == old(pos) && frame == Zeros(i)
      {
        var s: Sample;
        if more {
          s := convert(SampleAt(file, p));
          p := p + 2;
        } else {
          s := 0.0;
        }
        frame := frame + [s];
      }
      outputs := frame;
      PosStep(numChannels, samplesRead, numSamples);
      pos := p;
      samplesRead := samplesRead + 1;
    }
  }

  function Min(a: nat, b: nat): nat
  {
    if a < b then a else b
  }

  lemma PosStart(n: nat, total: nat)
    ensures HEADER_SIZE + 2 * n * Min(0, total) == HEADER_SIZE
  {
  }

  /** One more tick moves the position by a frame while samples remain. */
  lemma PosStep(n: nat, done: nat, total: nat)
    ensures done < total ==> 2 * n * Min(done + 1, total) == 2 * n * Min(done, total) + 2 * n
    ensures done >= total ==> Min(done + 1, total) == Min(done, total)
  {
  }

  /** `WavReader::new`: the header, then a reader positioned after it. */
  method OpenReader(file: seq<u8>, convert: I16 -> Sample) returns (r: Result<WavReader, Error>)
    ensures ReadHeader(file).Err? ==> r == Err(ReadHeader(file).error)
    ensures ReadHeader(file).Ok? ==>
      && r.Ok? && fresh(r.value) && r.value.Valid() && r.value.file == file && r.value.samplesRead == 0
      && r.value.numChannels == ReadHeader(file).value.numChannels as nat
      && r.value.numSamples == ReadHeader(file).value.dataSize as nat / 2 / r.value.numChannels
  {
    var h := ReadHeader(file);
    if h.Err? {
      return Err(h.error);
    }
    CheckSpec(Parse(file));
    var reader := new WavReader.FromHeader(h.value, file, convert);
    return Ok(reader);
  }

  /** `WavWriter` producing the bytes of a file. */
  class WavWriter {
    const numChannels: nat
    const quantize: Sample -> I16
    var samplesWritten: nat
    /** The header as last written, and the sample bytes after it. */
    var header: Header
    var data: seq<u8>

    /** The file's bytes. */
    function Contents(): seq<u8>
      reads this
    {
      Encode(header) + data
    }

    /** Two bytes per channel for every tick. */
    ghost predicate Valid()
      reads this
    {
      |data| == 2 * (samplesWritten * numChannels)
    }

    /** `WavWriter::new`: a header for `numChannels` (cut to 16 bits, as
        `as u16` does) and no data. */
    constructor (numChannels: nat, quantize: Sample -> I16)
      ensures Valid() && this.numChannels == numChannels && this.quantize == quantize
      ensures samplesWritten == 0 && data == []
      ensures header == NewHeader(Wrap16(numChannels), SAMPLE_RATE as u32, 0)
    {
      this.numChannels := numChannels;
      this.quantize := quantize;
      samplesWritten := 0;
      header := NewHeader(Wrap16(numChannels), SAMPLE_RATE as u32, 0);
      data := [];
    }

    function NumInputs(): nat
    {
      numChannels
    }

    function NumOutputs(): nat
    {
      0
    }

    /** `tick`: each input as one little-endian sample, in order. */
    method Tick(t: Time, inputs: Frame)
      requires Valid() && |inputs| == numChannels
      modifies this
      ensures Valid() && header == old(header)
      ensures data == old(data) + FrameBytes(inputs, quantize) && samplesWritten == old(samplesWritten) + 1
    {
      var q := quantize;
      var bytes := data;
      for i := 0 to |inputs|
        invariant bytes == old(data) + FrameBytes(inputs[..i], q)
        modifies {}
      {
        AppendSample(old(data), inputs, i, q);
        bytes := bytes + SampleBytes(q(inputs[i]));
      }
      assert inputs[..|inputs|] == inputs;
      data := bytes;
      samplesWritten := samplesWritten + 1;
      MulSucc(old(samplesWritten), numChannels);
    }

    /** `drop`: the sizes rewritten at offsets 4 and 40 from the samples
        written. */
    method Drop()
      requires Valid()
      modifies this
      ensures data == old(data) && samplesWritten == old(samplesWritten)
      ensures header == DroppedHeader(old(header), numChannels, samplesWritten)
    {
      var dataSize := samplesWritten * numChannels * 16 / 8 % U64_MODULUS;
      var fileSize := (36 + dataSize) % U64_MODULUS;
      header := header.(fileSize := Wrap32(fileSize), dataSize := Wrap32(dataSize));
    }
  }

  /** The header after `drop`: data size `samples * channels * 2` and file
      size 36 more, both computed in 64 bits and cut to 32. */
  function DroppedHeader(h: Header, numChannels: nat, samplesWritten: nat): Header
  {
    var dataSize := samplesWritten * numChannels * 16 / 8 % U64_MODULUS;
    h.(fileSize := Wrap32((36 + dataSize) % U64_MODULUS), dataSize := Wrap32(dataSize))
  }

  /** Rewriting the two sizes changes only bytes 4-7 and 40-43. */
  lemma DropPatchesOffsets(h: Header, numChannels: nat, samplesWritten: nat)
    ensures var h' := DroppedHeader(h, numChannels, samplesWritten);
      Encode(h') == Encode(h)[..4] + Le32(h'.fileSize) + Encode(h)[8..40] + Le32(h'.dataSize)
  {
  }

  /** A file whose writer was dropped after `s` frames of `n` channels, with
      no size overflowing, reads back: the header passes the corrected
      `check`, announces exactly the data bytes written, and a reader over it
      counts `s` samples. */
  lemma DroppedFileReads(n: nat, s: nat, data: seq<u8>)
    requires 1 <= n && n * 16 < 0x1_0000
    requires SAMPLE_RATE * n * 16 < 0x1_0000_0000
    requires 36 + 2 * (s * n) < 0x1_0000_0000 && |data| == 2 * (s * n)
    ensures var h := DroppedHeader(NewHeader(n as u16, SAMPLE_RATE as u32, 0), n, s);
      && ReadHeader(Encode(h) + data) == Ok(h)
      && h.dataSize as nat == |data|
      && h.dataSize as nat / 2 / n == s
  {
    var h := DroppedHeader(NewHeader(n as u16, SAMPLE_RATE as u32, 0), n, s);
    DroppedSizes(NewHeader(n as u16, SAMPLE_RATE as u32, 0), n, s);
    HalveAndDivide(n, s);
    ReadWritten(h, data);
    CheckSpec(h);
  }

  /** The sizes `drop` writes when they fit in 32 bits. */
  lemma DroppedSizes(h: Header, n: nat, s: nat)
    requires 36 + 2 * (s * n) < 0x1_0000_0000
    ensures var h' := DroppedHeader(h, n, s);
      h'.dataSize as nat == 2 * (s * n) && h'.fileSize == FileSize(h'.dataSize)
  {
    var x := s * n;
    ModUnique(x * 16, 8, 2 * x, 0);
    ModUnique(2 * x, U64_MODULUS, 0, 2 * x);
    ModUnique(36 + 2 * x, U64_MODULUS, 0, 36 + 2 * x);
  }

  lemma HalveAndDivide(n: nat, s: nat)
    requires n >= 1
    ensures 2 * (s * n) / 2 / n == s
  {
    ModUnique(2 * (s * n), 2, s * n, 0);
    ModUnique(s * n, n, s, 0);
  }

  lemma MulSucc(a: nat, b: nat)
    ensures (a + 1) * b == a * b + b
  {
  }

  /** One more sample of a frame written. */
  lemma AppendSample(d: seq<u8>, f: Frame, i: nat, q: Sample -> I16)
    requires i < |f|
    ensures d + FrameBytes(f[..i + 1], q) == d + FrameBytes(f[..i], q) + SampleBytes(q(f[i]))
  {
    assert f[..i + 1] == f[..i] + [f[i]];
    FrameBytesSnoc(f[..i], f[i], q);
  }

  lemma {:induction false} FrameBytesSnoc(f: Frame, x: Sample, quantize: Sample -> I16)
    ensures FrameBytes(f + [x], quantize) == FrameBytes(f, quantize) + SampleBytes(quantize(x))
    decreases |f|
  {
    if f == [] {
      assert [x][1..] == [];
    } else {
      assert (f + [x])[1..] == f[1..] + [x];
      FrameBytesSnoc(f[1..], x, quantize);
    }
  }
}
