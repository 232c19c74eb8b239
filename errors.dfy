/** The library's error type, the conversions into it from the errors of the
    byte-order, I/O, PortAudio and PortMidi libraries, and its description
    and cause. The wrapped foreign errors are opaque values here. */
module Errors {
  import opened Types

  /** An `std::io::Error`, identified by an abstract code. */
  datatype IoError = IoError(code: nat)
  /** A PortAudio error, identified by an abstract code. */
  datatype PaError = PaError(code: nat)
  /** A PortMidi error, identified by an abstract code. */
  datatype PmError = PmError(code: nat)

  /** The byte-order library's read error. */
  datatype ByteOrderError = UnexpectedEof | ByteIo(io: IoError)

  datatype Error =
    | NoAudioDevices
    | NoMidiDevices
    | InvalidFile
    | OutOfRange(what: string)
    | CreatesCycle
    | Unsupported(feature: string)
    | Io(io: IoError)
    | PortAudio(pa: PaError)
    | PortMidi(pm: PmError)

  /** `From<byteorder::Error>`: running out of bytes means the file is
      malformed; an I/O failure stays an I/O failure. */
  function FromByteOrder(e: ByteOrderError): (r: Error)
    ensures r == InvalidFile <==> e == UnexpectedEof
    ensures e.ByteIo? ==> r == Io(e.io)
  {
    match e
    case UnexpectedEof => InvalidFile
    case ByteIo(io) => Io(io)
  }

  /** `From<io::Error>`. */
  function FromIo(e: IoError): Error
  {
    Io(e)
  }

  /** `From<pa::Error>`. */
  function FromPortAudio(e: PaError): Error
  {
    PortAudio(e)
  }

  /** `From<portmidi::PortMidiError>`. */
  function FromPortMidi(e: PmError): Error
  {
    PortMidi(e)
  }

  /** `description`: one fixed text per variant. */
  function Description(e: Error): string
  {
    match e
    case NoAudioDevices => "No audio devices found."
    case NoMidiDevices => "No midi devices found."
    case InvalidFile => "The provided was not valid."
    case OutOfRange(_) => "Index was out of range."
    case CreatesCycle => "The requested action creates a graph cycle."
    case Unsupported(_) => "Unsupported feature."
    case Io(_) => "std::io error"
    case PortAudio(_) => "PortAudio error"
    case PortMidi(_) => "PortMidi error"
  }

  /** The foreign error an `Error` wraps. */
  datatype Cause = IoCause(io: IoError) | PaCause(pa: PaError) | PmCause(pm: PmError)

  /** `cause`. */
  function CauseOf(e: Error): Option<Cause>
  {
    match e
    case Io(io) => Some(IoCause(io))
    case PortAudio(pa) => Some(PaCause(pa))
    case PortMidi(pm) => Some(PmCause(pm))
    case _ => None
  }

  /** Two errors of the same variant have the same description, and errors
      of different variants have different ones, whatever their payloads. */
  lemma DescriptionByVariant(a: Error, b: Error)
    ensures Description(a) == Description(b) <==> Variant(a) == Variant(b)
  {
    if Variant(a) != Variant(b) {
      DescriptionsDiffer(a, b);
    }
  }

  /** The variant of an error, as a number. */
  function Variant(e: Error): nat
  {
    match e
    case NoAudioDevices => 0
    case NoMidiDevices => 1
    case InvalidFile => 2
    case OutOfRange(_) => 3
    case CreatesCycle => 4
    case Unsupported(_) => 5
    case Io(_) => 6
    case PortAudio(_) => 7
    case PortMidi(_) => 8
  }

  /** The nine texts are pairwise different, which their first two
      characters and their lengths already show. */
  lemma DescriptionsDiffer(a: Error, b: Error)
    requires Variant(a) != Variant(b)
    ensures Description(a) != Description(b)
  {
    var da, db := Description(a), Description(b);
    if |da| == |db| && 2 <= |da| {
      assert da[..2] != db[..2] || da[4] != db[4] || da[8] != db[8];
    }
  }

  /** `cause` is present exactly for the errors that wrap a foreign error,
      and then it is that error. */
  lemma CauseSpec(e: Error)
    ensures CauseOf(e).Some? <==> e.Io? || e.PortAudio? || e.PortMidi?
    ensures e.Io? ==> CauseOf(e) == Some(IoCause(e.io))
    ensures e.PortAudio? ==> CauseOf(e) == Some(PaCause(e.pa))
    ensures e.PortMidi? ==> CauseOf(e) == Some(PmCause(e.pm))
  {
  }

  /** Every conversion keeps the foreign error as the cause, except the
      unexpected end of data, which becomes `InvalidFile` without a cause. */
  lemma ConversionsKeepCause(io: IoError, pa: PaError, pm: PmError)
    ensures CauseOf(FromIo(io)) == Some(IoCause(io))
    ensures CauseOf(FromPortAudio(pa)) == Some(PaCause(pa))
    ensures CauseOf(FromPortMidi(pm)) == Some(PmCause(pm))
    ensures CauseOf(FromByteOrder(ByteIo(io))) == Some(IoCause(io))
    ensures CauseOf(FromByteOrder(UnexpectedEof)) == None
  {
  }
}
