/** MIDI input: decoding of raw three-byte channel messages into events, and
    the loop that drains an input port. The status byte's high nibble selects
    the message kind and its low nibble the channel, as in the Summary of
    Status Bytes (Table I) of the MIDI 1.0 Detailed Specification; controller
    64 is the sustain pedal (Table III). */
module Midi {
  import opened Types

  /** One raw message as the port returns it. */
  datatype RawMessage = RawMessage(status: u8, data1: u8, data2: u8)

  /** The decoded message contents. */
  datatype MidiMessage =
    | NoteOff(note: u8, velocity: real)
    | NoteOn(note: u8, velocity: real)
    | PitchBend(bend: real)
    | PolyphonicAftertouch(note: u8, pressure: real)
    | SustainPedal(down: bool)
    | ControlChange(controller: u8, value: u8)
    | ProgramChange(program: u8)
    | ChannelAftertouch(pressure: real)
    | Other(status: u8, data1: u8, data2: u8)

  datatype MidiEvent = MidiEvent(channel: u8, time: Time, payload: MidiMessage)

  /** The sustain pedal's controller number. */
  const SUSTAIN_CONTROLLER: u8 := 0x40

  /** A velocity or pressure byte scaled by 1/127. */
  function Level(b: u8): real
  {
    b as real / 127.0
  }

  /** `status & 0x0F`: the low nibble. */
  function ChannelOf(status: u8): u8
  {
    status % 16
  }

  /** `status >> 4`: the high nibble. */
  function KindOf(status: u8): u8
  {
    status / 16
  }

  /** `((data2 as i16) << 7) | (data1 as i16)`, which cannot overflow 16
      bits for byte operands. The shifted `data2` has its low 7 bits clear,
      so the OR adds the low 7 bits of `data1`; bit 7 of `data1` falls on
      bit 0 of `data2` and adds 128 only where that bit is clear. */
  function BendValue(data1: u8, data2: u8): int
  {
    var overlap := if data1 >= 0x80 && data2 % 2 == 0 then 0x80 else 0;
    data2 as int * 0x80 + data1 as int % 0x80 + overlap
  }

  /** For 7-bit data bytes the value is the 14-bit `data2 * 128 + data1`,
      in 0 .. 0x3FFF. */
  lemma BendValueOf7Bit(data1: u8, data2: u8)
    requires data1 < 0x80 && data2 < 0x80
    ensures BendValue(data1, data2) == data2 as int * 128 + data1 as int
    ensures 0 <= BendValue(data1, data2) < 0x4000
  {
  }

  /** The bend of a pitch-bend message, centred on 0x2000. */
  function Bend(data1: u8, data2: u8): real
  {
    (BendValue(data1, data2) - 0x2000) as real / 0x2000 as real
  }

  /** `midievent_from_portmidi(event, t)`. */
  function Decode(m: RawMessage, t: Time): (e: MidiEvent)
    ensures e.channel < 16 && e.time == t
  {
    var payload :=
      match KindOf(m.status)
      case 0x8 => NoteOff(m.data1, Level(m.data2))
      case 0x9 => NoteOn(m.data1, Level(m.data2))
      case 0xE => PitchBend(Bend(m.data1, m.data2))
      case 0xA => PolyphonicAftertouch(m.data1, Level(m.data2))
      case 0xB =>
        if m.data1 == SUSTAIN_CONTROLLER then SustainPedal(m.data2 >= 64)
        else ControlChange(m.data1, m.data2)
      case 0xC => ProgramChange(m.data1)
      case 0xD => ChannelAftertouch(Level(m.data1))
      case _ => Other(m.status, m.data1, m.data2);
    MidiEvent(ChannelOf(m.status), t, payload)
  }

  /** The kind of the decoded message is decided by the high nibble alone,
      each nibble 8 to 14 naming one kind (controller 64 of kind 11 being the
      sustain pedal) and every other status byte giving `Other` with its
      three bytes; the channel is the low nibble. */
  lemma DecodeKinds(m: RawMessage, t: Time)
    ensures var e := Decode(m, t); var k := m.status as int / 16;
      && e.channel as int == m.status as int % 16
      && (e.payload.NoteOff? <==> k == 8)
      && (e.payload.NoteOn? <==> k == 9)
      && (e.payload.PolyphonicAftertouch? <==> k == 10)
      && ((e.payload.ControlChange? || e.payload.SustainPedal?) <==> k == 11)
      && (e.payload.SustainPedal? <==> k == 11 && m.data1 == SUSTAIN_CONTROLLER)
      && (e.payload.ProgramChange? <==> k == 12)
      && (e.payload.ChannelAftertouch? <==> k == 13)
      && (e.payload.PitchBend? <==> k == 14)
      && (e.payload.Other? <==> (k < 8 || k == 15))
      && (e.payload.Other? ==> e.payload == Other(m.status, m.data1, m.data2))
  {
  }

  /** Note messages carry the first data byte as the note and the second,
      scaled, as the velocity; a note-on of velocity 0 stays a note-on. */
  lemma DecodeNotes(m: RawMessage, t: Time)
    requires m.status as int / 16 == 8 || m.status as int / 16 == 9
    ensures var p := Decode(m, t).payload;
      p.note == m.data1 && p.velocity == m.data2 as real / 127.0
    ensures m.status as int / 16 == 9 && m.data2 == 0 ==> Decode(m, t).payload == NoteOn(m.data1, 0.0)
  {
  }

  /** The sustain pedal is down exactly when its value is at least 64. */
  lemma DecodeSustain(m: RawMessage, t: Time)
    requires m.status as int / 16 == 11 && m.data1 == SUSTAIN_CONTROLLER
    ensures Decode(m, t).payload == SustainPedal(m.data2 >= 64)
  {
  }

  /** For a 7-bit data byte the scaled level lies in [0, 1], reaching 1 at
      127. */
  lemma LevelRange(b: u8)
    requires b < 0x80
    ensures 0.0 <= Level(b) <= 1.0
    ensures Level(b) == 1.0 <==> b == 127
  {
  }

  /** For 7-bit data bytes the bend lies in [-1, 1) and is 0 exactly at the
      centre value 0x2000 (data2 = 64, data1 = 0). */
  lemma BendRange(data1: u8, data2: u8)
    requires data1 < 0x80 && data2 < 0x80
    ensures -1.0 <= Bend(data1, data2) < 1.0
    ensures Bend(data1, data2) == 0.0 <==> data2 == 64 && data1 == 0
  {
    BendValueOf7Bit(data1, data2);
  }

  /** Every message of `raw`, decoded at time `t`, in order. */
  function DecodeAll(raw: seq<RawMessage>, t: Time): (r: seq<MidiEvent>)
    ensures |r| == |raw|
    ensures forall i :: 0 <= i < |raw| ==> r[i] == Decode(raw[i], t)
  {
    seq(|raw|, i requires 0 <= i < |raw| => Decode(raw[i], t))
  }

  /** An open input port: the messages that have arrived and not yet been
      read. */
  class Port {
    var pending: seq<RawMessage>

    constructor (arrived: seq<RawMessage>)
      ensures pending == arrived
    {
      pending := arrived;
    }

    /** `read`: the oldest pending message, or `None` once there are none. */
    method Read() returns (r: Option<RawMessage>)
      modifies this
      ensures old(pending) == [] ==> r == None && pending == []
      ensures old(pending) != [] ==> r == Some(old(pending)[0]) && pending == old(pending)[1..]
    {
      if pending == [] {
        r := None;
      } else {
        r := Some(pending[0]);
        pending := pending[1..];
      }
    }
  }

  class MidiIn {
    const port: Port

    constructor (port: Port)
      ensures this.port == port
    {
      this.port := port;
    }

    /** `get_events(t)`: reads until the port reports no message, and
        returns everything read, in order, stamped with `t`. */
    method GetEvents(t: Time) returns (events: seq<MidiEvent>)
      modifies port
      ensures events == DecodeAll(old(port.pending), t)
      ensures port.pending == []
    {
      ghost var all := port.pending;
      events := [];
      var done := false;
      while !done
        invariant 0 <= |events| <= |all|
        invariant port.pending == all[|events|..]
        invariant events == DecodeAll(all[..|events|], t)
        invariant done ==> port.pending == []
        decreases |port.pending|, !done
      {
        var m := port.Read();
        match m {
          case Some(raw) =>
            assert all[..|events| + 1] == all[..|events|] + [raw];
            events := events + [Decode(raw, t)];
          case None =>
            done := true;
        }
      }
      assert all[..|events|] == all;
    }
  }
}
