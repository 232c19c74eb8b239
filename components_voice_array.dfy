/** The voice array as a device: it owns its voices and an adder summing
    their outputs, routes MIDI events to voices with the same allocation as
    the instrument voice array, and ticks all voices, then the adder. The
    voices themselves are abstract: the model records, in order, every event
    and every tick the array hands them. */
module ComponentsVoiceArray {
  import opened Types
  import opened Queues
  import opened Midi
  import opened InstrumentsVoiceArray

  /** One thing the array hands to a voice or to its adder. */
  datatype Delivery =
    | Deliver(voice: nat, event: MidiEvent, t: Time)
    | TickVoice(voice: nat, t: Time)
    | TickAdder(t: Time)

  /** The same event to every voice, in index order. */
  function Broadcast(n: nat, event: MidiEvent, t: Time): (r: seq<Delivery>)
    ensures |r| == n && forall k :: 0 <= k < n ==> r[k] == Deliver(k, event, t)
  {
    seq(n, k requires 0 <= k < n => Deliver(k, event, t))
  }

  /** One tick of every voice in index order, then of the adder. */
  function TickAll(n: nat, t: Time): (r: seq<Delivery>)
    ensures |r| == n + 1 && r[n] == TickAdder(t)
    ensures forall k :: 0 <= k < n ==> r[k] == TickVoice(k, t)
  {
    seq(n, k requires 0 <= k < n => TickVoice(k, t)) + [TickAdder(t)]
  }

  class VoiceArray {
    const numVoices: nat
    /** The channel each adder input reads: the output of that voice. */
    var adderInputs: seq<nat>
    var noteToVoice: map<u8, nat>
    var voiceToNote: map<nat, u8>
    var voiceQueue: seq<nat>
    /** What the array has handed to its voices and adder so far. */
    var log: seq<Delivery>

    function State(): Voicing
      reads this
    {
      Voicing(noteToVoice, voiceToNote, voiceQueue)
    }

    ghost predicate Valid()
      reads this
    {
      Inv(State(), numVoices)
    }

    /** `new(voices)`: adder input `i` reads voice `i`, and every voice is
        queued in index order. */
    constructor (numVoices: nat)
      ensures Valid() && this.numVoices == numVoices
      ensures State() == Initial(numVoices) && adderInputs == Range(numVoices) && log == []
    {
      this.numVoices := numVoices;
      noteToVoice := map[];
      voiceToNote := map[];
      log := [];
      var inputs: seq<nat> := [];
      var q: seq<nat> := [];
      for i := 0 to numVoices
        invariant inputs == Range(i) && q == Range(i)
      {
        inputs := inputs + [i];
        q := q + [i];
      }
      adderInputs := inputs;
      voiceQueue := q;
    }

    /** `handle_event(event, t)`: a note-on goes to exactly one voice, a
        note-off to the voice playing the note or to none, anything else to
        every voice. A note-on on an array without voices panics in the
        source. */
    method HandleEvent(event: MidiEvent, t: Time)
      requires Valid() && (event.payload.NoteOn? ==> numVoices >= 1)
      modifies this
      ensures Valid() && adderInputs == old(adderInputs)
      ensures event.payload.NoteOn? ==>
        CanNoteOn(old(State()), event.payload.note)
        && var (s, i) := Triggered(old(State()), event.payload.note);
        State() == s && log == old(log) + [Deliver(i, event, t)]
      ensures event.payload.NoteOff? ==>
        var (s, o) := Released(old(State()), event.payload.note);
        State() == s && log == old(log) + (if o.Some? then [Deliver(o.value, event, t)] else [])
      ensures !event.payload.NoteOn? && !event.payload.NoteOff? ==>
        State() == old(State()) && log == old(log) + Broadcast(numVoices, event, t)
    {
      match event.payload {
        case NoteOn(note, _) => HandleNoteOn(note, event, t);
        case NoteOff(note, _) => HandleNoteOff(note, event, t);
        case _ => HandleOtherEvent(event, t);
      }
    }

    /** `handle_note_on`, with the retrigger path keeping the note mapped. */
    method HandleNoteOn(note: u8, event: MidiEvent, t: Time)
      requires Valid() && numVoices >= 1
      modifies this
      ensures Valid() && adderInputs == old(adderInputs) && CanNoteOn(old(State()), note)
      ensures var (s, i) := Triggered(old(State()), note);
        State() == s && log == old(log) + [Deliver(i, event, t)]
    {
      TriggeredSpec(State(), numVoices, note);
      var i: nat;
      if note in noteToVoice {
        i := noteToVoice[note];
        RemoveFromQueue(i);
      } else {
        i := voiceQueue[0];
        voiceQueue := voiceQueue[1..];
        if i in voiceToNote {
          noteToVoice := noteToVoice - {voiceToNote[i]};
        }
        voiceToNote := voiceToNote - {i};
        noteToVoice := noteToVoice[note := i];
        voiceToNote := voiceToNote[i := note];
      }
      voiceQueue := voiceQueue + [i];
      log := log + [Deliver(i, event, t)];
    }

    /** `handle_note_off`: the released voice moves to the front of the
        queue and receives the event. */
    method HandleNoteOff(note: u8, event: MidiEvent, t: Time)
      requires Valid()
      modifies this
      ensures Valid() && adderInputs == old(adderInputs)
      ensures var (s, o) := Released(old(State()), note);
        State() == s && log == old(log) + (if o.Some? then [Deliver(o.value, event, t)] else [])
    {
      ReleasedSpec(State(), numVoices, note);
      if note in noteToVoice {
        var i := noteToVoice[note];
        noteToVoice := noteToVoice - {note};
        RemoveFromQueue(i);
        voiceToNote := voiceToNote - {i};
        voiceQueue := [i] + voiceQueue;
        log := log + [Deliver(i, event, t)];
      }
    }

    /** `handle_other_event`: the event to every voice, in index order. */
    method HandleOtherEvent(event: MidiEvent, t: Time)
      modifies this
      ensures State() == old(State()) && adderInputs == old(adderInputs)
      ensures log == old(log) + Broadcast(numVoices, event, t)
    {
      for k := 0 to numVoices
        invariant State() == old(State()) && adderInputs == old(adderInputs)
        invariant log == old(log) + Broadcast(k, event, t)
      {
        log := log + [Deliver(k, event, t)];
      }
    }

    /** `remove_from_queue(voice)`. */
    method RemoveFromQueue(voice: nat)
      modifies this
      ensures voiceQueue == Remove(old(voiceQueue), voice)
      ensures noteToVoice == old(noteToVoice) && voiceToNote == old(voiceToNote)
      ensures log == old(log) && adderInputs == old(adderInputs)
    {
      var i := 0;
      while i < |voiceQueue|
        invariant 0 <= i <= |voiceQueue| && voiceQueue == old(voiceQueue)
        invariant forall k :: 0 <= k < i ==> voiceQueue[k] != voice
      {
        if voiceQueue[i] == voice {
          assert IndexOf(voiceQueue, voice) == i;
          voiceQueue := voiceQueue[..i] + voiceQueue[i + 1..];
          return;
        }
        i := i + 1;
      }
      assert IndexOf(voiceQueue, voice) == |voiceQueue|;
    }

    /** `tick(t)`: every voice once, in index order, then the adder. */
    method Tick(t: Time)
      modifies this
      ensures State() == old(State()) && adderInputs == old(adderInputs)
      ensures log == old(log) + TickAll(numVoices, t)
    {
      for k := 0 to numVoices
        invariant State() == old(State()) && adderInputs == old(adderInputs)
        invariant log == old(log) + TickAll(k, t)[..k]
      {
        assert TickAll(k + 1, t)[..k + 1] == TickAll(k, t)[..k] + [TickVoice(k, t)];
        log := log + [TickVoice(k, t)];
      }
      log := log + [TickAdder(t)];
    }
  }
}
