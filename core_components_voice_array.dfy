/** The earlier voice array device: one queue of voices rotated on every new
    note and a map from notes to voices that nothing ever fills, so a note-on
    always takes the front voice and a note-off never reaches a voice. The
    voices are abstract; the model records what the array hands them. */
module CoreComponentsVoiceArray {
  import opened Types
  import opened Queues
  import opened Midi

  /** One thing the array hands to a voice or to its adder. */
  datatype Dispatch =
    | Deliver(voice: nat, event: MidiEvent)
    | TickVoice(voice: nat, t: Time)
    | TickAdder(t: Time)

  /** The allocation state: the voice queue and the note map. */
  datatype Rotation = Rotation(noteToVoice: map<u8, nat>, queue: seq<nat>)

  /** The queue holds every voice once and the map names only voices. */
  ghost predicate Inv(s: Rotation, n: nat)
  {
    IsPermutation(s.queue, n) && forall m :: m in s.noteToVoice ==> s.noteToVoice[m] < n
  }

  /** `new`: all voices queued in index order, the map empty. */
  function Initial(n: nat): (s: Rotation)
    ensures Inv(s, n) && s.queue == Range(n) && s.noteToVoice == map[]
  {
    Rotation(map[], Range(n))
  }

  /** `handle_note_on` can pick a voice: the note is mapped or the queue is
      not empty (otherwise `pop_front().unwrap()` panics). */
  predicate CanNoteOn(s: Rotation, note: u8)
  {
    note in s.noteToVoice || |s.queue| > 0
  }

  /** The voice `handle_note_on` picks: the mapped one, leaving the queue
      alone, or else the front voice, rotated to the back. */
  function Picked(s: Rotation, note: u8): (Rotation, nat)
    requires CanNoteOn(s, note)
  {
    if note in s.noteToVoice then (s, s.noteToVoice[note])
    else (s.(queue := s.queue[1..] + [s.queue[0]]), s.queue[0])
  }

  /** Picking keeps the invariant and never changes the map; a note that is
      not mapped gets the front voice, which ends up at the back. */
  lemma PickedSpec(s: Rotation, n: nat, note: u8)
    requires Inv(s, n) && n >= 1
    ensures CanNoteOn(s, note)
    ensures var (r, i) := Picked(s, note);
      && Inv(r, n) && i < n && r.noteToVoice == s.noteToVoice
      && (note !in s.noteToVoice ==> i == s.queue[0] && r.queue[n - 1] == i)
  {
    assert 0 in s.queue;
    if note !in s.noteToVoice {
      assert s.queue[0] in s.queue;
      RotateKeepsPermutation(s.queue, n);
    }
  }

  /** `handle_note_off`: the note's voice, if it is mapped, with the
      mapping removed. */
  function Unmapped(s: Rotation, note: u8): (Rotation, Option<nat>)
  {
    if note in s.noteToVoice then (s.(noteToVoice := s.noteToVoice - {note}), Some(s.noteToVoice[note]))
    else (s, None)
  }

  /** Unmapping keeps the invariant and the queue, and reports the voice
      exactly when the note was mapped. */
  lemma UnmappedSpec(s: Rotation, n: nat, note: u8)
    requires Inv(s, n)
    ensures var (r, o) := Unmapped(s, note);
      && Inv(r, n) && r.queue == s.queue && note !in r.noteToVoice
      && (o.Some? <==> note in s.noteToVoice)
      && (o.Some? ==> o.value < n)
  {
  }

  /** A note event as far as allocation is concerned. */
  datatype Key = Press(note: u8) | Release(note: u8)

  /** One key event: a press picks a voice, a release unmaps the note. */
  function Step(s: Rotation, n: nat, key: Key): (r: Rotation)
    requires Inv(s, n) && n >= 1
    ensures Inv(r, n) && r.noteToVoice.Keys <= s.noteToVoice.Keys
  {
    match key
    case Press(note) => PickedSpec(s, n, note); Picked(s, note).0
    case Release(note) => UnmappedSpec(s, n, note); Unmapped(s, note).0
  }

  /** The state after a run of key events from `s`. */
  function Replay(s: Rotation, n: nat, keys: seq<Key>): (r: Rotation)
    requires Inv(s, n) && n >= 1
    ensures Inv(r, n)
    decreases |keys|
  {
    if keys == [] then s else Replay(Step(s, n, keys[0]), n, keys[1..])
  }

  /** Nothing ever fills the map: from the empty map, after any run of key
      events, it is still empty. */
  lemma {:induction false} NeverMapped(s: Rotation, n: nat, keys: seq<Key>)
    requires Inv(s, n) && n >= 1 && s.noteToVoice == map[]
    ensures Replay(s, n, keys).noteToVoice == map[]
    decreases |keys|
  {
    if keys != [] {
      NeverMapped(Step(s, n, keys[0]), n, keys[1..]);
    }
  }

  /** Hence, contrary to the promise that a note-off stops the voice that
      handled the note, a note-off after any run of events from `new`
      reaches no voice. */
  lemma NoteOffReachesNoVoice(n: nat, keys: seq<Key>, note: u8)
    requires n >= 1
    ensures Unmapped(Replay(Initial(n), n, keys), note).1 == None
  {
    NeverMapped(Initial(n), n, keys);
  }

  /** `handle_note_on` as the documentation intends it: the same pick, and
      the note is then mapped to the voice that took it. */
  function PickedAndMapped(s: Rotation, note: u8): (Rotation, nat)
    requires CanNoteOn(s, note)
  {
    var (r, i) := Picked(s, note);
    (r.(noteToVoice := r.noteToVoice[note := i]), i)
  }

  /** The mapping pick keeps the invariant, takes the same voice and leaves
      the queue as the pick as written does, and maps the note to it. */
  lemma PickedAndMappedSpec(s: Rotation, n: nat, note: u8)
    requires Inv(s, n) && n >= 1
    ensures CanNoteOn(s, note)
    ensures var (r, i) := PickedAndMapped(s, note);
      && Inv(r, n) && (r.queue, i) == (Picked(s, note).0.queue, Picked(s, note).1)
      && r.noteToVoice == s.noteToVoice[note := i]
  {
    PickedSpec(s, n, note);
  }

  /** With the mapping pick, a note-off right after a note-on reaches the
      voice that took the note, and no note stays mapped to it by that
      note. */
  lemma NoteOnThenOffReaches(s: Rotation, n: nat, note: u8)
    requires Inv(s, n) && n >= 1
    ensures CanNoteOn(s, note)
    ensures var (r, i) := PickedAndMapped(s, note);
      && Unmapped(r, note).1 == Some(i)
      && Unmapped(r, note).0.queue == r.queue
      && note !in Unmapped(r, note).0.noteToVoice
  {
    PickedAndMappedSpec(s, n, note);
  }

  class VoiceArray {
    const numVoices: nat
    /** The channel each adder input reads: the output of that voice. */
    var adderInputs: seq<nat>
    var noteToVoice: map<u8, nat>
    var voiceQueue: seq<nat>
    /** What the array has handed to its voices and adder so far. */
    var log: seq<Dispatch>

    function State(): Rotation
      reads this
    {
      Rotation(noteToVoice, voiceQueue)
    }

    ghost predicate Valid()
      reads this
    {
      Inv(State(), numVoices)
    }

    /** `new(voices)`: adder input `i` reads voice `i`, every voice is
        queued in index order and no note is mapped. */
    constructor (numVoices: nat)
      ensures Valid() && this.numVoices == numVoices
      ensures State() == Initial(numVoices) && adderInputs == Range(numVoices) && log == []
    {
      this.numVoices := numVoices;
      noteToVoice := map[];
      log := [];
      var inputs: seq<nat> := [];
      var q: seq<nat> := [];
      for i := 0 to numVoices
        invariant q == Range(i) && inputs == Range(i)
      {
        q := q + [i];
        inputs := inputs + [i];
      }
      adderInputs := inputs;
      voiceQueue := q;
    }

    /** `handle_event(event)`: a note-on to the picked voice, a note-off to
        the mapped voice or to none, anything else to every voice. */
    method HandleEvent(event: MidiEvent)
      requires Valid() && (event.payload.NoteOn? ==> numVoices >= 1)
      modifies this
      ensures Valid() && adderInputs == old(adderInputs)
      ensures event.payload.NoteOn? ==>
        CanNoteOn(old(State()), event.payload.note)
        && var (s, i) := Picked(old(State()), event.payload.note);
        State() == s && log == old(log) + [Deliver(i, event)]
      ensures event.payload.NoteOff? ==>
        var (s, o) := Unmapped(old(State()), event.payload.note);
        State() == s && log == old(log) + (if o.Some? then [Deliver(o.value, event)] else [])
      ensures !event.payload.NoteOn? && !event.payload.NoteOff? ==>
        State() == old(State()) && log == old(log) + seq(numVoices, k requires 0 <= k < numVoices => Deliver(k, event))
    {
      match event.payload {
        case NoteOn(note, _) => HandleNoteOn(note, event);
        case NoteOff(note, _) => HandleNoteOff(note, event);
        case _ => HandleOtherEvent(event);
      }
    }

    method HandleNoteOn(note: u8, event: MidiEvent)
      requires Valid() && numVoices >= 1
      modifies this
      ensures Valid() && adderInputs == old(adderInputs) && CanNoteOn(old(State()), note)
      ensures var (s, i) := Picked(old(State()), note);
        State() == s && log == old(log) + [Deliver(i, event)]
    {
      PickedSpec(State(), numVoices, note);
      var i: nat;
      if note in noteToVoice {
        i := noteToVoice[note];
      } else {
        i := voiceQueue[0];
        voiceQueue := voiceQueue[1..];
        voiceQueue := voiceQueue + [i];
      }
      log := log + [Deliver(i, event)];
    }

    /** The note-on with the mapping the documentation intends: the picked
        voice gets the event and the note is mapped to it. */
    method HandleNoteOnMapping(note: u8, event: MidiEvent)
      requires Valid() && numVoices >= 1
      modifies this
      ensures Valid() && adderInputs == old(adderInputs) && CanNoteOn(old(State()), note)
      ensures var (s, i) := PickedAndMapped(old(State()), note);
        State() == s && log == old(log) + [Deliver(i, event)]
    {
      PickedAndMappedSpec(State(), numVoices, note);
      var i: nat;
      if note in noteToVoice {
        i := noteToVoice[note];
      } else {
        i := voiceQueue[0];
        voiceQueue := voiceQueue[1..];
        voiceQueue := voiceQueue + [i];
      }
      noteToVoice := noteToVoice[note := i];
      log := log + [Deliver(i, event)];
    }

    method HandleNoteOff(note: u8, event: MidiEvent)
      requires Valid()
      modifies this
      ensures Valid() && adderInputs == old(adderInputs)
      ensures var (s, o) := Unmapped(old(State()), note);
        State() == s && log == old(log) + (if o.Some? then [Deliver(o.value, event)] else [])
    {
      UnmappedSpec(State(), numVoices, note);
      if note in noteToVoice {
        var i := noteToVoice[note];
        noteToVoice := noteToVoice - {note};
        log := log + [Deliver(i, event)];
      }
    }

    /** `handle_other_event`: the event to every voice, in index order. */
    method HandleOtherEvent(event: MidiEvent)
      modifies this
      ensures State() == old(State()) && adderInputs == old(adderInputs)
      ensures log == old(log) + seq(numVoices, k requires 0 <= k < numVoices => Deliver(k, event))
    {
      for k := 0 to numVoices
        invariant State() == old(State()) && adderInputs == old(adderInputs)
        invariant log == old(log) + seq(k, j requires 0 <= j < k => Deliver(j, event))
      {
        log := log + [Deliver(k, event)];
      }
    }

    /** `tick(t)`: every voice once, in index order, then the adder. */
    method Tick(t: Time)
      modifies this
      ensures State() == old(State()) && adderInputs == old(adderInputs)
      ensures log == old(log) + seq(numVoices, k requires 0 <= k < numVoices => TickVoice(k, t)) + [TickAdder(t)]
    {
      for k := 0 to numVoices
        invariant State() == old(State()) && adderInputs == old(adderInputs)
        invariant log == old(log) + seq(k, j requires 0 <= j < k => TickVoice(j, t))
      {
        log := log + [TickVoice(k, t)];
      }
      log := log + [TickAdder(t)];
    }
  }
}
