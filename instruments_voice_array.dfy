/** The polyphonic voice allocator with one queue of all voices (free ones in
    front, most recently triggered at the back) and a pair of maps between
    notes and the voices playing them. */
module InstrumentsVoiceArray {
  import opened Types
  import opened Queues

  /** The allocation state. */
  datatype Voicing = Voicing(noteToVoice: map<u8, nat>, voiceToNote: map<nat, u8>, queue: seq<nat>)

  /** Each map is the other's inverse, and both only name voices below `n`. */
  ghost predicate MapsInverse(s: Voicing, n: nat)
  {
    && (forall m :: m in s.noteToVoice ==>
          s.noteToVoice[m] < n && s.noteToVoice[m] in s.voiceToNote && s.voiceToNote[s.noteToVoice[m]] == m)
    && (forall v :: v in s.voiceToNote ==>
          v < n && s.voiceToNote[v] in s.noteToVoice && s.noteToVoice[s.voiceToNote[v]] == v)
  }

  /** The queue holds every voice once and the maps are mutual inverses. */
  ghost predicate Inv(s: Voicing, n: nat)
  {
    IsPermutation(s.queue, n) && MapsInverse(s, n)
  }

  /** `new`: all voices queued in index order, no note mapped. */
  function Initial(n: nat): (s: Voicing)
    ensures Inv(s, n) && s.queue == Range(n)
    ensures s.noteToVoice == map[] && s.voiceToNote == map[]
  {
    Voicing(map[], map[], Range(n))
  }

  /** `note_on` can take a voice: the note is mapped or the queue is not
      empty (otherwise the source's `unwrap` panics). */
  predicate CanNoteOn(s: Voicing, note: u8)
  {
    note in s.noteToVoice || |s.queue| > 0
  }

  /** The new-note path of `note_on`: the front voice drops its old note,
      is mapped to `note` both ways and moves to the back. */
  function TakeFront(s: Voicing, note: u8): (Voicing, nat)
    requires |s.queue| > 0
  {
    var i := s.queue[0];
    var ntv := if i in s.voiceToNote then s.noteToVoice - {s.voiceToNote[i]} else s.noteToVoice;
    (Voicing(ntv[note := i], (s.voiceToNote - {i})[i := note], s.queue[1..] + [i]), i)
  }

  /** `note_on(note)` as written: the retrigger path takes the note's voice
      out of `note_to_voice` with `remove`, moves the voice to the back of
      the queue, and never maps the note again. */
  function TriggeredAsWritten(s: Voicing, note: u8): (Voicing, nat)
    requires CanNoteOn(s, note)
  {
    if note in s.noteToVoice then
      var i := s.noteToVoice[note];
      (Voicing(s.noteToVoice - {note}, s.voiceToNote, Remove(s.queue, i) + [i]), i)
    else
      TakeFront(s, note)
  }

  /** `note_on(note)` with the retrigger path looking the voice up without
      removing it, so that the note stays mapped. */
  function Triggered(s: Voicing, note: u8): (Voicing, nat)
    requires CanNoteOn(s, note)
  {
    if note in s.noteToVoice then
      var i := s.noteToVoice[note];
      (s.(queue := Remove(s.queue, i) + [i]), i)
    else
      TakeFront(s, note)
  }

  /** The two versions agree on a note that is not playing. */
  lemma FirstPressAgrees(s: Voicing, note: u8)
    requires |s.queue| > 0 && note !in s.noteToVoice
    ensures TriggeredAsWritten(s, note) == Triggered(s, note)
  {
  }

  /** A valid allocator over at least one voice can always take a note. */
  lemma CanAlwaysNoteOn(s: Voicing, n: nat, note: u8)
    requires Inv(s, n) && n >= 1
    ensures CanNoteOn(s, note)
  {
    assert 0 in s.queue;
  }

  /** `note_on` keeps the queue a permutation and the maps inverse; the
      returned voice is the note's own while it plays, else the front of the
      queue, whose old note is unmapped; either way it ends up at the back,
      mapped from `note` in both directions. */
  lemma TriggeredSpec(s: Voicing, n: nat, note: u8)
    requires Inv(s, n) && n >= 1
    ensures CanNoteOn(s, note)
    ensures var (r, i) := Triggered(s, note);
      && Inv(r, n) && i < n
      && r.queue[n - 1] == i
      && note in r.noteToVoice && r.noteToVoice[note] == i && r.voiceToNote[i] == note
      && (note in s.noteToVoice ==> i == s.noteToVoice[note] && r.noteToVoice == s.noteToVoice)
      && (note !in s.noteToVoice ==>
            i == s.queue[0] && (i in s.voiceToNote ==> s.voiceToNote[i] !in r.noteToVoice))
  {
    CanAlwaysNoteOn(s, n, note);
    var (r, i) := Triggered(s, note);
    if note in s.noteToVoice {
      MoveKeepsPermutation(s.queue, n, i);
    } else {
      assert s.queue[0] in s.queue;
      RotateKeepsPermutation(s.queue, n);
      TakeFrontMaps(s, n, note);
    }
  }

  /** The new-note path keeps the maps inverse. */
  lemma TakeFrontMaps(s: Voicing, n: nat, note: u8)
    requires MapsInverse(s, n) && |s.queue| > 0 && s.queue[0] < n && note !in s.noteToVoice
    ensures MapsInverse(TakeFront(s, note).0, n)
  {
  }

  /** `note_off(note)`: a mapped note is unmapped both ways and its voice
      moves to the front of the queue, to be reused first. */
  function Released(s: Voicing, note: u8): (Voicing, Option<nat>)
  {
    if note in s.noteToVoice then
      var i := s.noteToVoice[note];
      (Voicing(s.noteToVoice - {note}, s.voiceToNote - {i}, [i] + Remove(s.queue, i)), Some(i))
    else
      (s, None)
  }

  /** `note_off` keeps the invariant, frees the note's voice to the front of
      the queue, and changes nothing for a note that is not playing. */
  lemma ReleasedSpec(s: Voicing, n: nat, note: u8)
    requires Inv(s, n)
    ensures var (r, o) := Released(s, note);
      && Inv(r, n) && note !in r.noteToVoice
      && (note in s.noteToVoice ==>
            o == Some(s.noteToVoice[note]) && r.queue[0] == o.value && o.value !in r.voiceToNote)
      && (note !in s.noteToVoice ==> o == None && r == s)
  {
    if note in s.noteToVoice {
      MoveKeepsPermutation(s.queue, n, s.noteToVoice[note]);
    }
  }

  /** Releasing a note right after pressing it frees the voice it was given. */
  lemma NoteOnThenOff(s: Voicing, n: nat, note: u8)
    requires Inv(s, n) && n >= 1
    ensures CanNoteOn(s, note)
    ensures Released(Triggered(s, note).0, note).1 == Some(Triggered(s, note).1)
  {
    TriggeredSpec(s, n, note);
  }

  /** As written, pressing a note that is not playing twice and then
      releasing it releases no voice: the second press unmapped the note
      while its voice still names it in `voice_to_note`, so the maps are no
      longer inverse. */
  lemma DoublePressLosesNote(s: Voicing, n: nat, note: u8)
    requires Inv(s, n) && n >= 1 && note !in s.noteToVoice
    ensures CanNoteOn(s, note)
    ensures var (s1, i) := TriggeredAsWritten(s, note);
      && CanNoteOn(s1, note)
      && var (s2, j) := TriggeredAsWritten(s1, note);
      && j == i
      && note !in s2.noteToVoice && i in s2.voiceToNote && s2.voiceToNote[i] == note
      && !MapsInverse(s2, n)
      && Released(s2, note).1 == None
  {
    CanAlwaysNoteOn(s, n, note);
    FirstPressAgrees(s, note);
    TriggeredSpec(s, n, note);
  }

  /** A voice allocator lending indices into `voices`, with the retrigger
      path keeping the note mapped. */
  class VoiceArray<T> {
    const voices: seq<T>
    var noteToVoice: map<u8, nat>
    var voiceToNote: map<nat, u8>
    var voiceQueue: seq<nat>

    function State(): Voicing
      reads this
    {
      Voicing(noteToVoice, voiceToNote, voiceQueue)
    }

    ghost predicate Valid()
      reads this
    {
      Inv(State(), |voices|)
    }

    /** `new(voices)`: queues every voice in index order. */
    constructor (voices: seq<T>)
      ensures Valid() && this.voices == voices && State() == Initial(|voices|)
    {
      this.voices := voices;
      noteToVoice := map[];
      voiceToNote := map[];
      var q: seq<nat> := [];
      for i := 0 to |voices|
        invariant q == Range(i)
      {
        q := q + [i];
      }
      voiceQueue := q;
    }

    /** `note_on(note)`: the index of the voice to trigger. The source's
        `unwrap` panics on an array with no voices. */
    method NoteOn(note: u8) returns (i: nat)
      requires Valid() && |voices| >= 1
      modifies this
      ensures Valid() && i < |voices|
      ensures CanNoteOn(old(State()), note) && (State(), i) == Triggered(old(State()), note)
    {
      TriggeredSpec(State(), |voices|, note);
      if note in noteToVoice {
        i := noteToVoice[note];
        RemoveFromQueue(i);
      } else {
        i := voiceQueue[0];
        voiceQueue := voiceQueue[1..];
        if i in voiceToNote {
          noteToVoice := noteToVoice - {voiceToNote[i]};
        }
        voiceToNote := voiceToNote - {i};
        noteToVoice := noteToVoice[note := i];
        voiceToNote := voiceToNote[i := note];
      }
      voiceQueue := voiceQueue + [i];
    }

    /** `note_off(note)`: the released voice's index, if the note was
        playing. */
    method NoteOff(note: u8) returns (o: Option<nat>)
      requires Valid()
      modifies this
      ensures Valid() && (State(), o) == Released(old(State()), note)
      ensures o.Some? ==> o.value < |voices|
    {
      ReleasedSpec(State(), |voices|, note);
      if note in noteToVoice {
        var i := noteToVoice[note];
        noteToVoice := noteToVoice - {note};
        RemoveFromQueue(i);
        voiceToNote := voiceToNote - {i};
        voiceQueue := [i] + voiceQueue;
        o := Some(i);
      } else {
        o := None;
      }
    }

    /** `remove_from_queue(voice)`: removes the first occurrence of the
        voice, scanning from the front. */
    method RemoveFromQueue(voice: nat)
      modifies this
      ensures voiceQueue == Remove(old(voiceQueue), voice)
      ensures noteToVoice == old(noteToVoice) && voiceToNote == old(voiceToNote)
    {
      var i := 0;
      while i < |voiceQueue|
        invariant 0 <= i <= |voiceQueue| && voiceQueue == old(voiceQueue)
        invariant forall k :: 0 <= k < i ==> voiceQueue[k] != voice
      {
        if voiceQueue[i] == voice {
          assert IndexOf(voiceQueue, voice) == i;
          voiceQueue := voiceQueue[..i] + voiceQueue[i + 1..];
          return;
        }
        i := i + 1;
      }
      assert IndexOf(voiceQueue, voice) == |voiceQueue|;
    }
  }
}
