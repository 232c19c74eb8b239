/** The polyphonic voice allocator with a queue of free voices and a queue of
    held (voice, note) pairs, oldest first, plus the map from each held note
    to its voice. A note-on reuses the note's voice if it is held, else takes
    the oldest free voice, else steals the oldest held one. */
module VoiceArray {
  import opened Types
  import opened Queues

  /** A voice playing a note. */
  datatype Held = Held(voice: nat, note: u8)

  /** The allocation state: the note map and both queues. */
  datatype Alloc = Alloc(noteToVoice: map<u8, nat>, held: seq<Held>, free: seq<nat>)

  /** The voices of the held queue, in queue order. */
  function Voices(held: seq<Held>): (r: seq<nat>)
    ensures |r| == |held| && forall k :: 0 <= k < |held| ==> r[k] == held[k].voice
  {
    seq(|held|, k requires 0 <= k < |held| => held[k].voice)
  }

  /** Every one of the `n` voices is in exactly one queue, neither queue
      repeats a voice, and the note map holds exactly the held pairs. */
  ghost predicate Inv(a: Alloc, n: nat)
  {
    QueueInv(a, n) && MapInv(a)
  }

  /** Each voice below `n` is in exactly one queue, once. */
  ghost predicate QueueInv(a: Alloc, n: nat)
  {
    && Distinct(a.free) && Distinct(Voices(a.held))
    && (forall v :: v in a.free ==> v < n)
    && (forall v :: v in Voices(a.held) ==> v < n)
    && (forall v :: 0 <= v < n ==> (v in a.free <==> v !in Voices(a.held)))
  }

  /** The note map holds exactly the held pairs. */
  ghost predicate MapInv(a: Alloc)
  {
    && (forall h :: h in a.held ==> h.note in a.noteToVoice && a.noteToVoice[h.note] == h.voice)
    && (forall m :: m in a.noteToVoice ==> Held(a.noteToVoice[m], m) in a.held)
  }

  /** `new`: every voice free, in index order, nothing held. */
  function Initial(n: nat): (a: Alloc)
    ensures Inv(a, n)
    ensures a.free == Range(n) && a.held == [] && a.noteToVoice == map[]
  {
    Alloc(map[], [], Range(n))
  }

  /** `remove_from_queue(voice)`: the held queue without the first pair of
      that voice. */
  function RemoveVoice(held: seq<Held>, voice: nat): seq<Held>
  {
    var i := IndexOf(Voices(held), voice);
    if i < |held| then held[..i] + held[i + 1..] else held
  }

  /** Removing a voice from the held queue removes it from its voices. */
  lemma VoicesRemove(held: seq<Held>, voice: nat)
    ensures Voices(RemoveVoice(held, voice)) == Remove(Voices(held), voice)
  {
    var vs := Voices(held);
    var i := IndexOf(vs, voice);
    if i < |held| {
      var r := held[..i] + held[i + 1..];
      assert forall k :: 0 <= k < |r| ==> Voices(r)[k] == (vs[..i] + vs[i + 1..])[k];
    }
  }

  /** In a queue without repeated voices, removing a voice drops exactly its
      pair. */
  lemma RemoveVoiceMembers(held: seq<Held>, voice: nat)
    requires Distinct(Voices(held))
    ensures forall h :: h in RemoveVoice(held, voice) <==> h in held && h.voice != voice
  {
    var vs := Voices(held);
    var i := IndexOf(vs, voice);
    if i < |held| {
      var r := held[..i] + held[i + 1..];
      forall h | h in held && h.voice != voice
        ensures h in r
      {
        var k :| 0 <= k < |held| && held[k] == h;
        if k < i { assert r[k] == h; } else { assert r[k - 1] == h; }
      }
      forall h | h in r
        ensures h in held && h.voice != voice
      {
        var k :| 0 <= k < |r| && r[k] == h;
        if k < i {
          assert vs[k] != vs[i];
        } else {
          assert r[k] == held[k + 1];
          assert vs[k + 1] != vs[i];
        }
      }
    } else {
      forall h | h in held
        ensures h.voice != voice
      {
        var k :| 0 <= k < |held| && held[k] == h;
        assert vs[k] == h.voice;
      }
    }
  }

  /** The voices of a queue with one pair appended. */
  lemma VoicesAppend(held: seq<Held>, h: Held)
    ensures Voices(held + [h]) == Voices(held) + [h.voice]
  {
  }

  /** The voices of a queue without its oldest pair. */
  lemma VoicesTail(held: seq<Held>)
    requires |held| >= 1
    ensures Voices(held[1..]) == Voices(held)[1..]
  {
  }

  /** `note_on` can take a voice: the note is held, a voice is free, or one
      is held to be stolen (otherwise the source's `unwrap` panics). */
  predicate CanNoteOn(a: Alloc, note: u8)
  {
    note in a.noteToVoice || |a.free| > 0 || |a.held| > 0
  }

  /** `note_on(note)`: the new state and the index of the voice it lends. */
  function Pressed(a: Alloc, note: u8): (Alloc, nat)
    requires CanNoteOn(a, note)
  {
    if note in a.noteToVoice then
      var i := a.noteToVoice[note];
      (a.(held := RemoveVoice(a.held, i) + [Held(i, note)]), i)
    else if |a.free| > 0 then
      var i := a.free[0];
      (Alloc(a.noteToVoice[note := i], a.held + [Held(i, note)], a.free[1..]), i)
    else
      var oldest := a.held[0];
      var i := oldest.voice;
      (Alloc((a.noteToVoice - {oldest.note})[note := i], a.held[1..] + [Held(i, note)], a.free), i)
  }

  /** A valid allocator over at least one voice can always take a note. */
  lemma CanAlwaysNoteOn(a: Alloc, n: nat, note: u8)
    requires Inv(a, n) && n >= 1
    ensures CanNoteOn(a, note)
  {
    if |a.free| == 0 {
      assert 0 in Voices(a.held);
    }
  }

  /** Which voice `note_on` lends: the note's own voice while it is held,
      else the oldest free voice, else the oldest held voice, whose note is
      then unmapped. The lent voice ends up newest in the held queue, mapped
      from the note. */
  lemma NoteOnChoice(a: Alloc, n: nat, note: u8)
    requires Inv(a, n) && n >= 1
    ensures CanNoteOn(a, note)
    ensures var (r, i) := Pressed(a, note);
      && i < n
      && r.held[|r.held| - 1] == Held(i, note)
      && note in r.noteToVoice && r.noteToVoice[note] == i
      && (note in a.noteToVoice ==> i == a.noteToVoice[note] && r.free == a.free)
      && (note !in a.noteToVoice && |a.free| > 0 ==> i == a.free[0] && r.free == a.free[1..])
      && (note !in a.noteToVoice && |a.free| == 0 ==>
            i == a.held[0].voice && a.held[0].note !in r.noteToVoice && r.free == [])
  {
    CanAlwaysNoteOn(a, n, note);
    if note !in a.noteToVoice && |a.free| == 0 {
      assert a.held[0] in a.held;
      assert Voices(a.held)[0] in Voices(a.held);
    } else if note !in a.noteToVoice {
      assert a.free[0] in a.free;
    } else {
      assert Held(a.noteToVoice[note], note) in a.held;
      var k :| 0 <= k < |a.held| && a.held[k] == Held(a.noteToVoice[note], note);
      assert Voices(a.held)[k] in Voices(a.held);
    }
  }

  /** `note_on` keeps the allocator's invariant. */
  lemma NoteOnInv(a: Alloc, n: nat, note: u8)
    requires Inv(a, n) && n >= 1
    ensures CanNoteOn(a, note) && Inv(Pressed(a, note).0, n)
  {
    CanAlwaysNoteOn(a, n, note);
    if note in a.noteToVoice {
      RetriggerInv(a, n, note);
    } else if |a.free| > 0 {
      TakeFreeInv(a, n, note);
    } else {
      assert Voices(a.held)[0] in Voices(a.held);
      StealQueueInv(a, n, note);
      StealMapInv(a, n, note);
    }
  }

  /** Retriggering a held note only moves its pair to the back. */
  lemma RetriggerInv(a: Alloc, n: nat, note: u8)
    requires Inv(a, n) && note in a.noteToVoice
    ensures Inv(Pressed(a, note).0, n)
  {
    var (r, i) := Pressed(a, note);
    var h := Held(i, note);
    assert h in a.held;
    var k :| 0 <= k < |a.held| && a.held[k] == h;
    assert Voices(a.held)[k] == i;
    RemoveVoiceMembers(a.held, i);
    forall g | g in a.held && g.voice == i
      ensures g == h
    {
      var j :| 0 <= j < |a.held| && a.held[j] == g;
      assert Voices(a.held)[j] == Voices(a.held)[k];
    }
    RetriggerQueueInv(a, n, note);
    assert forall g :: g in r.held <==> g in a.held;
  }

  /** The retriggered voice leaves the held queue's voices and is appended
      again. */
  lemma RetriggerQueueInv(a: Alloc, n: nat, note: u8)
    requires QueueInv(a, n) && note in a.noteToVoice && a.noteToVoice[note] in Voices(a.held)
    ensures QueueInv(Pressed(a, note).0, n)
  {
    var (r, i) := Pressed(a, note);
    var rest := RemoveVoice(a.held, i);
    VoicesRemove(a.held, i);
    RemoveMembers(Voices(a.held), i);
    AddDistinct(Voices(rest), i);
    VoicesAppend(rest, Held(i, note));
  }

  /** Taking the oldest free voice moves it from the free queue to the back
      of the held queue. */
  lemma TakeFreeInv(a: Alloc, n: nat, note: u8)
    requires Inv(a, n) && note !in a.noteToVoice && |a.free| > 0
    ensures Inv(Pressed(a, note).0, n)
  {
    var (r, i) := Pressed(a, note);
    var h := Held(i, note);
    assert a.free[0] in a.free;
    assert i !in Voices(a.held);
    AddDistinct(Voices(a.held), i);
    VoicesAppend(a.held, h);
    assert Distinct(a.free[1..]);
    forall v | v in a.free[1..]
      ensures v != i && v < n
    {
      var k :| 0 <= k < |a.free[1..]| && a.free[1..][k] == v;
      assert a.free[k + 1] != a.free[0];
      assert a.free[k + 1] in a.free;
    }
    forall m | m in r.noteToVoice
      ensures Held(r.noteToVoice[m], m) in r.held
    {
      if m != note {
        assert Held(a.noteToVoice[m], m) in a.held;
      }
    }
    forall g | g in r.held
      ensures g.note in r.noteToVoice && r.noteToVoice[g.note] == g.voice
    {
      if g != h {
        assert g in a.held;
        assert g.note in a.noteToVoice;
      }
    }
  }

  /** Stealing the oldest held voice rotates it to the back of the held
      queue: the queues keep their voices. */
  lemma StealQueueInv(a: Alloc, n: nat, note: u8)
    requires QueueInv(a, n) && note !in a.noteToVoice && |a.free| == 0 && |a.held| > 0
    ensures QueueInv(Pressed(a, note).0, n)
  {
    var (r, i) := Pressed(a, note);
    var vs := Voices(a.held);
    VoicesTail(a.held);
    VoicesAppend(a.held[1..], Held(i, note));
    assert Voices(r.held) == vs[1..] + [vs[0]];
    RotateMembers(vs);
  }

  /** Stealing the oldest held voice unmaps its note and maps the new one. */
  lemma StealMapInv(a: Alloc, n: nat, note: u8)
    requires Inv(a, n) && note !in a.noteToVoice && |a.free| == 0 && |a.held| > 0
    ensures MapInv(Pressed(a, note).0)
  {
    var (r, i) := Pressed(a, note);
    var oldest := a.held[0];
    var h := Held(i, note);
    var tail := a.held[1..];
    forall g | g in tail
      ensures g.note != oldest.note && g.voice != i
    {
      var k :| 0 <= k < |tail| && tail[k] == g;
      assert a.held[k + 1] == g;
      assert Voices(a.held)[k + 1] != Voices(a.held)[0];
      assert g in a.held;
    }
    forall g | g in r.held
      ensures g.note in r.noteToVoice && r.noteToVoice[g.note] == g.voice
    {
      if g != h {
        assert g in tail;
        assert g in a.held;
        assert g.note != note;
      }
    }
    forall m | m in r.noteToVoice
      ensures Held(r.noteToVoice[m], m) in r.held
    {
      if m != note {
        var g := Held(a.noteToVoice[m], m);
        assert g in a.held;
        assert g != oldest;
        var k :| 0 <= k < |a.held| && a.held[k] == g;
        assert k != 0;
        assert tail[k - 1] == g;
        assert (tail + [h])[k - 1] == g;
      }
    }
  }

  /** `note_off(note)`: the new state and the voice it frees, if the note was
      held. */
  function Released(a: Alloc, note: u8): (Alloc, Option<nat>)
  {
    if note in a.noteToVoice then
      var i := a.noteToVoice[note];
      (Alloc(a.noteToVoice - {note}, RemoveVoice(a.held, i), a.free + [i]), Some(i))
    else
      (a, None)
  }

  /** Releasing a held note keeps the invariant. */
  lemma ReleasedInv(a: Alloc, n: nat, note: u8)
    requires Inv(a, n) && note in a.noteToVoice
    ensures Inv(Released(a, note).0, n)
  {
    var i := a.noteToVoice[note];
    var h := Held(i, note);
    assert h in a.held;
    var k :| 0 <= k < |a.held| && a.held[k] == h;
    assert Voices(a.held)[k] == i;
    RemoveVoiceMembers(a.held, i);
    forall g | g in a.held && g.voice == i
      ensures g == h
    {
      var j :| 0 <= j < |a.held| && a.held[j] == g;
      assert Voices(a.held)[j] == Voices(a.held)[k];
    }
    ReleasedQueueInv(a, n, note);
    ReleasedMapInv(a, note);
  }

  /** Releasing moves the voice from the held queue to the free queue. */
  lemma ReleasedQueueInv(a: Alloc, n: nat, note: u8)
    requires QueueInv(a, n) && note in a.noteToVoice
    requires a.noteToVoice[note] in Voices(a.held)
    ensures QueueInv(Released(a, note).0, n)
  {
    var i := a.noteToVoice[note];
    VoicesRemove(a.held, i);
    RemoveMembers(Voices(a.held), i);
    assert i !in a.free;
    AddDistinct(a.free, i);
  }

  /** Releasing unmaps the note together with its pair, the only pair of
      its voice. */
  lemma ReleasedMapInv(a: Alloc, note: u8)
    requires MapInv(a) && note in a.noteToVoice
    requires forall h :: h in RemoveVoice(a.held, a.noteToVoice[note]) <==>
      h in a.held && h.voice != a.noteToVoice[note]
    requires forall h :: h in a.held && h.voice == a.noteToVoice[note] ==> h.note == note
    ensures MapInv(Released(a, note).0)
  {
    var r := Released(a, note).0;
    var i := a.noteToVoice[note];
    forall m | m in r.noteToVoice
      ensures Held(r.noteToVoice[m], m) in r.held
    {
      var g := Held(a.noteToVoice[m], m);
      assert g in a.held;
    }
  }

  /** A held note's voice is released to the back of the free queue and the
      note unmapped; an unheld note changes nothing and frees no voice. The
      invariant holds after either. */
  lemma NoteOffSpec(a: Alloc, n: nat, note: u8)
    requires Inv(a, n)
    ensures var (r, o) := Released(a, note);
      && Inv(r, n)
      && note !in r.noteToVoice
      && (note in a.noteToVoice ==>
            o == Some(a.noteToVoice[note]) && r.free == a.free + [o.value]
            && o.value !in Voices(r.held) && o.value < n)
      && (note !in a.noteToVoice ==> o == None && r == a)
  {
    if note in a.noteToVoice {
      ReleasedInv(a, n, note);
      var i := a.noteToVoice[note];
      assert Held(i, note) in a.held;
      var k :| 0 <= k < |a.held| && a.held[k] == Held(i, note);
      assert Voices(a.held)[k] == i;
      VoicesRemove(a.held, i);
      RemoveMembers(Voices(a.held), i);
    }
  }

  /** Releasing a note right after pressing it frees the voice it was given. */
  lemma NoteOnThenOff(a: Alloc, n: nat, note: u8)
    requires Inv(a, n) && n >= 1
    ensures CanNoteOn(a, note)
    ensures Released(Pressed(a, note).0, note).1 == Some(Pressed(a, note).1)
  {
    NoteOnChoice(a, n, note);
  }

  /** A voice allocator lending indices into `voices`. */
  class VoiceArray<T> {
    const voices: seq<T>
    var noteToVoice: map<u8, nat>
    var heldVoices: seq<Held>
    var freeVoices: seq<nat>

    function State(): Alloc
      reads this
    {
      Alloc(noteToVoice, heldVoices, freeVoices)
    }

    ghost predicate Valid()
      reads this
    {
      Inv(State(), |voices|)
    }

    /** `new(voices)`: queues every voice as free, in index order. */
    constructor (voices: seq<T>)
      ensures Valid() && this.voices == voices && State() == Initial(|voices|)
    {
      this.voices := voices;
      noteToVoice := map[];
      heldVoices := [];
      var free: seq<nat> := [];
      for i := 0 to |voices|
        invariant free == Range(i)
      {
        free := free + [i];
      }
      freeVoices := free;
    }

    /** `note_on(note)`: returns the index of the voice to trigger. The
        source's `unwrap` panics on an array with no voices. */
    method NoteOn(note: u8) returns (i: nat)
      requires Valid() && |voices| >= 1
      modifies this
      ensures Valid() && i < |voices|
      ensures CanNoteOn(old(State()), note) && (State(), i) == Pressed(old(State()), note)
    {
      NoteOnInv(State(), |voices|, note);
      NoteOnChoice(State(), |voices|, note);
      if note in noteToVoice {
        i := noteToVoice[note];
        RemoveFromQueue(i);
      } else {
        if |freeVoices| > 0 {
          i := freeVoices[0];
          freeVoices := freeVoices[1..];
        } else {
          var oldest := heldVoices[0];
          heldVoices := heldVoices[1..];
          noteToVoice := noteToVoice - {oldest.note};
          i := oldest.voice;
        }
        noteToVoice := noteToVoice[note := i];
      }
      heldVoices := heldVoices + [Held(i, note)];
    }

    /** `note_off(note)`: the released voice's index, if the note was held. */
    method NoteOff(note: u8) returns (o: Option<nat>)
      requires Valid()
      modifies this
      ensures Valid() && (State(), o) == Released(old(State()), note)
      ensures o.Some? ==> o.value < |voices|
    {
      ghost var a := State();
      NoteOffSpec(a, |voices|, note);
      if note in noteToVoice {
        var i := noteToVoice[note];
        noteToVoice := noteToVoice - {note};
        RemoveFromQueue(i);
        freeVoices := freeVoices + [i];
        o := Some(i);
        assert State() == Released(a, note).0;
      } else {
        o := None;
      }
    }

    /** `remove_from_queue(voice)`: scans the held queue from the front and
        removes the first pair of that voice. */
    method RemoveFromQueue(voice: nat)
      modifies this
      ensures heldVoices == RemoveVoice(old(heldVoices), voice)
      ensures noteToVoice == old(noteToVoice) && freeVoices == old(freeVoices)
    {
      ghost var vs := Voices(heldVoices);
      var i := 0;
      while i < |heldVoices|
        invariant 0 <= i <= |heldVoices| && heldVoices == old(heldVoices)
        invariant forall k :: 0 <= k < i ==> vs[k] != voice
      {
        if heldVoices[i].voice == voice {
          assert IndexOf(vs, voice) == i;
          heldVoices := heldVoices[..i] + heldVoices[i + 1..];
          return;
        }
        i := i + 1;
      }
      assert IndexOf(vs, voice) == |vs|;
    }
  }
}
