/** The ADSR envelope: a five-state machine (attack, decay, sustain, release,
    silent) driven by note messages and by a per-sample time counter. The
    exponential shape of each stage is computed by `compute_deltas`, which is
    a parameter here (`Deltas`); only the state progression, the counters and
    the way the level is applied are modelled. */
module Adsr {
  import opened Types

  datatype AdsrState = Silent | Attack | Decay | Sustain | Release

  /** How many transitions separate a state from Silent. */
  function Rank(s: AdsrState): nat
  {
    match s
    case Attack => 4
    case Decay => 3
    case Sustain => 2
    case Release => 1
    case Silent => 0
  }

  /** `AdsrState::next`: each state steps one place towards Silent, which is
      a fixed point. */
  function Next(s: AdsrState): (r: AdsrState)
    ensures s == Silent ==> r == Silent
    ensures s != Silent ==> Rank(r) + 1 == Rank(s)
  {
    match s
    case Attack => Decay
    case Decay => Sustain
    case Sustain => Release
    case Release => Silent
    case Silent => Silent
  }

  /** `Next` applied `n` times. */
  function NextN(s: AdsrState, n: nat): AdsrState
    decreases n
  {
    if n == 0 then s else NextN(Next(s), n - 1)
  }

  /** From any state, `Rank(s)` steps lead to Silent, and no fewer do. */
  lemma {:induction false} ReachesSilent(s: AdsrState, n: nat)
    ensures (NextN(s, n) == Silent) <==> n >= Rank(s)
    decreases n
  {
    if n > 0 {
      ReachesSilent(Next(s), n - 1);
    }
  }

  datatype Message =
    | NoteDown
    | NoteUp
    | SetAttack(attack: real)
    | SetDecay(decay: real)
    | SetSustain(sustain: real)
    | SetRelease(release: real)

  /** `compute_deltas`: given the new stage's length in samples, the level
      it heads for and the current level, the (multiplier, delta) pair of the
      exponential approach. */
  type Deltas = (Time, real, real) -> (real, real)

  /** Every field of an `Adsr` except the channel count. */
  datatype Envelope = Envelope(
    attackTime: Time, decayTime: Time, releaseTime: Time, sustainLevel: real,
    state: AdsrState, nextStateChange: Time, stateTime: Time,
    level: real, delta: real, multiplier: real)

  /** The parameters of two envelopes agree. */
  predicate SameParams(a: Envelope, b: Envelope)
  {
    && a.attackTime == b.attackTime && a.decayTime == b.decayTime
    && a.releaseTime == b.releaseTime && a.sustainLevel == b.sustainLevel
  }

  /** The states that never time out have a zero timer, and Sustain (which is
      only entered from a tick) has already counted past it. */
  predicate Inv(e: Envelope)
  {
    && (e.state == Sustain || e.state == Silent ==> e.nextStateChange == 0)
    && (e.state == Sustain ==> e.stateTime >= 1)
  }

  /** `Adsr::new`: stage lengths in whole samples, silent, every counter at
      zero. */
  function Initial(attack: real, decay: real, sustain: real, release: real): (e: Envelope)
    ensures Inv(e) && e.state == Silent && e.stateTime == 0 && e.nextStateChange == 0
    ensures e.level == 0.0 && e.delta == 0.0 && e.multiplier == 0.0
    ensures e.attackTime == SecondsToSamples(attack) && e.decayTime == SecondsToSamples(decay)
    ensures e.releaseTime == SecondsToSamples(release) && e.sustainLevel == sustain
  {
    Envelope(SecondsToSamples(attack), SecondsToSamples(decay), SecondsToSamples(release),
             sustain, Silent, 0, 0, 0.0, 0.0, 0.0)
  }

  /** `handle_state_change(to)`. The timed stages take their length from the
      parameters and start an approach to 1.0, the sustain level or 0.0; the
      untimed ones pin the level. */
  function Entered(e: Envelope, to: AdsrState, deltas: Deltas): Envelope
  {
    match to
    case Attack =>
      var (m, d) := deltas(e.attackTime, 1.0, e.level);
      e.(state := Attack, nextStateChange := e.attackTime, multiplier := m, delta := d, stateTime := 0)
    case Decay =>
      var (m, d) := deltas(e.decayTime, e.sustainLevel, e.level);
      e.(state := Decay, nextStateChange := e.decayTime, multiplier := m, delta := d, stateTime := 0)
    case Sustain =>
      e.(state := Sustain, nextStateChange := 0, level := e.sustainLevel, delta := 0.0,
         multiplier := 0.0, stateTime := 0)
    case Release =>
      var (m, d) := deltas(e.releaseTime, 0.0, e.level);
      e.(state := Release, nextStateChange := e.releaseTime, multiplier := m, delta := d, stateTime := 0)
    case Silent =>
      e.(state := Silent, nextStateChange := 0, level := 0.0, delta := 0.0, multiplier := 0.0,
         stateTime := 0)
  }

  /** The length in samples `handle_state_change` gives a stage. */
  function StageLength(e: Envelope, s: AdsrState): Time
  {
    match s
    case Attack => e.attackTime
    case Decay => e.decayTime
    case Release => e.releaseTime
    case _ => 0
  }

  /** The level a timed stage heads for. */
  function Goal(e: Envelope, s: AdsrState): real
  {
    match s
    case Attack => 1.0
    case Decay => e.sustainLevel
    case _ => 0.0
  }

  /** A state change restarts the timer in the target state with that
      state's length, keeps the parameters, and either hands the current
      level to `compute_deltas` or pins level, delta and multiplier. */
  lemma EnteredSpec(e: Envelope, to: AdsrState, deltas: Deltas)
    ensures var r := Entered(e, to, deltas);
      && r.state == to && r.stateTime == 0 && r.nextStateChange == StageLength(e, to)
      && SameParams(r, e)
      && (to == Sustain ==> r.level == e.sustainLevel && r.delta == 0.0 && r.multiplier == 0.0)
      && (to == Silent ==> r.level == 0.0 && r.delta == 0.0 && r.multiplier == 0.0)
      && (to in {Attack, Decay, Release} ==>
            r.level == e.level && (r.multiplier, r.delta) == deltas(StageLength(e, to), Goal(e, to), e.level))
  {
  }

  /** `handle_message`. */
  function Handled(e: Envelope, msg: Message, deltas: Deltas): Envelope
  {
    match msg
    case NoteDown => Entered(e, Attack, deltas)
    case NoteUp => Entered(e, Release, deltas)
    case SetAttack(a) => e.(attackTime := SecondsToSamples(a))
    case SetDecay(d) => e.(decayTime := SecondsToSamples(d))
    case SetSustain(s) => e.(sustainLevel := s)
    case SetRelease(r) => e.(releaseTime := SecondsToSamples(r))
  }

  /** A note-on starts the attack and a note-off the release, from whatever
      state the envelope is in. */
  lemma NotesRestart(e: Envelope, deltas: Deltas)
    ensures var r := Handled(e, NoteDown, deltas);
      r.state == Attack && r.stateTime == 0 && r.nextStateChange == e.attackTime && SameParams(r, e)
    ensures var r := Handled(e, NoteUp, deltas);
      r.state == Release && r.stateTime == 0 && r.nextStateChange == e.releaseTime && SameParams(r, e)
  {
  }

  /** A parameter message changes that parameter and nothing else: the
      current stage and its timer run on with the old length. */
  lemma SettersOnlySetParams(e: Envelope, msg: Message, deltas: Deltas)
    requires !msg.NoteDown? && !msg.NoteUp?
    ensures var r := Handled(e, msg, deltas);
      && r.state == e.state && r.nextStateChange == e.nextStateChange && r.stateTime == e.stateTime
      && r.level == e.level && r.delta == e.delta && r.multiplier == e.multiplier
      && r.attackTime == (if msg.SetAttack? then SecondsToSamples(msg.attack) else e.attackTime)
      && r.decayTime == (if msg.SetDecay? then SecondsToSamples(msg.decay) else e.decayTime)
      && r.releaseTime == (if msg.SetRelease? then SecondsToSamples(msg.release) else e.releaseTime)
      && r.sustainLevel == (if msg.SetSustain? then msg.sustain else e.sustainLevel)
  {
  }

  /** Messages keep the invariant. */
  lemma HandledInv(e: Envelope, msg: Message, deltas: Deltas)
    requires Inv(e)
    ensures Inv(Handled(e, msg, deltas))
  {
  }

  /** One `tick` of the state: move to the next state when the timer hits
      the stage length, count one sample, then step the level and delta. */
  function Ticked(e: Envelope, deltas: Deltas): Envelope
  {
    var e1 := if e.stateTime == e.nextStateChange then Entered(e, Next(e.state), deltas) else e;
    var e2 := e1.(stateTime := e1.stateTime + 1);
    e2.(level := e2.level + e2.delta, delta := Scale(e2.multiplier, e2.delta))
  }

  /** A tick changes state exactly when the timer equals the stage length,
      and then to `Next`; the timer restarts at 1 or counts on. */
  lemma TickedState(e: Envelope, deltas: Deltas)
    ensures var r := Ticked(e, deltas);
      && (r.state != e.state ==> e.stateTime == e.nextStateChange && r.state == Next(e.state))
      && (e.stateTime == e.nextStateChange ==>
            r.state == Next(e.state) && r.stateTime == 1 && r.nextStateChange == StageLength(e, Next(e.state)))
      && (e.stateTime != e.nextStateChange ==>
            r.state == e.state && r.stateTime == e.stateTime + 1 && r.nextStateChange == e.nextStateChange)
      && SameParams(r, e)
  {
  }

  /** Ticks keep the invariant. */
  lemma TickedInv(e: Envelope, deltas: Deltas)
    requires Inv(e)
    ensures Inv(Ticked(e, deltas))
  {
  }

  /** `n` ticks in a row. */
  function TickN(e: Envelope, n: nat, deltas: Deltas): Envelope
    decreases n
  {
    if n == 0 then e else TickN(Ticked(e, deltas), n - 1, deltas)
  }

  /** Once the timer has passed the stage length, no tick ever changes the
      state again (nor the parameters), and the timer keeps counting. */
  lemma {:induction false} PastTimerAbsorbs(e: Envelope, n: nat, deltas: Deltas)
    requires e.stateTime > e.nextStateChange
    ensures var r := TickN(e, n, deltas);
      r.state == e.state && r.stateTime == e.stateTime + n && r.nextStateChange == e.nextStateChange
      && SameParams(r, e)
    decreases n
  {
    if n > 0 {
      TickedState(e, deltas);
      PastTimerAbsorbs(Ticked(e, deltas), n - 1, deltas);
    }
  }

  /** Sustain and Silent are absorbing under ticks: Sustain lasts until a
      note-off, and Silent until a note-on (a Silent envelope whose timer
      sits at 0 re-enters Silent on its first tick). */
  lemma UntimedAbsorb(e: Envelope, n: nat, deltas: Deltas)
    requires Inv(e) && (e.state == Sustain || e.state == Silent)
    ensures TickN(e, n, deltas).state == e.state
  {
    if e.stateTime > e.nextStateChange {
      PastTimerAbsorbs(e, n, deltas);
    } else if n > 0 {
      TickedState(e, deltas);
      PastTimerAbsorbs(Ticked(e, deltas), n - 1, deltas);
    }
  }

  /** A stage whose timer has not yet reached its length stays put for the
      `nextStateChange - stateTime` ticks it has left, and the tick after
      them enters `Next` with the timer at 1. */
  lemma {:induction false} StageRunsOut(e: Envelope, n: nat, deltas: Deltas)
    requires e.stateTime + n == e.nextStateChange
    ensures var r := TickN(e, n, deltas);
      r.state == e.state && r.stateTime == e.nextStateChange && r.nextStateChange == e.nextStateChange
      && SameParams(r, e)
    ensures var r := TickN(e, n + 1, deltas);
      r.state == Next(e.state) && r.stateTime == 1 && r.nextStateChange == StageLength(e, Next(e.state))
      && SameParams(r, e)
    decreases n
  {
    TickNSplit(e, n, deltas);
    if n > 0 {
      TickedState(e, deltas);
      StageRunsOut(Ticked(e, deltas), n - 1, deltas);
    } else {
      TickedState(e, deltas);
    }
  }

  /** `n + 1` ticks are `n` ticks followed by one. */
  lemma {:induction false} TickNSplit(e: Envelope, n: nat, deltas: Deltas)
    ensures TickN(e, n + 1, deltas) == Ticked(TickN(e, n, deltas), deltas)
    decreases n
  {
    if n > 0 {
      TickNSplit(Ticked(e, deltas), n - 1, deltas);
    }
  }

  /** After a note-on the envelope is in Attack for `attackTime` ticks and
      enters Decay on the next one. */
  lemma AttackLength(e: Envelope, deltas: Deltas)
    ensures var a := Handled(e, NoteDown, deltas);
      && TickN(a, e.attackTime, deltas).state == Attack
      && TickN(a, e.attackTime + 1, deltas).state == Decay
  {
    NotesRestart(e, deltas);
    StageRunsOut(Handled(e, NoteDown, deltas), e.attackTime, deltas);
  }

  /** A decay reached from a tick with a decay length of 0 never ends: its
      timer starts at 1, already past the length. */
  lemma ZeroDecayNeverEnds(e: Envelope, n: nat, deltas: Deltas)
    requires e.state == Attack && e.stateTime == e.nextStateChange && e.decayTime == 0
    ensures TickN(Ticked(e, deltas), n, deltas).state == Decay
  {
    TickedState(e, deltas);
    PastTimerAbsorbs(Ticked(e, deltas), n, deltas);
  }

  /** What a tick writes: every input sample scaled by the updated level. */
  function Apply(level: real, inputs: Frame): (r: Frame)
    ensures |r| == |inputs|
    ensures forall i :: 0 <= i < |inputs| ==> r[i] == Scale(level, inputs[i])
  {
    seq(|inputs|, i requires 0 <= i < |inputs| => Scale(level, inputs[i]))
  }

  /** An ADSR filter over `numChannels` channels. */
  class Adsr {
    const numChannels: nat
    /** `compute_deltas`. */
    const deltas: Deltas
    var attackTime: Time
    var decayTime: Time
    var releaseTime: Time
    var sustainLevel: real
    var currentState: AdsrState
    var nextStateChange: Time
    var stateTime: Time
    var level: real
    var delta: real
    var multiplier: real

    function State(): Envelope
      reads this
    {
      Envelope(attackTime, decayTime, releaseTime, sustainLevel,
               currentState, nextStateChange, stateTime, level, delta, multiplier)
    }

    ghost predicate Valid()
      reads this
    {
      Inv(State())
    }

    /** `Adsr::new(attack, decay, sustain, release, num_channels)`, times in
        seconds. */
    constructor (attack: real, decay: real, sustain: real, release: real,
                 numChannels: nat, deltas: Deltas)
      ensures Valid() && State() == Initial(attack, decay, sustain, release)
      ensures this.numChannels == numChannels && this.deltas == deltas
    {
      this.numChannels := numChannels;
      this.deltas := deltas;
      attackTime := SecondsToSamples(attack);
      decayTime := SecondsToSamples(decay);
      releaseTime := SecondsToSamples(release);
      sustainLevel := sustain;
      currentState := Silent;
      nextStateChange := 0;
      stateTime := 0;
      level := 0.0;
      delta := 0.0;
      multiplier := 0.0;
    }

    /** `Adsr::default`: 0.05 s attack, 0.5 s decay, sustain 0.5, 0.5 s
        release. */
    constructor Default(numChannels: nat, deltas: Deltas)
      ensures Valid() && State() == Initial(0.05, 0.5, 0.5, 0.5)
      ensures this.numChannels == numChannels && this.deltas == deltas
    {
      this.numChannels := numChannels;
      this.deltas := deltas;
      attackTime := SecondsToSamples(0.05);
      decayTime := SecondsToSamples(0.5);
      releaseTime := SecondsToSamples(0.5);
      sustainLevel := 0.5;
      currentState := Silent;
      nextStateChange := 0;
      stateTime := 0;
      level := 0.0;
      delta := 0.0;
      multiplier := 0.0;
    }

    function NumInputs(): (n: nat)
      ensures n == numChannels
    {
      numChannels
    }

    function NumOutputs(): (n: nat)
      ensures n == numChannels
    {
      numChannels
    }

    /** `compute_deltas(dest)`, with the stage length already stored. */
    method ComputeDeltas(dest: real)
      modifies this
      ensures State() == old(State()).(multiplier := deltas(nextStateChange, dest, level).0,
                                     delta := deltas(nextStateChange, dest, level).1)
    {
      var (m, d) := deltas(nextStateChange, dest, level);
      multiplier := m;
      delta := d;
    }

    /** `handle_state_change(to)`. */
    method HandleStateChange(to: AdsrState)
      modifies this
      ensures State() == Entered(old(State()), to, deltas)
    {
      match to {
        case Attack =>
          currentState := Attack;
          nextStateChange := attackTime;
          ComputeDeltas(1.0);
        case Decay =>
          currentState := Decay;
          nextStateChange := decayTime;
          ComputeDeltas(sustainLevel);
        case Sustain =>
          currentState := Sustain;
          nextStateChange := 0;
          level := sustainLevel;
          delta := 0.0;
          multiplier := 0.0;
        case Release =>
          currentState := Release;
          nextStateChange := releaseTime;
          ComputeDeltas(0.0);
        case Silent =>
          currentState := Silent;
          nextStateChange := 0;
          level := 0.0;
          delta := 0.0;
          multiplier := 0.0;
      }
      stateTime := 0;
    }

    /** `handle_message`. */
    method HandleMessage(msg: Message)
      requires Valid()
      modifies this
      ensures Valid() && State() == Handled(old(State()), msg, deltas)
    {
      HandledInv(State(), msg, deltas);
      match msg {
        case NoteDown => HandleStateChange(Attack);
        case NoteUp => HandleStateChange(Release);
        case SetAttack(a) => attackTime := SecondsToSamples(a);
        case SetDecay(d) => decayTime := SecondsToSamples(d);
        case SetSustain(s) => sustainLevel := s;
        case SetRelease(r) => releaseTime := SecondsToSamples(r);
      }
    }

    /** `tick`: the source writes `outputs[i]` for every input sample, so the
        input frame must have one sample per channel. */
    method Tick(t: Time, inputs: Frame) returns (outputs: Frame)
      requires Valid() && |inputs| == numChannels
      modifies this
      ensures Valid() && State() == Ticked(old(State()), deltas)
      ensures outputs == Apply(level, inputs)
    {
      TickedInv(State(), deltas);
      if stateTime == nextStateChange {
        HandleStateChange(Next(currentState));
      }
      stateTime := stateTime + 1;
      level := level + delta;
      delta := Scale(multiplier, delta);
      outputs := Zeros(numChannels);
      var i := 0;
      while i < |inputs|
        invariant 0 <= i <= |inputs| && |outputs| == |inputs|
        invariant forall k :: 0 <= k < i ==> outputs[k] == Scale(level, inputs[k])
      {
        outputs := outputs[i := Scale(level, inputs[i])];
        i := i + 1;
      }
    }
  }
}
