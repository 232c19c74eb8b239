/** A noise gate: it passes its input once the signal level rises above the
    on threshold and keeps passing it until the level falls below the off
    threshold. The level detectors' arithmetic is abstract: each detector's
    next level is a function of every sample it has been given. */
module NoiseGate {
  import opened Types
  import opened CoreIoArray

  /** The gate flag after one level reading: an open gate closes only below
      `off`, a closed gate opens only above `on`. */
  function Gate(active: bool, level: real, on: real, off: real): bool
  {
    if active && level < off then false
    else if !active && level > on then true
    else active
  }

  /** The flag after each of the readings `levels`, starting from `active`:
      one flag is shared by all channels and updated channel by channel. */
  function GateRun(active: bool, levels: seq<real>, on: real, off: real): (r: seq<bool>)
    ensures |r| == |levels|
  {
    if levels == [] then []
    else
      var prev := GateRun(active, levels[..|levels| - 1], on, off);
      prev + [Gate(Last(active, prev), levels[|levels| - 1], on, off)]
  }

  lemma GateRunSnoc(active: bool, levels: seq<real>, level: real, on: real, off: real)
    ensures GateRun(active, levels + [level], on, off) ==
      GateRun(active, levels, on, off) + [Gate(Last(active, GateRun(active, levels, on, off)), level, on, off)]
  {
    assert (levels + [level])[..|levels|] == levels;
  }

  /** The flag after the readings `states` were taken, or `active` if none. */
  function Last(active: bool, states: seq<bool>): bool
  {
    if states == [] then active else states[|states| - 1]
  }

  /** The flag changes only at a reading outside the band between the
      thresholds: it falls only at a level below `off` and rises only at a
      level above `on`. */
  lemma {:induction false} FlipsOnlyOutsideBand(active: bool, levels: seq<real>, on: real, off: real, k: nat)
    requires k < |levels|
    ensures var r := GateRun(active, levels, on, off);
      var before := if k == 0 then active else r[k - 1];
      && (before && !r[k] ==> levels[k] < off)
      && (!before && r[k] ==> levels[k] > on)
    decreases |levels|
  {
    var n := |levels| - 1;
    if k < n {
      FlipsOnlyOutsideBand(active, levels[..n], on, off, k);
    }
  }

  /** Readings that all stay between the thresholds never move the flag. */
  lemma {:induction false} BandKeepsState(active: bool, levels: seq<real>, on: real, off: real)
    requires forall k :: 0 <= k < |levels| ==> off <= levels[k] <= on
    ensures forall k :: 0 <= k < |levels| ==> GateRun(active, levels, on, off)[k] == active
    decreases |levels|
  {
    if levels != [] {
      var n := |levels| - 1;
      BandKeepsState(active, levels[..n], on, off);
    }
  }

  /** A level detector's state, owned by the gate: the samples it has heard.
      Its level arithmetic is a parameter, `respond`, of the whole history. */
  datatype LevelDetector = LevelDetector(heard: seq<Sample>)

  /** The detector after hearing `s`, and the level it reports. */
  function ComputeNextLevel(d: LevelDetector, s: Sample, respond: seq<Sample> -> real): (r: (LevelDetector, real))
    ensures r.0.heard == d.heard + [s] && r.1 == respond(r.0.heard)
  {
    var d' := LevelDetector(d.heard + [s]);
    (d', respond(d'.heard))
  }

  class NoiseGate {
    const inputs: InputArray<Sample>
    const outputs: OutputArray<Sample>
    var detectors: seq<LevelDetector>
    var active: bool
    const numChannels: nat
    const onThreshold: real
    const offThreshold: real
    const gain: real
    const respond: seq<Sample> -> real

    ghost predicate Valid()
      reads this, inputs, outputs
    {
      && outputs.Valid() && |outputs.chs| == numChannels && |inputs.chs| == numChannels
      && |detectors| == numChannels
    }

    /** A closed gate whose thresholds and gain are converted from decibels
        once, here; every channel has a detector that has heard nothing. */
    constructor (on: real, off: real, gainDb: real, numChannels: nat,
                 decibelToRatio: real -> real, respond: seq<Sample> -> real)
      ensures Valid() && fresh(inputs) && fresh(outputs) && !active
      ensures this.numChannels == numChannels && this.respond == respond
      ensures onThreshold == decibelToRatio(on) && offThreshold == decibelToRatio(off)
      ensures gain == decibelToRatio(gainDb)
      ensures forall k :: 0 <= k < numChannels ==> detectors[k].heard == []
      ensures forall k :: 0 <= k < numChannels ==> fresh(outputs.chs[k]) && inputs.chs[k] == None
    {
      var ds: seq<LevelDetector> := [];
      for i := 0 to numChannels
        invariant |ds| == i && forall k :: 0 <= k < i ==> ds[k].heard == []
      {
        ds := ds + [LevelDetector([])];
      }
      inputs := new InputArray(numChannels);
      outputs := new OutputArray(numChannels, 0.0);
      detectors := ds;
      active := false;
      this.numChannels := numChannels;
      onThreshold := decibelToRatio(on);
      offThreshold := decibelToRatio(off);
      gain := decibelToRatio(gainDb);
      this.respond := respond;
    }

    /** One frame: channel by channel, the detector hears the input (0 when
        missing), the shared flag is updated from its level, and the output
        is the gained input while the gate is open and 0 otherwise. The
        inputs must not read the gate's own outputs. */
    method Tick(t: Time) returns (ghost levels: seq<real>)
      requires Valid()
      requires forall k :: 0 <= k < numChannels ==> outputs.chs[k] !in inputs.Channels()
      modifies this, outputs.chs
      ensures Valid()
      ensures var xs := old(inputs.Samples(t, 0.0));
        var states := GateRun(old(active), levels, onThreshold, offThreshold);
        && |levels| == numChannels
        && active == Last(old(active), states)
        && forall k :: 0 <= k < numChannels ==>
          && detectors[k].heard == old(detectors[k].heard) + [xs[k]]
          && levels[k] == respond(detectors[k].heard)
          && outputs.chs[k].data == Scale(gain, if states[k] then xs[k] else 0.0)
          && outputs.chs[k].nextT == old(outputs.chs[k].nextT) + 1
    {
      var xs := inputs.Samples(t, 0.0);
      var ds, on, frames;
      ds, on, frames, levels := GateFrame(detectors, active, xs);
      for i := 0 to numChannels
        invariant forall k :: 0 <= k < i ==>
          outputs.chs[k].data == frames[k] && outputs.chs[k].nextT == old(outputs.chs[k].nextT) + 1
        invariant forall k :: i <= k < numChannels ==> outputs.chs[k].nextT == old(outputs.chs[k].nextT)
      {
        outputs.Push(i, frames[i]);
      }
      detectors := ds;
      active := on;
    }

    /** The channel loop on values: detector `k` hears `xs[k]`, the shared
        flag is updated from its level, and frame `k` is the gained input
        while the flag is up and 0 otherwise. */
    method GateFrame(ds: seq<LevelDetector>, active: bool, xs: seq<Sample>)
      returns (ds': seq<LevelDetector>, active': bool, frames: seq<Sample>, ghost levels: seq<real>)
      requires |ds| == |xs|
      ensures |ds'| == |frames| == |levels| == |xs|
      ensures var states := GateRun(active, levels, onThreshold, offThreshold);
        && active' == Last(active, states)
        && forall k :: 0 <= k < |xs| ==>
          && ds'[k].heard == ds[k].heard + [xs[k]]
          && levels[k] == respond(ds'[k].heard)
          && frames[k] == Scale(gain, if states[k] then xs[k] else 0.0)
    {
      ghost var states: seq<bool> := [];
      ds', active', frames, levels := ds, active, [], [];
      for i := 0 to |xs|
        invariant |ds'| == |xs| && |frames| == |levels| == i
        invariant states == GateRun(active, levels, onThreshold, offThreshold)
        invariant active' == Last(active, states)
        invariant forall k :: 0 <= k < i ==> ds'[k].heard == ds[k].heard + [xs[k]] && levels[k] == respond(ds'[k].heard)
        invariant forall k :: i <= k < |xs| ==> ds'[k] == ds[k]
        invariant forall k :: 0 <= k < i ==> frames[k] == Scale(gain, if states[k] then xs[k] else 0.0)
      {
        var s := xs[i];
        var r := ComputeNextLevel(ds'[i], s, respond);
        var d, level := r.0, r.1;
        ds' := ds'[i := d];
        if active' && level < offThreshold {
          active' := false;
        } else if !active' && level > onThreshold {
          active' := true;
        }
        if !active' {
          s := 0.0;
        }
        GateRunSnoc(active, levels, level, onThreshold, offThreshold);
        levels := levels + [level];
        states := states + [active'];
        frames := frames + [Scale(gain, s)];
      }
    }
  }
}
