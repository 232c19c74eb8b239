/** A linear chain of audio devices: each device reads the output frame of the
    one before it, and the first reads the chain's own input frame. */
module Chain {
  import opened Types
  import opened Device

  /** The output frame stage `k` writes in one chain tick at time `t` with
      chain input `x`, for the nodes `ns` whose devices have histories `hs`:
      stage 0 reads `x` and every later stage reads the frame the stage before
      it wrote in this same tick. */
  function StageOut(ns: seq<AudioNode>, hs: seq<History>, t: Time, x: Frame, k: nat): (r: Frame)
    requires |hs| == |ns| && k < |ns|
    decreases k, 1
  {
    Emit(ns[k].device.model, hs[k], t, StageIn(ns, hs, t, x, k))
  }

  /** The frame stage `k` reads in that tick. */
  function StageIn(ns: seq<AudioNode>, hs: seq<History>, t: Time, x: Frame, k: nat): (r: Frame)
    requires |hs| == |ns| && k < |ns|
    decreases k, 0
  {
    if k == 0 then x else StageOut(ns, hs, t, x, k - 1)
  }

  /** Every history after the tick: each stage has recorded exactly one call,
      at `t`, with the frame it read. */
  function Advance(ns: seq<AudioNode>, hs: seq<History>, t: Time, x: Frame): (r: seq<History>)
    requires |hs| == |ns|
    ensures |r| == |hs|
    ensures forall k :: 0 <= k < |hs| ==> r[k] == hs[k] + [Call(t, StageIn(ns, hs, t, x, k))]
  {
    seq(|hs|, k requires 0 <= k < |hs| => hs[k] + [Call(t, StageIn(ns, hs, t, x, k))])
  }

  /** A one-stage chain outputs exactly what its device's own tick writes. */
  lemma OneStage(a: AudioNode, ha: History, t: Time, x: Frame)
    ensures StageOut([a], [ha], t, x, 0) == Emit(a.device.model, ha, t, x)
  {
  }

  /** Composition: the output of a chain A, B, C is C applied to B applied to
      A applied to the chain's input. */
  lemma ThreeStages(a: AudioNode, b: AudioNode, c: AudioNode,
                    ha: History, hb: History, hc: History, t: Time, x: Frame)
    ensures StageOut([a, b, c], [ha, hb, hc], t, x, 2) ==
      Emit(c.device.model, hc, t, Emit(b.device.model, hb, t, Emit(a.device.model, ha, t, x)))
  {
    var ns, hs := [a, b, c], [ha, hb, hc];
    assert StageOut(ns, hs, t, x, 0) == Emit(a.device.model, ha, t, x);
    assert StageOut(ns, hs, t, x, 1) == Emit(b.device.model, hb, t, Emit(a.device.model, ha, t, x));
  }

  /** A device inside a chain, together with its output buffer. */
  class AudioNode {
    const device: AudioDevice
    var outputs: Frame

    constructor (device: AudioDevice)
      ensures this.device == device
      ensures outputs == Zeros(device.model.numOutputs)
    {
      this.device := device;
      outputs := Zeros(device.model.numOutputs);
    }

    /** Ticks the device once, writing into this node's output buffer. */
    method Tick(t: Time, inputs: Frame)
      modifies this, device
      ensures outputs == Emit(device.model, old(device.history), t, inputs)
      ensures device.history == old(device.history) + [Call(t, inputs)]
    {
      outputs := device.Tick(t, inputs);
    }
  }

  class DeviceChain {
    var inputs: Frame
    var devices: seq<AudioNode>
    var time: Time
    /** The call history of every stage's device, kept by `Tick`. */
    ghost var Histories: seq<History>
    ghost var Repr: set<object>

    ghost predicate Valid()
      reads this, Repr
    {
      && this in Repr
      && |devices| >= 1
      && (forall k :: 0 <= k < |devices| ==> devices[k] in Repr && devices[k].device in Repr)
      && (forall j, k :: 0 <= j < k < |devices| ==>
            devices[j] != devices[k] && devices[j].device != devices[k].device)
      && |inputs| == devices[0].device.model.numInputs
      && (forall k :: 0 <= k < |devices| ==> |devices[k].outputs| == devices[k].device.model.numOutputs)
      && (forall k :: 0 <= k < |devices| - 1 ==>
            devices[k].device.model.numOutputs == devices[k + 1].device.model.numInputs)
      && |Histories| == |devices|
      && (forall k :: 0 <= k < |devices| ==> Histories[k] == devices[k].device.history)
    }

    /** A chain holding `device` alone, with a silent input frame of the
        device's input count, at time 0. */
    constructor From(device: AudioDevice)
      ensures Valid() && fresh(Repr - {device})
      ensures |devices| == 1 && devices[0].device == device
      ensures devices[0].outputs == Zeros(device.model.numOutputs)
      ensures inputs == Zeros(device.model.numInputs) && time == 0
    {
      var node := new AudioNode(device);
      inputs := Zeros(device.model.numInputs);
      devices := [node];
      time := 0;
      Histories := [device.history];
      Repr := {this, node, device};
    }

    /** Appends `device` after the last stage. The source panics unless the
        last stage's output count equals the new device's input count. */
    method Into(device: AudioDevice)
      requires Valid() && device !in Repr
      requires |devices[|devices| - 1].outputs| == device.model.numInputs
      modifies this
      ensures Valid() && fresh(Repr - old(Repr) - {device})
      ensures |devices| == |old(devices)| + 1 && devices[..|old(devices)|] == old(devices)
      ensures devices[|devices| - 1].device == device
      ensures devices[|devices| - 1].outputs == Zeros(device.model.numOutputs)
      ensures inputs == old(inputs) && time == old(time)
    {
      var node := new AudioNode(device);
      devices := devices + [node];
      Histories := Histories + [device.history];
      Repr := Repr + {node, device};
    }

    /** Overwrites the input frame read by the first stage (`get_input`
        hands out a mutable slice of fixed length). */
    method SetInputs(x: Frame)
      requires Valid() && |x| == |inputs|
      modifies this
      ensures Valid() && inputs == x
      ensures devices == old(devices) && time == old(time) && Repr == old(Repr)
    {
      inputs := x;
    }

    /** The output frame of the last stage (`get_output`). */
    function GetOutput(): (r: Frame)
      reads this, Repr
      requires Valid()
      ensures |r| == devices[|devices| - 1].device.model.numOutputs
    {
      devices[|devices| - 1].outputs
    }

    /** One tick: every stage in order, all at the current time, each reading
        the previous stage's fresh output; then time advances by one. The
        input frame is never written. */
    method Tick()
      requires Valid()
      modifies Repr
      ensures Valid() && Repr == old(Repr) && devices == old(devices)
      ensures inputs == old(inputs) && time == old(time) + 1
      ensures forall k :: 0 <= k < |devices| ==>
        devices[k].outputs == StageOut(devices, old(Histories), old(time), inputs, k)
      ensures Histories == Advance(devices, old(Histories), old(time), inputs)
    {
      TickStages();
      Histories := Advance(devices, Histories, time, inputs);
      time := time + 1;
    }

    /** The loop of `Tick`: stages 0 to n-1, each once, in order. */
    method TickStages()
      requires |devices| >= 1 && |Histories| == |devices|
      requires forall k :: 0 <= k < |devices| ==> devices[k] in Repr && devices[k].device in Repr
      requires forall j, k :: 0 <= j < k < |devices| ==>
        devices[j] != devices[k] && devices[j].device != devices[k].device
      requires forall k :: 0 <= k < |devices| ==> Histories[k] == devices[k].device.history
      modifies Repr - {this}
      ensures forall k :: 0 <= k < |devices| ==>
        devices[k].outputs == StageOut(devices, Histories, time, inputs, k)
      ensures forall k :: 0 <= k < |devices| ==>
        devices[k].device.history == Histories[k] + [Call(time, StageIn(devices, Histories, time, inputs, k))]
    {
      var n := |devices|;
      ghost var ns, hs, t, x0 := devices, Histories, time, inputs;
      ghost var nodes := devices;
      // Mirrors of every node's output buffer and device history.
      ghost var outs: seq<Frame> := seq(n, k requires 0 <= k < n reads nodes => nodes[k].outputs);
      ghost var cur := hs;
      ghost var ins := seq(n, k requires 0 <= k < n => StageIn(ns, hs, t, x0, k));
      devices[0].Tick(time, inputs);
      outs := outs[0 := StageOut(ns, hs, t, x0, 0)];
      cur := cur[0 := hs[0] + [Call(t, x0)]];
      var i := 1;
      while i < n
        invariant 1 <= i <= n && |outs| == n && |cur| == n
        invariant forall k :: 0 <= k < n ==> nodes[k].outputs == outs[k] && nodes[k].device.history == cur[k]
        invariant forall k :: 0 <= k < i ==> outs[k] == StageOut(ns, hs, t, x0, k)
        invariant forall k :: 0 <= k < i ==> cur[k] == hs[k] + [Call(t, ins[k])]
        invariant forall k :: i <= k < n ==> cur[k] == hs[k]
      {
        var x := devices[i - 1].outputs;
        assert x == ins[i];
        devices[i].Tick(time, x);
        outs := outs[i := StageOut(ns, hs, t, x0, i)];
        cur := cur[i := hs[i] + [Call(t, x)]];
        i := i + 1;
      }
    }
  }
}
