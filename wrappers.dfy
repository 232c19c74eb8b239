/** Wrappers that own the buffers a device reads and writes, so the device
    can be ticked without the caller allocating frames. */
module Wrappers {
  import opened Types
  import opened Device

  /** A device bundled with an input and an output buffer. The caller fills
      `inputs` before each tick and reads `outputs` after it. */
  class Buffered {
    const device: AudioDevice
    var inputs: Frame
    var outputs: Frame

    /** The buffers have the device's channel counts. */
    ghost predicate Valid()
      reads this
    {
      |inputs| == device.model.numInputs && |outputs| == device.model.numOutputs
    }

    /** Wraps `device` with silent buffers of its input and output counts. */
    constructor From(device: AudioDevice)
      ensures Valid() && this.device == device
      ensures inputs == Zeros(device.model.numInputs)
      ensures outputs == Zeros(device.model.numOutputs)
    {
      this.device := device;
      inputs := Zeros(device.model.numInputs);
      outputs := Zeros(device.model.numOutputs);
    }

    /** Ticks the device at `t` on the wrapper's own buffers: the outputs
        become the device's response to the inputs, the inputs are left as
        they were, and neither buffer changes length. */
    method Tick(t: Time)
      requires Valid()
      modifies this, device
      ensures Valid()
      ensures inputs == old(inputs)
      ensures outputs == Emit(device.model, old(device.history), t, inputs)
      ensures device.history == old(device.history) + [Call(t, inputs)]
    {
      outputs := device.Tick(t, inputs);
    }

    /** The wrapped device, for reading or for changing it in place. */
    function Deref(): (d: AudioDevice)
      ensures d == device
    {
      device
    }
  }

  /** A device bundled with an output buffer only; the caller passes the
      input frame to each tick. */
  class BufferedOutput {
    const device: AudioDevice
    var outputs: Frame

    ghost predicate Valid()
      reads this
    {
      |outputs| == device.model.numOutputs
    }

    /** Wraps `device` with a silent output buffer of its output count. */
    constructor From(device: AudioDevice)
      ensures Valid() && this.device == device
      ensures outputs == Zeros(device.model.numOutputs)
    {
      this.device := device;
      outputs := Zeros(device.model.numOutputs);
    }

    /** Ticks the device at `t` with the caller's `inputs`, writing the
        wrapper's output buffer. */
    method Tick(t: Time, inputs: Frame)
      requires Valid()
      modifies this, device
      ensures Valid()
      ensures outputs == Emit(device.model, old(device.history), t, inputs)
      ensures device.history == old(device.history) + [Call(t, inputs)]
    {
      outputs := device.Tick(t, inputs);
    }

    function Deref(): (d: AudioDevice)
      ensures d == device
    {
      device
    }
  }

  /** A one-in, one-out device that copies its input sample to its output.
      Reading the input of an empty frame panics; the model answers 0 then. */
  const Identity: Model := DeviceModel(1, 1, (h: History, t: Time, x: Frame) => if |x| >= 1 then [x[0]] else [0.0])

  /** The identity device writes its input sample, whatever came before. */
  lemma IdentityCopies(h: History, t: Time, s: Sample)
    ensures Emit(Identity, h, t, [s]) == [s]
  {
  }

  /** Ticking a wrapped identity device at times 0 to 7 with the input
      sample equal to the time leaves that sample in the output each time. */
  method IdentityExample() returns (seen: seq<Sample>)
    ensures seen == seq(8, i => i as real)
  {
    var device := new AudioDevice(Identity);
    var filter := new BufferedOutput.From(device);
    seen := [];
    for i := 0 to 8
      invariant filter.Valid() && filter.device.model == Identity
      invariant seen == seq(i, j => j as real)
    {
      IdentityCopies(filter.device.history, i, i as real);
      filter.Tick(i, [i as real]);
      seen := seen + [filter.outputs[0]];
    }
  }
}
