/** The audio device interface: a device has fixed input and output counts and
    consumes one input frame per time step, writing one output frame. */
module Device {
  import opened Types

  /** One call of `tick`: the time and the input frame the device was given. */
  datatype Call = Call(t: Time, inputs: Frame)

  /** Every call a device has received so far, oldest first. */
  type History = seq<Call>

  /** The observable behaviour of a device. A deterministic device's output
      frame is a function of the calls it received before and of the current
      call, which is what `respond` gives. */
  datatype DeviceModel = DeviceModel(
    numInputs: nat,
    numOutputs: nat,
    respond: (History, Time, Frame) -> Frame)

  /** A device model whose every response has exactly `numOutputs` samples:
      a device writes its whole output buffer on each tick. */
  type Model = m: DeviceModel | WellFormed(m)
    witness DeviceModel(0, 0, (h, t, x) => [])

  ghost predicate WellFormed(m: DeviceModel)
  {
    forall h: History, t: Time, x: Frame :: |m.respond(h, t, x)| == m.numOutputs
  }

  /** The frame a device with model `m` and history `h` writes when it is
      ticked at `t` with `inputs`. */
  function Emit(m: Model, h: History, t: Time, inputs: Frame): (r: Frame)
    ensures |r| == m.numOutputs
  {
    assert WellFormed(m);
    m.respond(h, t, inputs)
  }

  /** An audio device owned by a container. */
  class AudioDevice {
    const model: Model
    var history: History

    constructor (model: Model)
      ensures this.model == model && history == []
    {
      this.model := model;
      history := [];
    }

    function NumInputs(): nat { model.numInputs }

    function NumOutputs(): nat { model.numOutputs }

    /** Processes one frame: writes `numOutputs` samples and records the call. */
    method Tick(t: Time, inputs: Frame) returns (outputs: Frame)
      modifies this
      ensures |outputs| == model.numOutputs
      ensures outputs == Emit(model, old(history), t, inputs)
      ensures history == old(history) + [Call(t, inputs)]
    {
      outputs := Emit(model, history, t, inputs);
      history := history + [Call(t, inputs)];
    }
  }
}
