/** Selects one of several input channels and mirrors it to a single output. */
module Multiplexer {
  import opened Types
  import opened CoreIoArray

  class Multiplexer {
    const inputs: InputArray<Sample>
    const output: OutputArray<Sample>
    const numInputs: nat
    var selected: nat

    ghost predicate Valid()
      reads this, inputs, output
    {
      output.Valid() && |output.chs| == 1 && |inputs.chs| == numInputs
      && (numInputs >= 1 ==> selected < numInputs)
    }

    /** `num_inputs` empty input slots, one output channel, input 0 selected. */
    constructor (numInputs: nat)
      ensures Valid() && fresh(inputs) && fresh(output) && fresh(output.chs[0])
      ensures this.numInputs == numInputs && selected == 0
    {
      inputs := new InputArray(numInputs);
      output := new OutputArray(1, 0.0);
      this.numInputs := numInputs;
      selected := 0;
    }

    /** Selects input `i` when it exists; otherwise fails and keeps the
        current selection. */
    method SelectInput(i: nat) returns (r: Result<(), ()>)
      requires Valid()
      modifies this
      ensures Valid()
      ensures r.Ok? <==> i < numInputs
      ensures selected == if i < numInputs then i else old(selected)
    {
      if i < numInputs {
        selected := i;
        r := Ok(());
      } else {
        r := Err(());
      }
    }

    /** Pushes the selected input's frame for `t`, or 0 when it has none; the
        other inputs are not read. With no inputs at all the read of input 0
        panics. */
    method Tick(t: Time)
      requires Valid() && numInputs >= 1
      modifies output.chs[0]
      ensures output.chs[0].data == old(inputs.Samples(t, 0.0))[selected]
      ensures output.chs[0].data == match old(inputs.Get(selected, t)) case Some(x) => x case None => 0.0
      ensures output.chs[0].nextT == old(output.chs[0].nextT) + 1
    {
      var s := match inputs.Get(selected, t) case Some(x) => x case None => 0.0;
      output.Push(0, s);
    }
  }
}

/** Sums its inputs into one output. */
module Adder {
  import opened Types
  import opened CoreIoArray

  /** The sum of `xs`, added from the first to the last. */
  function Sum(xs: seq<Sample>): Sample
  {
    if xs == [] then 0.0 else Sum(xs[..|xs| - 1]) + xs[|xs| - 1]
  }

  /** An input that contributes 0 takes its own value out of the sum: a
      missing frame counts as silence. */
  lemma {:induction false} SumWithout(xs: seq<Sample>, k: nat)
    requires k < |xs|
    ensures Sum(xs[k := 0.0]) == Sum(xs) - xs[k]
    decreases |xs|
  {
    var n := |xs| - 1;
    var ys := xs[k := 0.0];
    assert ys[..n] == if k < n then xs[..n][k := 0.0] else xs[..n];
    if k < n {
      SumWithout(xs[..n], k);
    }
  }

  class Adder {
    const inputs: InputArray<Sample>
    const output: OutputArray<Sample>
    const numInputs: nat

    ghost predicate Valid()
      reads this, inputs, output
    {
      output.Valid() && |output.chs| == 1 && |inputs.chs| == numInputs
    }

    constructor (numInputs: nat)
      ensures Valid() && fresh(inputs) && fresh(output) && fresh(output.chs[0])
      ensures this.numInputs == numInputs
      ensures forall k :: 0 <= k < numInputs ==> inputs.chs[k] == None
    {
      inputs := new InputArray(numInputs);
      output := new OutputArray(1, 0.0);
      this.numInputs := numInputs;
    }

    /** Pushes exactly one frame: the sum of every input's frame for `t`,
        with a missing frame counted as 0 (so 0 with no inputs). */
    method Tick(t: Time)
      requires Valid()
      modifies output.chs[0]
      ensures output.chs[0].data == Sum(old(inputs.Samples(t, 0.0)))
      ensures output.chs[0].nextT == old(output.chs[0].nextT) + 1
    {
      ghost var xs := inputs.Samples(t, 0.0);
      var s := 0.0;
      for i := 0 to numInputs
        invariant s == Sum(xs[..i])
      {
        assert xs[..i + 1][..i] == xs[..i];
        s := s + match inputs.Get(i, t) case Some(x) => x case None => 0.0;
      }
      assert xs[..numInputs] == xs;
      output.Push(0, s);
    }
  }
}

/** Multiplies its inputs into one output. */
module Multiplier {
  import opened Types
  import opened CoreIoArray

  /** The product of `xs`, multiplied from the first to the last. */
  function Product(xs: seq<Sample>): Sample
  {
    if xs == [] then 1.0 else Product(xs[..|xs| - 1]) * xs[|xs| - 1]
  }

  /** One zero factor, such as a missing input, silences the product. */
  lemma {:induction false} ProductWithZero(xs: seq<Sample>, k: nat)
    requires k < |xs| && xs[k] == 0.0
    ensures Product(xs) == 0.0
    decreases |xs|
  {
    var n := |xs| - 1;
    if k < n {
      ProductWithZero(xs[..n], k);
    }
  }

  class Multiplier {
    const inputs: InputArray<Sample>
    const output: OutputArray<Sample>
    const numInputs: nat

    ghost predicate Valid()
      reads this, inputs, output
    {
      output.Valid() && |output.chs| == 1 && |inputs.chs| == numInputs
    }

    constructor (numInputs: nat)
      ensures Valid() && fresh(inputs) && fresh(output) && fresh(output.chs[0])
      ensures this.numInputs == numInputs
      ensures forall k :: 0 <= k < numInputs ==> inputs.chs[k] == None
    {
      inputs := new InputArray(numInputs);
      output := new OutputArray(1, 0.0);
      this.numInputs := numInputs;
    }

    /** Pushes exactly one frame: the product of every input's frame for
        `t`, with a missing frame counted as 0 (so 1 with no inputs). */
    method Tick(t: Time)
      requires Valid()
      modifies output.chs[0]
      ensures output.chs[0].data == Product(old(inputs.Samples(t, 0.0)))
      ensures output.chs[0].nextT == old(output.chs[0].nextT) + 1
    {
      ghost var xs := inputs.Samples(t, 0.0);
      var s := 1.0;
      for i := 0 to numInputs
        invariant s == Product(xs[..i])
      {
        assert xs[..i + 1][..i] == xs[..i];
        s := s * match inputs.Get(i, t) case Some(x) => x case None => 0.0;
      }
      assert xs[..numInputs] == xs;
      output.Push(0, s);
    }
  }
}

/** Scales every channel by one ratio. The ratio comes from a gain in
    decibels through a conversion that is a parameter here. */
module Gain {
  import opened Types
  import opened Channel
  import opened CoreIoArray

  /** The first of the channels `outs[0 .. k - 1]` that `slot` is bound to,
      if any. */
  function Source(slot: Option<Channel<Sample>>, outs: seq<Channel<Sample>>, k: nat): (j: Option<nat>)
    requires k <= |outs|
    ensures j.Some? ==> j.value < k && slot == Some(outs[j.value])
    ensures j.None? ==> forall m :: 0 <= m < k ==> slot != Some(outs[m])
    decreases k
  {
    if k == 0 then None
    else match Source(slot, outs, k - 1)
      case Some(j) => Some(j)
      case None => if slot == Some(outs[k - 1]) then Some(k - 1) else None
  }

  /** What input `k` of a gain reads in a tick that reads input `i` and
      then pushes output `i`, for `i` from 0 up. An input bound to an
      earlier output `j` sees the frame pushed there in this tick if that
      output was at time `t`, and nothing (0) otherwise. Any other input
      reads what its channel held before the tick, `before[k]` (0 when
      missing): its channel is not an output, or an output not pushed yet.
      `times` holds the outputs' times before the tick. */
  function Interleaved(gain: real, t: Time, slots: seq<Option<Channel<Sample>>>,
                       outs: seq<Channel<Sample>>, before: seq<Sample>, times: seq<Time>, k: nat): Sample
    requires |slots| == |outs| == |before| == |times| && k < |slots|
    decreases k
  {
    match Source(slots[k], outs, k)
    case Some(j) => if times[j] == t then Scale(gain, Interleaved(gain, t, slots, outs, before, times, j)) else 0.0
    case None => before[k]
  }

  /** When no input is bound to an output, every input reads what it held
      before the tick. */
  lemma UnaliasedReads(gain: real, t: Time, slots: seq<Option<Channel<Sample>>>,
                       outs: seq<Channel<Sample>>, before: seq<Sample>, times: seq<Time>, k: nat)
    requires |slots| == |outs| == |before| == |times| && k < |slots|
    requires forall m :: 0 <= m < |outs| ==> slots[k] != Some(outs[m])
    ensures Interleaved(gain, t, slots, outs, before, times, k) == before[k]
  {
    assert Source(slots[k], outs, k).None?;
  }

  class Gain {
    const inputs: InputArray<Sample>
    const outputs: OutputArray<Sample>
    const numChannels: nat
    const gain: real

    ghost predicate Valid()
      reads this, inputs, outputs
    {
      outputs.Valid() && |outputs.chs| == numChannels && |inputs.chs| == numChannels
    }

    /** The ratio is computed once, here, from the gain in decibels. */
    constructor (gainDb: real, numChannels: nat, decibelToRatio: real -> real)
      ensures Valid() && fresh(inputs) && fresh(outputs)
      ensures this.numChannels == numChannels && gain == decibelToRatio(gainDb)
      ensures forall k :: 0 <= k < numChannels ==> fresh(outputs.chs[k])
    {
      inputs := new InputArray(numChannels);
      outputs := new OutputArray(numChannels, 0.0);
      this.numChannels := numChannels;
      gain := decibelToRatio(gainDb);
    }

    /** The times of the output channels. */
    ghost function OutputTimes(): (ts: seq<Time>)
      reads this, outputs, set k | 0 <= k < |outputs.chs| :: outputs.chs[k]
      ensures |ts| == |outputs.chs|
      ensures forall k :: 0 <= k < |ts| ==> ts[k] == outputs.chs[k].nextT
    {
      seq(|outputs.chs|, k requires 0 <= k < |outputs.chs|
        reads outputs, set m | 0 <= m < |outputs.chs| :: outputs.chs[m] => outputs.chs[k].nextT)
    }

    /** Pushes one frame to every output, reading input `i` just before
        pushing output `i`: input `i` scaled by the ratio goes to output
        `i` only, with a missing frame counted as 0. An input bound to an
        earlier output of the gain sees the frame pushed there in this tick
        (`Interleaved`); when no input reads the gain's own outputs, every
        input is read as it was before the tick. */
    method Tick(t: Time)
      requires Valid()
      modifies set k | 0 <= k < numChannels :: outputs.chs[k]
      ensures forall k :: 0 <= k < numChannels ==>
        outputs.chs[k].data == Scale(gain, Interleaved(gain, t, inputs.chs, outputs.chs,
          old(inputs.Samples(t, 0.0)), old(OutputTimes()), k))
        && outputs.chs[k].nextT == old(outputs.chs[k].nextT) + 1
      ensures (forall k :: 0 <= k < numChannels ==> outputs.chs[k] !in old(inputs.Channels())) ==>
        forall k :: 0 <= k < numChannels ==>
          outputs.chs[k].data == Scale(gain, old(inputs.Samples(t, 0.0))[k])
    {
      ghost var xs := inputs.Samples(t, 0.0);
      ghost var ts := OutputTimes();
      for i := 0 to numChannels
        invariant forall k :: 0 <= k < i ==>
          outputs.chs[k].data == Scale(gain, Interleaved(gain, t, inputs.chs, outputs.chs, xs, ts, k))
          && outputs.chs[k].nextT == ts[k] + 1
        invariant forall k :: i <= k < numChannels ==>
          outputs.chs[k].data == old(outputs.chs[k].data) && outputs.chs[k].nextT == ts[k]
      {
        var s := match inputs.Get(i, t) case Some(x) => x case None => 0.0;
        assert s == Interleaved(gain, t, inputs.chs, outputs.chs, xs, ts, i) by {
          match inputs.chs[i]
          case None =>
          case Some(c) =>
            match Source(inputs.chs[i], outputs.chs, i)
            case Some(j) =>
            case None =>
              if m :| i <= m < numChannels && c == outputs.chs[m] {
                assert c.Get(t) == old(c.Get(t));
              }
        }
        outputs.Push(i, Scale(gain, s));
      }
      if forall k :: 0 <= k < numChannels ==> outputs.chs[k] !in old(inputs.Channels()) {
        forall k | 0 <= k < numChannels
          ensures Interleaved(gain, t, inputs.chs, outputs.chs, xs, ts, k) == xs[k]
        {
          forall m | 0 <= m < numChannels
            ensures inputs.chs[k] != Some(outputs.chs[m])
          {
            assert inputs.chs[k].Some? ==> inputs.chs[k].value in old(inputs.Channels());
          }
          UnaliasedReads(gain, t, inputs.chs, outputs.chs, xs, ts, k);
        }
      }
    }
  }
}
