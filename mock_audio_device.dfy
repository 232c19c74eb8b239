/** A mock audio device for tests: it is told in advance which input frame
    each tick must receive and which output frame to write in return, and it
    fails loudly on an unexpected tick, a wrong input, or (when dropped) a
    missing tick. A panic is modelled as an outcome other than `Ticked`. */
module MockDevice {
  import opened Types

  /** How a call of `tick` ends. */
  datatype Outcome =
    | Ticked            // the expected outputs were written
    | TooManyTicks      // no expectation was left: panics, marks the mock failed
    | WrongInput        // the input differs from the expected one: panics, marks failed
    | OutputOutOfRange  // more expected outputs than output slots: index panic

  /** The mock's bookkeeping: the expected frames, in the order given, the
      ticks that succeeded, and whether a tick has failed. */
  datatype Expectations = Expectations(
    inputs: seq<Frame>, outputs: seq<Frame>, timesTicked: nat, failed: bool)
  {
    ghost predicate Valid()
    {
      |inputs| == |outputs| && timesTicked <= |inputs|
    }
  }

  /** One tick with input frame `x` and an output buffer of `len` slots. */
  function Step(e: Expectations, x: Frame, len: nat): (r: (Outcome, Expectations))
    requires e.Valid()
    ensures r.1.Valid() && r.1.inputs == e.inputs && r.1.outputs == e.outputs
    ensures r.0 == Ticked <==>
      e.timesTicked < |e.inputs| && e.inputs[e.timesTicked] == x && |e.outputs[e.timesTicked]| <= len
    ensures r.0 == Ticked ==> r.1 == e.(timesTicked := e.timesTicked + 1)
    ensures r.0 in {TooManyTicks, WrongInput} ==> r.1 == e.(failed := true)
    ensures r.0 == OutputOutOfRange ==> r.1 == e
  {
    if e.timesTicked >= |e.inputs| then (TooManyTicks, e.(failed := true))
    else if e.inputs[e.timesTicked] != x then (WrongInput, e.(failed := true))
    else if |e.outputs[e.timesTicked]| > len then (OutputOutOfRange, e)
    else (Ticked, e.(timesTicked := e.timesTicked + 1))
  }

  /** A test's ticks, one input frame each, until the first that panics:
      whether all of them succeeded, and the bookkeeping afterwards. */
  function Run(e: Expectations, script: seq<Frame>, len: nat): (r: (bool, Expectations))
    requires e.Valid()
    ensures r.1.Valid()
    decreases |script|
  {
    if script == [] then (true, e)
    else
      var s := Step(e, script[0], len);
      if s.0 != Ticked then (false, s.1) else Run(s.1, script[1..], len)
  }

  /** Dropping the mock panics exactly when it has not failed, no panic is
      already unwinding, and it was ticked a different number of times than
      it was told to expect. */
  predicate PanicsOnDrop(e: Expectations, panicking: bool)
  {
    !e.failed && !panicking && e.timesTicked != |e.inputs|
  }

  /** Feeding the expected inputs from the next pending one up to `k`
      succeeds at every tick (when each expected output fits the buffer),
      and leaves `k` ticks counted. */
  lemma {:induction false} RunExpected(e: Expectations, k: nat, len: nat)
    requires e.Valid() && e.timesTicked <= k <= |e.inputs|
    requires forall j :: e.timesTicked <= j < k ==> |e.outputs[j]| <= len
    ensures Run(e, e.inputs[e.timesTicked..k], len) == (true, e.(timesTicked := k))
    decreases k - e.timesTicked
  {
    var script := e.inputs[e.timesTicked..k];
    if e.timesTicked < k {
      var e' := e.(timesTicked := e.timesTicked + 1);
      assert Step(e, script[0], len) == (Ticked, e');
      assert script[1..] == e'.inputs[e'.timesTicked..k];
      RunExpected(e', k, len);
    }
  }

  /** A fresh mock ticked with all of its expected inputs in order is
      dropped quietly; ticked with only some of them, its drop panics. */
  lemma DropAfterExpected(ins: seq<Frame>, outs: seq<Frame>, k: nat, len: nat)
    requires |ins| == |outs| && k <= |ins|
    requires forall j :: 0 <= j < |outs| ==> |outs[j]| <= len
    ensures var r := Run(Expectations(ins, outs, 0, false), ins[..k], len);
      r.0 && (PanicsOnDrop(r.1, false) <==> k < |ins|)
  {
    RunExpected(Expectations(ins, outs, 0, false), k, len);
    assert ins[0..k] == ins[..k];
  }

  /** A tick beyond the expected ones panics and marks the mock failed, so
      its drop stays quiet. */
  lemma ExtraTickFails(e: Expectations, x: Frame, len: nat)
    requires e.Valid() && e.timesTicked == |e.inputs|
    ensures Step(e, x, len).0 == TooManyTicks
    ensures !PanicsOnDrop(Step(e, x, len).1, false)
  {
  }

  /** Once failed, the mock never panics on drop, whatever follows. */
  lemma {:induction false} FailedStaysQuiet(e: Expectations, script: seq<Frame>, len: nat)
    requires e.Valid() && e.failed
    ensures Run(e, script, len).1.failed && !PanicsOnDrop(Run(e, script, len).1, false)
    decreases |script|
  {
    if script != [] {
      var s := Step(e, script[0], len);
      if s.0 == Ticked {
        FailedStaysQuiet(s.1, script[1..], len);
      }
    }
  }

  class MockAudioDevice {
    const name: string
    const numInputs: nat
    const numOutputs: nat
    var timesTicked: nat
    var inputs: seq<Frame>
    var outputs: seq<Frame>
    var failed: bool

    function State(): Expectations
      reads this
    {
      Expectations(inputs, outputs, timesTicked, failed)
    }

    ghost predicate Valid()
      reads this
    {
      State().Valid()
    }

    /** A mock with the given channel counts and no expectations. */
    constructor (name: string, numInputs: nat, numOutputs: nat)
      ensures Valid() && this.name == name
      ensures this.numInputs == numInputs && this.numOutputs == numOutputs
      ensures State() == Expectations([], [], 0, false)
    {
      this.name := name;
      this.numInputs := numInputs;
      this.numOutputs := numOutputs;
      timesTicked := 0;
      inputs := [];
      outputs := [];
      failed := false;
    }

    function NumInputs(): nat { numInputs }

    function NumOutputs(): nat { numOutputs }

    /** Expects one more tick, with input `x`, answered with output `y`. */
    method WillTick(x: Frame, y: Frame)
      requires Valid()
      modifies this
      ensures Valid()
      ensures State() == old(State()).(inputs := old(inputs) + [x], outputs := old(outputs) + [y])
    {
      inputs := inputs + [x];
      outputs := outputs + [y];
    }

    /** Checks the tick against the next expectation and, when it matches,
        copies the expected outputs into the leading slots of `buf` and
        counts the tick. The time is not looked at. When the expected
        outputs do not fit, the slots that exist are written before the
        index panic. */
    method Tick(t: Time, x: Frame, buf: array<Sample>) returns (r: Outcome)
      requires Valid()
      modifies this, buf
      ensures (r, State()) == Step(old(State()), x, buf.Length)
      ensures r == Ticked ==>
        var y := old(outputs[timesTicked]);
        buf[..] == y + old(buf[|y|..])
      ensures r == OutputOutOfRange ==> buf[..] == old(outputs[timesTicked])[..buf.Length]
      ensures r in {TooManyTicks, WrongInput} ==> buf[..] == old(buf[..])
    {
      if timesTicked >= |inputs| {
        failed := true;
        return TooManyTicks;
      }
      if inputs[timesTicked] != x {
        failed := true;
        return WrongInput;
      }
      var y := outputs[timesTicked];
      var n := if |y| <= buf.Length then |y| else buf.Length;
      for i := 0 to n
        invariant State() == old(State())
        invariant buf[..i] == y[..i]
        invariant forall j :: i <= j < buf.Length ==> buf[j] == old(buf[j])
      {
        buf[i] := y[i];
      }
      if |y| > buf.Length {
        return OutputOutOfRange;
      }
      assert buf[..] == buf[..n] + buf[n..];
      timesTicked := timesTicked + 1;
      r := Ticked;
    }

    /** Whether dropping the mock now panics. */
    function DropPanics(panicking: bool): (p: bool)
      reads this
      ensures p <==> PanicsOnDrop(State(), panicking)
    {
      !failed && !panicking && timesTicked != |inputs|
    }
  }

  /** Two expected ticks in a row: each writes its expected output. */
  method TwoExpectedTicks() returns (first: seq<Sample>, second: seq<Sample>, quiet: bool)
    ensures first == [1.0] && second == [3.0] && quiet
  {
    var buf := new Sample[1](_ => 0.0);
    var mock := new MockAudioDevice("mock", 1, 1);
    mock.WillTick([1.0], [1.0]);
    var r := mock.Tick(0, [1.0], buf);
    first := buf[..];
    mock.WillTick([2.0], [3.0]);
    r := mock.Tick(1, [2.0], buf);
    second := buf[..];
    quiet := !mock.DropPanics(false);
  }
}
