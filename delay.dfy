/** The delay filter: each channel keeps a ring buffer of the last `d`
    values fed back, reads the one stamped with the current time, feeds
    `input + feedback * delayed` back and outputs a wet/dry mix. */
module Delay {
  import opened Types
  import opened UtilsRingBuffer

  datatype Message = SetDelay(seconds: real) | SetFeedback(feedback: real) | SetWetness(wetness: real)

  /** The buffer `RingBuffer::from(&vec![0.0; d])` builds: full, capacity
      `d`, holding silence at timestamps 0 to d-1. */
  function Silence(d: nat): (r: Ring<Sample>)
    ensures Inv(r) && r.capacity == d && r.startT == 0 && r.endT == d
    ensures Elements(r) == Zeros(d)
  {
    var r := Ring(Zeros(d), d, 0, 0, d);
    assert forall k :: 0 <= k < d ==> Elements(r)[k] == 0.0 by {
      forall k | 0 <= k < d
        ensures Elements(r)[k] == 0.0
      {
        ElementAt(r, k);
      }
    }
    r
  }

  /** `buf[t]`: the value stamped `t`; indexing outside the window panics. */
  function Tap(r: Ring<Sample>, t: Time): Sample
    requires Inv(r) && r.startT <= t < r.endT
  {
    InvReadable(r, t);
    Lookup(r, t).value
  }

  /** The tap reads the window's element stamped `t`. */
  lemma TapElements(r: Ring<Sample>, t: Time)
    requires Inv(r) && r.startT <= t < r.endT
    ensures Tap(r, t) == Elements(r)[t - r.startT]
  {
    GetElements(r, t);
  }

  /** The value a channel feeds back. */
  function Feed(r: Ring<Sample>, t: Time, s: Sample, feedback: real): (r': Ring<Sample>)
    requires Inv(r) && r.startT <= t < r.endT
    ensures Inv(r') && r'.capacity == r.capacity && r'.endT == r.endT + 1
    ensures r'.startT == if Len(r) == r.capacity then r.startT + 1 else r.startT
  {
    PushWindow(r, s + Scale(feedback, Tap(r, t)));
    Pushed(r, s + Scale(feedback, Tap(r, t)))
  }

  /** The output of a channel: `wet * delayed + (1 - wet) * s`. */
  function Mix(wetness: real, delayed: Sample, s: Sample): Sample
  {
    Scale(wetness, delayed) + Scale(1.0 - wetness, s)
  }

  /** One channel run from time 0 over the inputs `xs`, one tick per
      sample at times 0, 1, 2, and so on. */
  function Run(d: nat, feedback: real, xs: seq<Sample>): (r: Ring<Sample>)
    requires d >= 1
    ensures Inv(r) && r.capacity == d && r.startT == |xs| && r.endT == |xs| + d
  {
    if |xs| == 0 then Silence(d)
    else
      var prev := Run(d, feedback, xs[..|xs| - 1]);
      Feed(prev, |xs| - 1, xs[|xs| - 1], feedback)
  }

  /** The value stored for timestamp `k`: silence for the first `d`, then
      the input of `d` ticks before plus the feedback of what was read then. */
  function Stored(d: nat, feedback: real, xs: seq<Sample>, k: nat): Sample
    requires d >= 1 && k < |xs| + d
  {
    if k < d then 0.0 else xs[k - d] + Scale(feedback, Stored(d, feedback, xs, k - d))
  }

  /** A stored value depends only on the inputs before it. */
  lemma {:induction false} StoredPrefix(d: nat, feedback: real, xs: seq<Sample>, m: nat, k: nat)
    requires d >= 1 && m <= |xs| && k < m + d
    ensures Stored(d, feedback, xs[..m], k) == Stored(d, feedback, xs, k)
  {
    if k >= d {
      StoredPrefix(d, feedback, xs, m, k - d);
    }
  }

  /** After `n` ticks the buffer holds exactly the values stored for
      timestamps n to n+d-1. */
  lemma {:induction false} RunContents(d: nat, feedback: real, xs: seq<Sample>)
    requires d >= 1
    ensures forall k :: |xs| <= k < |xs| + d ==>
      Elements(Run(d, feedback, xs))[k - |xs|] == Stored(d, feedback, xs, k)
  {
    if |xs| > 0 {
      var n := |xs| - 1;
      RunContents(d, feedback, xs[..n]);
      forall k | |xs| <= k < |xs| + d
        ensures Elements(Run(d, feedback, xs))[k - |xs|] == Stored(d, feedback, xs, k)
      {
        RunEntry(d, feedback, xs, xs[..n], k);
      }
    }
  }

  /** One tick drops the oldest value of the full window and appends the
      value fed back. */
  lemma RunLast(d: nat, feedback: real, xs: seq<Sample>, pre: seq<Sample>)
    requires d >= 1 && |xs| > 0 && pre == xs[..|xs| - 1]
    ensures Elements(Run(d, feedback, xs)) ==
      Elements(Run(d, feedback, pre))[1..] + [xs[|pre|] + Scale(feedback, Tap(Run(d, feedback, pre), |pre|))]
  {
    var prev := Run(d, feedback, pre);
    var v := xs[|pre|] + Scale(feedback, Tap(prev, |pre|));
    assert Run(d, feedback, xs) == Feed(prev, |pre|, xs[|pre|], feedback) == Pushed(prev, v);
    assert Len(prev) == prev.capacity;
    PushElements(prev, v);
  }

  /** One tick keeps the stored values of the later timestamps and adds the
      value for timestamp `n + d`. */
  lemma RunEntry(d: nat, feedback: real, xs: seq<Sample>, pre: seq<Sample>, k: nat)
    requires d >= 1 && |xs| > 0 && pre == xs[..|xs| - 1] && |xs| <= k < |xs| + d
    requires forall j :: |pre| <= j < |pre| + d ==>
      Elements(Run(d, feedback, pre))[j - |pre|] == Stored(d, feedback, pre, j)
    ensures Elements(Run(d, feedback, xs))[k - |xs|] == Stored(d, feedback, xs, k)
  {
    var n := |pre|;
    var prev := Run(d, feedback, pre);
    RunLast(d, feedback, xs, pre);
    if k < n + d {
      assert Elements(Run(d, feedback, xs))[k - |xs|] == Elements(prev)[k - n];
      StoredPrefix(d, feedback, xs, n, k);
    } else {
      TapElements(prev, n);
      StoredPrefix(d, feedback, xs, n, n);
    }
  }

  /** The delayed value read at tick `t`: 0 before `d` ticks have passed,
      and afterwards the input of tick `t - d` plus the feedback of the value
      read then. */
  lemma DelayedRecurrence(d: nat, feedback: real, xs: seq<Sample>, t: nat)
    requires d >= 1 && t < |xs|
    ensures Tap(Run(d, feedback, xs[..t]), t) ==
      if t < d then 0.0
      else xs[t - d] + Scale(feedback, Tap(Run(d, feedback, xs[..t - d]), t - d))
  {
    RunContents(d, feedback, xs[..t]);
    TapElements(Run(d, feedback, xs[..t]), t);
    StoredPrefix(d, feedback, xs, t, t);
    if t >= d {
      RunContents(d, feedback, xs[..t - d]);
      TapElements(Run(d, feedback, xs[..t - d]), t - d);
      StoredPrefix(d, feedback, xs, t - d, t - d);
      StoredPrefix(d, feedback, xs, t, t - d);
    }
  }

  /** With feedback 0 and wetness 1 the output of tick `t` is the input of
      tick `t - d`, preceded by `d` silent samples. */
  lemma PureDelay(d: nat, xs: seq<Sample>, t: nat)
    requires d >= 1 && t < |xs|
    ensures Mix(1.0, Tap(Run(d, 0.0, xs[..t]), t), xs[t]) == if t < d then 0.0 else xs[t - d]
  {
    DelayedRecurrence(d, 0.0, xs, t);
  }

  /** Shrinking a full buffer whose window starts at the current time moves
      the start past that time: the next tick's read is outside the window,
      where indexing panics. */
  lemma ShrinkLeavesWindow(r: Ring<Sample>, c: nat)
    requires Inv(r) && Len(r) == r.capacity && c < r.capacity
    ensures Resized(r, c).startT > r.startT
  {
    ResizeWindow(r, c);
  }

  /** Growing keeps the window and its values, and no tick changes the
      distance between the end of the window and the next tick time: the
      delay stays what it was. */
  lemma GrowKeepsDelay(r: Ring<Sample>, c: nat, t: Time, s: Sample, feedback: real)
    requires Inv(r) && r.startT <= t < r.endT && c >= Len(r)
    ensures Inv(Resized(r, c)) && Elements(Resized(r, c)) == Elements(r)
    ensures Resized(r, c).startT == r.startT && Resized(r, c).endT == r.endT
    ensures Tap(Resized(r, c), t) == Tap(r, t)
    ensures Feed(Resized(r, c), t, s, feedback).endT - (t + 1) == r.endT - t
  {
    ResizeElements(r, c);
    TapElements(r, t);
    TapElements(Resized(r, c), t);
  }

  /** The channel loop of `tick`: channel `i` reads its value stamped `t`,
      feeds back and mixes, touching no other channel. */
  method FeedChannels(buffers: seq<Ring<Sample>>, t: Time, inputs: Frame, feedback: real, wetness: real)
    returns (bufs: seq<Ring<Sample>>, outputs: Frame)
    requires |inputs| == |buffers|
    requires forall k :: 0 <= k < |buffers| ==> Inv(buffers[k]) && buffers[k].startT <= t < buffers[k].endT
    ensures |bufs| == |buffers| && |outputs| == |buffers|
    ensures forall k :: 0 <= k < |buffers| ==>
      bufs[k] == Feed(buffers[k], t, inputs[k], feedback) &&
      outputs[k] == Mix(wetness, Tap(buffers[k], t), inputs[k])
  {
    bufs := buffers;
    outputs := [];
    var i := 0;
    while i < |inputs|
      invariant 0 <= i <= |inputs| == |bufs| && |outputs| == i
      invariant forall k :: 0 <= k < i ==>
        bufs[k] == Feed(buffers[k], t, inputs[k], feedback) &&
        outputs[k] == Mix(wetness, Tap(buffers[k], t), inputs[k])
      invariant forall k :: i <= k < |bufs| ==> bufs[k] == buffers[k]
    {
      var delayed := Tap(bufs[i], t);
      bufs := bufs[i := Pushed(bufs[i], inputs[i] + Scale(feedback, delayed))];
      outputs := outputs + [Scale(wetness, delayed) + Scale(1.0 - wetness, inputs[i])];
      i := i + 1;
    }
  }

  class Delay {
    const numChannels: nat
    var buffers: seq<Ring<Sample>>
    var feedback: real
    var wetness: real

    /** Every channel's buffer is a valid ring, all over the same window. */
    ghost predicate Valid()
      reads this
    {
      && |buffers| == numChannels
      && (forall i :: 0 <= i < |buffers| ==> Inv(buffers[i]))
      && (forall i :: 0 <= i < |buffers| ==>
            buffers[i].startT == buffers[0].startT && buffers[i].endT == buffers[0].endT &&
            buffers[i].capacity == buffers[0].capacity)
    }

    /** `new(delay, feedback, wetness, num_channels)`: every channel starts
        with `d = floor(delay * 44100)` silent samples at times 0 to d-1. */
    constructor (delay: real, feedback: real, wetness: real, numChannels: nat)
      ensures Valid() && this.numChannels == numChannels
      ensures this.feedback == feedback && this.wetness == wetness
      ensures forall i :: 0 <= i < numChannels ==> buffers[i] == Silence(SecondsToSamples(delay))
    {
      var d := SecondsToSamples(delay);
      var silence := Silence(d);
      this.numChannels := numChannels;
      buffers := seq(numChannels, _ => silence);
      this.feedback := feedback;
      this.wetness := wetness;
    }

    function NumInputs(): (n: nat)
      reads this
      ensures n == numChannels
    {
      numChannels
    }

    function NumOutputs(): (n: nat)
      reads this
      ensures n == NumInputs()
    {
      numChannels
    }

    /** `handle_message`: `SetDelay` resizes every buffer; the other two set
        their own field and nothing else. */
    method HandleMessage(msg: Message)
      requires Valid()
      modifies this
      ensures Valid()
      ensures msg.SetDelay? ==> feedback == old(feedback) && wetness == old(wetness)
      ensures msg.SetDelay? ==>
        forall i :: 0 <= i < numChannels ==> buffers[i] == Resized(old(buffers[i]), SecondsToSamples(msg.seconds))
      ensures msg.SetFeedback? ==> feedback == msg.feedback && wetness == old(wetness) && buffers == old(buffers)
      ensures msg.SetWetness? ==> wetness == msg.wetness && feedback == old(feedback) && buffers == old(buffers)
    {
      match msg {
        case SetDelay(seconds) =>
          var d := SecondsToSamples(seconds);
          var bufs := buffers;
          var i := 0;
          while i < |bufs|
            invariant 0 <= i <= |bufs| == |buffers|
            invariant forall k :: 0 <= k < i ==> bufs[k] == Resized(buffers[k], d)
            invariant forall k :: i <= k < |bufs| ==> bufs[k] == buffers[k]
          {
            bufs := bufs[i := Resized(bufs[i], d)];
            i := i + 1;
          }
          forall k | 0 <= k < |buffers|
            ensures Inv(bufs[k]) && bufs[k].capacity == d
            ensures bufs[k].startT == bufs[0].startT && bufs[k].endT == bufs[0].endT
          {
            ResizeWindow(buffers[k], d);
            ResizeWindow(buffers[0], d);
          }
          buffers := bufs;
        case SetFeedback(f) =>
          feedback := f;
        case SetWetness(w) =>
          wetness := w;
      }
    }

    /** `tick(t, inputs)`: each channel reads its value stamped `t`, feeds
        back and mixes, independently of the others. Reading outside the
        window panics, hence the precondition on `t`. */
    method Tick(t: Time, inputs: Frame) returns (outputs: Frame)
      requires Valid() && |inputs| == numChannels
      requires numChannels > 0 ==> buffers[0].startT <= t < buffers[0].endT
      modifies this
      ensures Valid() && feedback == old(feedback) && wetness == old(wetness)
      ensures |outputs| == numChannels
      ensures forall i :: 0 <= i < numChannels ==>
        buffers[i] == Feed(old(buffers[i]), t, inputs[i], feedback) &&
        outputs[i] == Mix(wetness, Tap(old(buffers[i]), t), inputs[i])
    {
      buffers, outputs := FeedChannels(buffers, t, inputs, feedback, wetness);
      assert forall k :: 0 <= k < |buffers| ==> Len(old(buffers[k])) == Len(old(buffers[0]));
    }
  }
}
