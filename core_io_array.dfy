/** The reference-counted version of the channel arrays: an output array
    hands out its channels themselves, so an input array bound to one sees
    every frame pushed to it. A channel object stands for the shared
    `Rc<RefCell<Channel>>`. */
module CoreIoArray {
  import opened Types
  import opened Channel

  class OutputArray<T> {
    var chs: seq<Channel<T>>

    ghost predicate Valid()
      reads this
    {
      forall j, k :: 0 <= j < k < |chs| ==> chs[j] != chs[k]
    }

    /** `num_channels` fresh channels, each at time 0. */
    constructor (numChannels: nat, default: T)
      ensures Valid() && |chs| == numChannels
      ensures forall k :: 0 <= k < numChannels ==>
        fresh(chs[k]) && chs[k].nextT == 0 && chs[k].data == default
    {
      var cs: seq<Channel<T>> := [];
      for i := 0 to numChannels
        invariant |cs| == i
        invariant forall k :: 0 <= k < i ==> fresh(cs[k]) && cs[k].nextT == 0 && cs[k].data == default
        invariant forall j, k :: 0 <= j < k < i ==> cs[j] != cs[k]
      {
        var c := new Channel(default);
        cs := cs + [c];
      }
      chs := cs;
    }

    function NumChannels(): nat
      reads this
    {
      |chs|
    }

    /** A shared reference to channel `i`: the channel itself. */
    function GetChannel(i: nat): (c: Channel<T>)
      reads this
      requires i < |chs|
      ensures c == chs[i]
    {
      chs[i]
    }

    function Get(i: nat, t: Time): (o: Option<T>)
      reads this, if i < |chs| then {chs[i]} else {}
      requires i < |chs|
      ensures o == chs[i].Get(t)
    {
      chs[i].Get(t)
    }

    /** Pushes the next frame of channel `i` and of no other channel. */
    method Push(i: nat, f: T)
      requires Valid() && i < |chs|
      modifies chs[i]
      ensures chs[i].data == f && chs[i].nextT == old(chs[i].nextT) + 1
      ensures Get(i, old(chs[i].nextT)) == Some(f)
      ensures forall k :: 0 <= k < |chs| && k != i ==>
        chs[k].data == old(chs[k].data) && chs[k].nextT == old(chs[k].nextT)
    {
      chs[i].Push(f);
    }
  }

  class InputArray<T> {
    var chs: seq<Option<Channel<T>>>

    /** `num_channels` empty slots. */
    constructor (numChannels: nat)
      ensures |chs| == numChannels && forall k :: 0 <= k < numChannels ==> chs[k] == None
    {
      chs := seq(numChannels, _ => None);
    }

    /** The channels the slots read from. */
    ghost function Channels(): set<object>
      reads this
    {
      set k | 0 <= k < |chs| && chs[k].Some? :: chs[k].value
    }

    function NumChannels(): nat
      reads this
    {
      |chs|
    }

    /** Slot `i` reads from `channel`; the other slots keep their channels. */
    method SetChannel(i: nat, channel: Channel<T>)
      requires i < |chs|
      modifies this
      ensures chs == old(chs)[i := Some(channel)]
      ensures forall t: Time :: Get(i, t) == channel.Get(t)
    {
      chs := chs[i := Some(channel)];
    }

    /** Slot `i` becomes empty; the other slots keep their channels. */
    method RemoveChannel(i: nat)
      requires i < |chs|
      modifies this
      ensures chs == old(chs)[i := None]
      ensures forall t: Time :: Get(i, t) == None
    {
      chs := chs[i := None];
    }

    /** The frame of slot `i` for time `t`: none for an empty slot, and
        otherwise whatever its channel holds for `t`. */
    function Get(i: nat, t: Time): (o: Option<T>)
      reads this, if i < |chs| && chs[i].Some? then {chs[i].value} else {}
      requires i < |chs|
      ensures chs[i] == None ==> o == None
      ensures chs[i].Some? ==> o == chs[i].value.Get(t)
    {
      match chs[i]
      case Some(c) => c.Get(t)
      case None => None
    }

    /** Every slot read at time `t`, with `zero` for a missing frame
        (`unwrap_or`). */
    function Samples(t: Time, zero: T): (s: seq<T>)
      reads this, Channels()
      ensures |s| == |chs|
      ensures forall k :: 0 <= k < |chs| ==>
        s[k] == match Get(k, t) case Some(x) => x case None => zero
    {
      seq(|chs|, k requires 0 <= k < |chs| reads this, Channels() =>
        match Get(k, t) case Some(x) => x case None => zero)
    }
  }

  /** Wiring: once slot `j` of an input array is bound to channel `i` of an
      output array, a frame pushed to that channel is what the slot reads at
      the frame's time. */
  method WireAndPush<T>(out: OutputArray<T>, i: nat, inp: InputArray<T>, j: nat, f: T)
    returns (seen: Option<T>)
    requires out.Valid() && i < |out.chs| && j < |inp.chs|
    modifies inp, out.chs[i]
    ensures seen == Some(f)
  {
    var c := out.GetChannel(i);
    inp.SetChannel(j, c);
    var t := c.nextT;
    out.Push(i, f);
    seen := inp.Get(j, t);
  }
}

/** Single-channel versions of the arrays. */
module CoreIoElements {
  import opened Types
  import opened Channel

  class OutputElement<T> {
    const ch: Channel<T>

    /** A fresh channel at time 0. */
    constructor (default: T)
      ensures fresh(ch) && ch.nextT == 0 && ch.data == default
    {
      ch := new Channel(default);
    }

    function GetChannel(): (c: Channel<T>)
      ensures c == ch
    {
      ch
    }

    function Get(t: Time): (o: Option<T>)
      reads ch
      ensures o == ch.Get(t)
    {
      ch.Get(t)
    }

    /** After a push the frame is what `get` returns for the latest time. */
    method Push(f: T)
      modifies ch
      ensures ch.data == f && ch.nextT == old(ch.nextT) + 1
      ensures Get(old(ch.nextT)) == Some(f)
    {
      ch.Push(f);
    }
  }

  class InputElement<T> {
    var ch: Option<Channel<T>>

    /** An element with no channel. */
    constructor ()
      ensures ch == None && forall t: Time :: Get(t) == None
    {
      ch := None;
    }

    method SetChannel(channel: Channel<T>)
      modifies this
      ensures ch == Some(channel)
      ensures forall t: Time :: Get(t) == channel.Get(t)
    {
      ch := Some(channel);
    }

    method RemoveChannel()
      modifies this
      ensures ch == None && forall t: Time :: Get(t) == None
    {
      ch := None;
    }

    /** None without a channel, otherwise the channel's frame for `t`. */
    function Get(t: Time): (o: Option<T>)
      reads this, if ch.Some? then {ch.value} else {}
      ensures ch == None ==> o == None
      ensures ch.Some? ==> o == ch.value.Get(t)
    {
      match ch
      case Some(c) => c.Get(t)
      case None => None
    }
  }
}
