/** Time-synchronised arrays of channels: an output array owns its channels,
    an input array holds optional references to channels owned elsewhere. */
module IoArray {
  import opened Types
  import opened Channel

  /** The frames a device produces, one owned channel per output. */
  class OutputArray<T> {
    var chs: seq<Channel<T>>

    ghost predicate Valid()
      reads this
    {
      forall j, k :: 0 <= j < k < |chs| ==> chs[j] != chs[k]
    }

    /** `num_channels` fresh channels, each at time 0. */
    constructor (numChannels: nat, default: T)
      ensures Valid() && |chs| == numChannels
      ensures forall k :: 0 <= k < numChannels ==>
        fresh(chs[k]) && chs[k].nextT == 0 && chs[k].data == default
    {
      var cs: seq<Channel<T>> := [];
      for i := 0 to numChannels
        invariant |cs| == i
        invariant forall k :: 0 <= k < i ==> fresh(cs[k]) && cs[k].nextT == 0 && cs[k].data == default
        invariant forall j, k :: 0 <= j < k < i ==> cs[j] != cs[k]
      {
        var c := new Channel(default);
        cs := cs + [c];
      }
      chs := cs;
    }

    function NumChannels(): nat
      reads this
    {
      |chs|
    }

    /** The frame of channel `i` for time `t`; an index out of range panics. */
    function Get(i: nat, t: Time): (o: Option<T>)
      reads this, if i < |chs| then {chs[i]} else {}
      requires i < |chs|
      ensures o == chs[i].Get(t)
    {
      chs[i].Get(t)
    }

    /** Pushes the next frame of channel `i` and of no other channel. */
    method Push(i: nat, f: T)
      requires Valid() && i < |chs|
      modifies chs[i]
      ensures chs[i].data == f && chs[i].nextT == old(chs[i].nextT) + 1
      ensures Get(i, old(chs[i].nextT)) == Some(f)
      ensures forall k :: 0 <= k < |chs| && k != i ==>
        chs[k].data == old(chs[k].data) && chs[k].nextT == old(chs[k].nextT)
    {
      chs[i].Push(f);
    }
  }

  /** The channels a device reads, each slot empty or a shared reference. */
  class InputArray<T> {
    var chs: seq<Option<ChannelRef<T>>>

    /** `num_channels` empty slots. */
    constructor (numChannels: nat)
      ensures |chs| == numChannels && forall k :: 0 <= k < numChannels ==> chs[k] == None
    {
      chs := seq(numChannels, _ => None);
    }

    function NumChannels(): nat
      reads this
    {
      |chs|
    }

    /** Slot `i` reads from `channel`; the other slots keep their channels. */
    method SetChannel(i: nat, channel: ChannelRef<T>)
      requires i < |chs|
      modifies this
      ensures chs == old(chs)[i := Some(channel)]
      ensures forall t: Time :: Get(i, t) == channel.Get(t)
    {
      chs := chs[i := Some(channel)];
    }

    /** Slot `i` becomes empty; the other slots keep their channels. */
    method RemoveChannel(i: nat)
      requires i < |chs|
      modifies this
      ensures chs == old(chs)[i := None]
      ensures forall t: Time :: Get(i, t) == None
    {
      chs := chs[i := None];
    }

    /** The frame of slot `i` for time `t`: none for an empty slot, and
        otherwise whatever its channel holds for `t`. */
    function Get(i: nat, t: Time): (o: Option<T>)
      reads this, if i < |chs| && chs[i].Some? then {chs[i].value, chs[i].value.ch} else {}
      requires i < |chs|
      ensures chs[i] == None ==> o == None
      ensures chs[i].Some? ==> o == chs[i].value.ch.Get(t)
    {
      match chs[i]
      case Some(c) => c.Get(t)
      case None => None
    }
  }
}
