/** A time-synchronous container for one channel of data: it holds only the
    latest frame pushed, and the time the next frame will have. */
module Channel {
  import opened Types

  /** `next_t - 1` in 64-bit arithmetic: the time of the latest frame, or the
      wrapped value `2^64 - 1` before anything was pushed. */
  function LatestTime(nextT: Time): Time
  {
    if nextT == 0 then U64_MODULUS - 1 else nextT - 1
  }

  class Channel<T> {
    var nextT: Time
    var data: T

    /** A channel at time 0 holding the default value. */
    constructor (default: T)
      ensures nextT == 0 && data == default
    {
      nextT := 0;
      data := default;
    }

    /** The frame for time `t`, which exists only for the latest time. Before
        the first push the latest time wraps around to `2^64 - 1`. */
    function Get(t: Time): (o: Option<T>)
      reads this
      ensures o.Some? <==> (if nextT == 0 then t == U64_MODULUS - 1 else t + 1 == nextT)
      ensures o.Some? ==> o.value == data
    {
      if t != LatestTime(nextT) then None else Some(data)
    }

    /** Stores the next frame: it becomes the only one `Get` returns. */
    method Push(f: T)
      modifies this
      ensures data == f && nextT == old(nextT) + 1
      ensures Get(old(nextT)) == Some(f)
      ensures forall t: Time :: t != old(nextT) ==> Get(t) == None
    {
      data := f;
      nextT := nextT + 1;
    }
  }

  /** A shared reference to a channel: every clone reaches the same channel. */
  class ChannelRef<T> {
    const ch: Channel<T>

    constructor (default: T)
      ensures fresh(ch) && ch.nextT == 0 && ch.data == default
    {
      ch := new Channel(default);
    }

    /** `clone`: a new reference to the same channel. */
    method Clone() returns (r: ChannelRef<T>)
      ensures fresh(r) && r.ch == ch
    {
      r := new ChannelRef.Share(ch);
    }

    constructor Share(ch: Channel<T>)
      ensures this.ch == ch
    {
      this.ch := ch;
    }

    function Get(t: Time): (o: Option<T>)
      reads this, ch
      ensures o == ch.Get(t)
    {
      ch.Get(t)
    }

    method Push(f: T)
      modifies ch
      ensures ch.data == f && ch.nextT == old(ch.nextT) + 1
    {
      ch.Push(f);
    }
  }

  /** A push through one clone of a reference is what a get through another
      clone returns. */
  method PushSeenThroughClone<T>(a: ChannelRef<T>, f: T) returns (seen: Option<T>)
    modifies a.ch
    ensures seen == Some(f)
  {
    var b := a.Clone();
    var t := b.ch.nextT;
    b.Push(f);
    seen := a.Get(t);
  }
}
