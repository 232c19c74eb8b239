/** The older ring buffer, which stores the element of timestamp `t` in slot
    `t % capacity` and counts its elements in `size`. */
module CoreRingBuffer {
  import opened Types
  import opened Modular

  class RingBuffer<T> {
    var buf: seq<T>
    var capacity: nat
    var size: nat
    var startT: Time
    var endT: Time
    /** Every element ever pushed; the one pushed at timestamp `t` is
        `Pushes[t]`. */
    ghost var Pushes: seq<T>

    /** The buffer grows slot by slot from time 0 until it is full; from
        then on each timestamp of the window sits in slot `t % capacity`. */
    ghost predicate Valid()
      reads this
    {
      && |buf| == size && size <= capacity
      && startT + size == endT
      && (size < capacity ==> startT == 0)
      && |Pushes| == endT
      && (forall t :: startT <= t < endT ==> buf[t % capacity] == Pushes[t])
    }

    /** `new(capacity)`. */
    constructor (capacity: nat)
      ensures Valid() && this.capacity == capacity
      ensures size == 0 && startT == 0 && endT == 0 && Pushes == []
    {
      buf := [];
      this.capacity := capacity;
      size := 0;
      startT := 0;
      endT := 0;
      Pushes := [];
    }

    /** `get(t)`: the element pushed at `t` exactly when `t` is one of the
        last `capacity` timestamps. */
    function Get(t: Time): (o: Option<T>)
      reads this
      requires Valid()
      ensures o == if startT <= t < endT then Some(Pushes[t]) else None
    {
      if startT <= t && t < endT then Some(buf[t % capacity]) else None
    }

    /** `push(x)`. A capacity of 0 would take `% 0`, so it is excluded. */
    method Push(x: T)
      requires Valid() && capacity >= 1
      modifies this
      ensures Valid() && capacity == old(capacity)
      ensures Pushes == old(Pushes) + [x] && endT == old(endT) + 1
      ensures old(size) < capacity ==> size == old(size) + 1 && startT == old(startT)
      ensures old(size) == capacity ==> size == capacity && startT == old(startT) + 1
    {
      if size < capacity {
        forall t | startT <= t < endT
          ensures t % capacity == t
        {
          ModUnique(t, capacity, 0, t);
        }
        ModUnique(endT, capacity, 0, endT);
        buf := buf + [x];
        size := size + 1;
        endT := endT + 1;
      } else {
        forall t | startT < t < endT
          ensures t % capacity != endT % capacity
        {
          ModDistinct(t, endT - t, capacity);
        }
        buf := buf[endT % capacity := x];
        startT := startT + 1;
        endT := endT + 1;
      }
      Pushes := Pushes + [x];
    }
  }
}
