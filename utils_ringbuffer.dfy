/** The timestamp-indexed ring buffer: it keeps the elements pushed at the
    last `capacity` timestamps, each retrievable by its time. The element
    with timestamp `t` lives in slot `(start_i + (t - start_t)) % capacity`. */
module UtilsRingBuffer {
  import opened Types
  import opened Modular

  /** The fields of a ring buffer. */
  datatype Ring<T> = Ring(buf: seq<T>, capacity: nat, startI: nat, startT: Time, endT: Time)

  /** The representation invariant every public operation keeps: while the
      buffer is filling, `buf` holds exactly the window in time order from
      slot 0; once full it holds `capacity` elements and the oldest sits at
      `startI`. */
  ghost predicate Inv<T>(r: Ring<T>)
  {
    && r.startT <= r.endT
    && |r.buf| <= r.capacity
    && (if |r.buf| < r.capacity then r.startI == 0 && r.endT - r.startT == |r.buf|
        else r.endT - r.startT == r.capacity && (r.startI < r.capacity || r.startI == 0))
  }

  /** `len()`. */
  function Len<T>(r: Ring<T>): nat
    requires r.startT <= r.endT
  {
    r.endT - r.startT
  }

  /** The slot of `buf` that indexing reads for timestamp `t`. */
  function Slot<T>(r: Ring<T>, t: Time): nat
    requires r.capacity >= 1 && r.startT <= t
  {
    (r.startI + (t - r.startT)) % r.capacity
  }

  /** Indexing at `t` does not panic: a timestamp in the window needs a
      non-zero capacity and a slot that exists. */
  ghost predicate Readable<T>(r: Ring<T>, t: Time)
  {
    r.startT <= t < r.endT ==> r.capacity >= 1 && Slot(r, t) < |r.buf|
  }

  /** Under the invariant every timestamp of the window is readable. */
  lemma InvReadable<T>(r: Ring<T>, t: Time)
    requires Inv(r)
    ensures Readable(r, t)
  {
    if r.startT <= t < r.endT {
      ModSmall(r.startI + (t - r.startT), r.capacity);
    }
  }

  /** Element `k` of the window sits at `startI + k`, wrapped once. */
  lemma ElementAt<T>(r: Ring<T>, k: nat)
    requires Inv(r) && k < Len(r)
    ensures r.capacity >= 1 && Slot(r, r.startT + k) < |r.buf|
    ensures Slot(r, r.startT + k) == if r.startI + k < r.capacity then r.startI + k else r.startI + k - r.capacity
    ensures Elements(r)[k] == r.buf[Slot(r, r.startT + k)]
  {
    ModSmall(r.startI + k, r.capacity);
  }

  /** The window's elements, oldest first: the value at timestamp
      `startT + k` is element `k`. */
  function Elements<T>(r: Ring<T>): (s: seq<T>)
    requires Inv(r)
    ensures |s| == Len(r)
  {
    seq(r.endT - r.startT, k requires 0 <= k < r.endT - r.startT =>
      InvReadable(r, r.startT + k); r.buf[Slot(r, r.startT + k)])
  }

  /** `new(capacity)`. */
  function New<T>(capacity: nat): (r: Ring<T>)
    ensures Inv(r) && Len(r) == 0
    ensures r.capacity == capacity && r.startT == 0 && r.endT == 0
  {
    Ring([], capacity, 0, 0, 0)
  }

  /** `get(t)`: `Some` exactly inside the window. */
  function Lookup<T>(r: Ring<T>, t: Time): (o: Option<T>)
    requires Readable(r, t)
  {
    if r.startT <= t && t < r.endT then Some(r.buf[Slot(r, t)]) else None
  }

  /** `get` reads the element of the window with that timestamp. */
  lemma GetElements<T>(r: Ring<T>, t: Time)
    requires Inv(r)
    ensures Readable(r, t)
    ensures Lookup(r, t) == if r.startT <= t < r.endT then Some(Elements(r)[t - r.startT]) else None
  {
    InvReadable(r, t);
  }

  /** `push(x)`. A capacity of 0 would take `% 0`, so it is excluded. */
  function Pushed<T>(r: Ring<T>, x: T): Ring<T>
    requires r.capacity >= 1 && r.startT <= r.endT
  {
    if |r.buf| < r.capacity then
      r.(buf := r.buf + [x], endT := r.endT + 1)
    else
      var i := r.startI + (r.endT - r.startT);
      r.(buf := r.buf[i % r.capacity := x], startI := (r.startI + 1) % r.capacity,
         startT := r.startT + 1, endT := r.endT + 1)
  }

  /** Push keeps the invariant and moves the end of the window by one; a
      full buffer also moves its start. */
  lemma PushWindow<T>(r: Ring<T>, x: T)
    requires Inv(r) && r.capacity >= 1
    ensures Inv(Pushed(r, x))
    ensures Pushed(r, x).endT == r.endT + 1
    ensures Pushed(r, x).startT == if Len(r) == r.capacity then r.startT + 1 else r.startT
    ensures Pushed(r, x).capacity == r.capacity
  {
    var n := r.capacity;
    if |r.buf| == n {
      ModSmall(r.startI + n, n);
      ModSmall(r.startI + 1, n);
    }
  }

  /** Push appends `x` at timestamp `endT`; a full buffer evicts its oldest
      element, so only the end moves unless the buffer was full. */
  lemma PushElements<T>(r: Ring<T>, x: T)
    requires Inv(r) && r.capacity >= 1
    ensures Inv(Pushed(r, x))
    ensures Elements(Pushed(r, x)) == (if Len(r) == r.capacity then Elements(r)[1..] else Elements(r)) + [x]
    ensures Pushed(r, x).endT == r.endT + 1
    ensures Pushed(r, x).startT == if Len(r) == r.capacity then r.startT + 1 else r.startT
    ensures Pushed(r, x).capacity == r.capacity
  {
    var r' := Pushed(r, x);
    var n := r.capacity;
    var e := if Len(r) == n then Elements(r)[1..] else Elements(r);
    PushWindow(r, x);
    if |r.buf| == n {
      ModSmall(r.startI + n, n);
      ModSmall(r.startI + 1, n);
    }
    forall k | 0 <= k < Len(r')
      ensures Elements(r')[k] == (e + [x])[k]
    {
      ElementAt(r', k);
      if k < |e| {
        ElementAt(r, if Len(r) == n then k + 1 else k);
      }
    }
  }

  /** After `push(x)`, indexing the newest timestamp gives `x` and every
      timestamp still in the window keeps its value. */
  lemma PushGet<T>(r: Ring<T>, x: T, t: Time)
    requires Inv(r) && r.capacity >= 1
    ensures Readable(r, t) && Readable(Pushed(r, x), t)
    ensures Lookup(Pushed(r, x), t) ==
      if t == r.endT then Some(x)
      else if t < Pushed(r, x).startT then None
      else Lookup(r, t)
  {
    PushElements(r, x);
    GetElements(r, t);
    GetElements(Pushed(r, x), t);
  }

  /** `index_mut(t)` followed by a write of `x`. */
  function Written<T>(r: Ring<T>, t: Time, x: T): Ring<T>
    requires r.startT <= t < r.endT && Readable(r, t)
  {
    r.(buf := r.buf[Slot(r, t) := x])
  }

  /** Writing through the index replaces exactly the element at `t`. */
  lemma WrittenElements<T>(r: Ring<T>, t: Time, x: T)
    requires Inv(r) && r.startT <= t < r.endT
    ensures Readable(r, t) && Inv(Written(r, t, x))
    ensures Elements(Written(r, t, x)) == Elements(r)[t - r.startT := x]
  {
    InvReadable(r, t);
    var r' := Written(r, t, x);
    var i := t - r.startT;
    ElementAt(r, i);
    assert Inv(r');
    forall k | 0 <= k < Len(r)
      ensures Elements(r')[k] == Elements(r)[i := x][k]
    {
      ElementAt(r, k);
      ElementAt(r', k);
    }
  }

  /** `clear()` as the source writes it: only `start_t` moves, and `buf` and
      `start_i` keep their old contents. */
  function ClearedAsWritten<T>(r: Ring<T>): Ring<T>
  {
    r.(startT := r.endT)
  }

  /** After the source's `clear` on a full buffer, the next push overwrites
      a slot but moves both ends: the window stays empty and the element just
      pushed cannot be read back. */
  lemma ClearAsWrittenLosesPush<T>(r: Ring<T>, x: T)
    requires Inv(r) && r.capacity >= 1 && Len(r) == r.capacity
    ensures var r' := Pushed(ClearedAsWritten(r), x);
      r'.startT == r'.endT == r.endT + 1 && Readable(r', r.endT) && Lookup(r', r.endT) == None
  {
  }

  /** After the source's `clear` on a buffer that is neither empty nor full,
      the next push is appended behind the stale elements, and reading its
      timestamp returns the stale element in slot 0 instead. */
  lemma ClearAsWrittenReadsStale<T>(r: Ring<T>, x: T)
    requires Inv(r) && 0 < Len(r) < r.capacity
    ensures var r' := Pushed(ClearedAsWritten(r), x);
      Readable(r', r.endT) && Lookup(r', r.endT) == Some(r.buf[0])
  {
  }

  /** `clear()` as intended: an empty window starting at `endT`, with the
      storage reset so that the invariant holds again. */
  function Cleared<T>(r: Ring<T>): (r': Ring<T>)
    ensures Inv(r') && Len(r') == 0
    ensures r'.startT == r'.endT == r.endT && r'.capacity == r.capacity
  {
    Ring([], r.capacity, 0, r.endT, r.endT)
  }

  /** After `clear`, no timestamp is readable and the next push is. */
  lemma ClearThenPush<T>(r: Ring<T>, x: T, t: Time)
    requires Inv(r) && r.capacity >= 1
    ensures Readable(Cleared(r), t) && Lookup(Cleared(r), t) == None
    ensures Readable(Pushed(Cleared(r), x), r.endT) && Lookup(Pushed(Cleared(r), x), r.endT) == Some(x)
  {
    PushGet(Cleared(r), x, r.endT);
  }

  /** `resize(c)`: drops the oldest elements beyond `c`, then copies the
      remaining window, oldest first, into a fresh storage of capacity `c`. */
  function Resized<T>(r: Ring<T>, c: nat): Ring<T>
    requires Inv(r)
  {
    var elems := r.endT - r.startT;
    var drops := if c < elems then elems - c else 0;
    var i0 := r.startI + drops;
    var n := elems - drops;
    Ring(seq(n, k requires 0 <= k < n =>
           InvReadable(r, r.startT + drops + k); r.buf[(i0 + k) % r.capacity]),
         c, 0, r.startT + drops, r.endT)
  }

  /** Resizing keeps the invariant and the end of the window, and keeps
      `min(len, c)` timestamps. */
  lemma ResizeWindow<T>(r: Ring<T>, c: nat)
    requires Inv(r)
    ensures Inv(Resized(r, c)) && Resized(r, c).capacity == c
    ensures Resized(r, c).endT == r.endT
    ensures Resized(r, c).startT == if c < Len(r) then r.endT - c else r.startT
  {
  }

  /** Resizing keeps the newest `min(len, c)` elements with their timestamps
      and order, and the end of the window does not move. */
  lemma ResizeElements<T>(r: Ring<T>, c: nat)
    requires Inv(r)
    ensures Inv(Resized(r, c)) && Resized(r, c).capacity == c
    ensures Resized(r, c).endT == r.endT
    ensures Resized(r, c).startT == if c < Len(r) then r.endT - c else r.startT
    ensures Elements(Resized(r, c)) == Elements(r)[if c < Len(r) then Len(r) - c else 0..]
  {
    var r' := Resized(r, c);
    var d := if c < Len(r) then Len(r) - c else 0;
    ResizeWindow(r, c);
    forall k | 0 <= k < Len(r')
      ensures Elements(r')[k] == Elements(r)[d..][k]
    {
      ElementAt(r', k);
      ElementAt(r, d + k);
    }
  }

  /** The class as the source declares it: the fields are updated in place. */
  class RingBuffer<T> {
    var buf: seq<T>
    var capacity: nat
    var startI: nat
    var startT: Time
    var endT: Time

    function State(): Ring<T>
      reads this
    {
      Ring(buf, capacity, startI, startT, endT)
    }

    ghost predicate Valid()
      reads this
    {
      Inv(State())
    }

    /** `new(capacity)`. */
    constructor (capacity: nat)
      ensures Valid() && State() == New(capacity)
    {
      buf := [];
      this.capacity := capacity;
      startI := 0;
      startT := 0;
      endT := 0;
    }

    /** `len()`, never more than the capacity. */
    function Len(): (n: nat)
      reads this
      requires Valid()
      ensures n <= capacity && n == |Elements(State())|
    {
      endT - startT
    }

    /** `times()`: the window, first timestamp inclusive, last exclusive. */
    function Times(): (r: (Time, Time))
      reads this
      requires Valid()
      ensures r.0 <= r.1 && r.1 - r.0 == |Elements(State())|
    {
      (startT, endT)
    }

    /** `get(t)`. */
    function Get(t: Time): (o: Option<T>)
      reads this
      requires Valid()
      ensures o == if startT <= t < endT then Some(Elements(State())[t - startT]) else None
    {
      GetElements(State(), t);
      Lookup(State(), t)
    }

    /** `index(t)`: panics outside the window, hence the precondition. */
    function Index(t: Time): (x: T)
      reads this
      requires Valid() && startT <= t < endT
      ensures x == Elements(State())[t - startT]
    {
      InvReadable(State(), t);
      buf[Slot(State(), t)]
    }

    /** `index_mut(t)` and a write of `x` through the returned reference. */
    method IndexMut(t: Time, x: T)
      requires Valid() && startT <= t < endT
      modifies this
      ensures Valid() && State() == Written(old(State()), t, x)
      ensures Elements(State()) == old(Elements(State()))[t - old(startT) := x]
    {
      WrittenElements(State(), t, x);
      buf := buf[Slot(State(), t) := x];
    }

    /** `get_mut(t)` and a write of `x` through the reference when there is
        one; reports whether there was. */
    method GetMut(t: Time, x: T) returns (found: bool)
      requires Valid()
      modifies this
      ensures Valid() && (found <==> old(startT) <= t < old(endT))
      ensures found ==> Elements(State()) == old(Elements(State()))[t - old(startT) := x]
      ensures !found ==> State() == old(State())
    {
      if startT <= t && t < endT {
        IndexMut(t, x);
        found := true;
      } else {
        found := false;
      }
    }

    /** `push(x)`. */
    method Push(x: T)
      requires Valid() && capacity >= 1
      modifies this
      ensures Valid() && State() == Pushed(old(State()), x)
      ensures Elements(State()) ==
        (if old(Len()) == capacity then old(Elements(State()))[1..] else old(Elements(State()))) + [x]
    {
      PushElements(State(), x);
      if |buf| < capacity {
        buf := buf + [x];
        endT := endT + 1;
      } else {
        var i := startI + (endT - startT);
        buf := buf[i % capacity := x];
        startI := (startI + 1) % capacity;
        startT := startT + 1;
        endT := endT + 1;
      }
    }

    /** `clear()`, with the storage reset (see `ClearedAsWritten`). */
    method Clear()
      requires Valid()
      modifies this
      ensures Valid() && State() == Cleared(old(State()))
    {
      buf := [];
      startI := 0;
      startT := endT;
    }

    /** `resize(c)`: the copy loop of the source. */
    method Resize(c: nat)
      requires Valid()
      modifies this
      ensures Valid() && State() == Resized(old(State()), c)
      ensures Elements(State()) == old(Elements(State()))[if c < old(Len()) then old(Len()) - c else 0..]
    {
      ghost var r := State();
      ResizeElements(r, c);
      var elems := endT - startT;
      var si, st := startI, startT;
      if c < elems {
        var drops := elems - c;
        si := si + drops;
        st := st + drops;
        elems := c;
      }
      var newBuf: seq<T> := [];
      var i := si;
      while i < si + elems
        invariant State() == r
        invariant si == startI + (st - startT) && st + elems == endT && startT <= st
        invariant si <= i <= si + elems
        invariant |newBuf| == i - si
        invariant forall k :: 0 <= k < |newBuf| ==> newBuf[k] == Resized(r, c).buf[k]
      {
        InvReadable(r, st + (i - si));
        assert Slot(r, st + (i - si)) == i % capacity;
        newBuf := newBuf + [buf[i % capacity]];
        i := i + 1;
      }
      buf, startI, startT, capacity := newBuf, 0, st, c;
    }

    /** `iter()`. */
    method Iter() returns (it: Iter<T>)
      requires Valid()
      ensures fresh(it) && it.Valid() && it.buffer == this && it.t == startT
    {
      it := new Iter(this, startT);
    }

    /** `timestamp_iter()`. */
    method TimestampIter() returns (it: IterTimes)
      requires Valid()
      ensures fresh(it) && it.t == startT && it.end == endT
    {
      it := new IterTimes(startT, endT);
    }
  }

  /** An iterator over the values of the window, oldest first. */
  class Iter<T> {
    const buffer: RingBuffer<T>
    var t: Time

    ghost predicate Valid()
      reads this, buffer
    {
      buffer.Valid() && buffer.startT <= t <= buffer.endT
    }

    constructor (buffer: RingBuffer<T>, t: Time)
      requires buffer.Valid() && buffer.startT <= t <= buffer.endT
      ensures Valid() && this.buffer == buffer && this.t == t
    {
      this.buffer := buffer;
      this.t := t;
    }

    /** The values the iterator has still to yield. */
    ghost function Remaining(): seq<T>
      reads this, buffer
      requires Valid()
    {
      Elements(buffer.State())[t - buffer.startT..]
    }

    /** `next()`: the value stamped with the cursor, which then advances;
        `None` once the cursor reaches the end of the window. */
    method Next() returns (o: Option<T>)
      requires Valid()
      modifies this
      ensures Valid()
      ensures o == if old(t) == buffer.endT then None else Some(Elements(buffer.State())[old(t) - buffer.startT])
      ensures t == if o.None? then old(t) else old(t) + 1
    {
      if t == buffer.endT {
        o := None;
      } else {
        o := Some(buffer.Index(t));
        t := t + 1;
      }
    }

    /** `size_hint()`: exact, both bounds the number of values left. */
    function SizeHint(): (r: (nat, Option<nat>))
      reads this, buffer
      requires Valid()
      ensures r.0 == |Remaining()| && r.1 == Some(r.0)
    {
      (buffer.endT - t, Some(buffer.endT - t))
    }

    /** Draining the iterator yields the remaining window in time order. */
    method Collect() returns (s: seq<T>)
      requires Valid()
      modifies this
      ensures Valid() && s == old(Remaining()) && t == buffer.endT
    {
      s := [];
      ghost var st0 := buffer.State();
      ghost var e := Elements(st0);
      ghost var lo := t - buffer.startT;
      var o := Next();
      while o.Some?
        invariant buffer.State() == st0 && Valid() && lo <= t - buffer.startT
        invariant o.Some? ==> (lo < t - buffer.startT && o.value == e[t - 1 - buffer.startT] &&
          s == e[lo..t - 1 - buffer.startT])
        invariant o.None? ==> t == buffer.endT && s == e[lo..]
        decreases buffer.endT - t, o.Some?
      {
        s := s + [o.value];
        o := Next();
      }
    }
  }

  /** An iterator over the timestamps of the window. */
  class IterTimes {
    var t: Time
    var end: Time

    constructor (t: Time, end: Time)
      ensures this.t == t && this.end == end
    {
      this.t := t;
      this.end := end;
    }

    /** `next()`. */
    method Next() returns (o: Option<Time>)
      requires t <= end
      modifies this
      ensures t <= end && end == old(end)
      ensures o == if old(t) == end then None else Some(old(t))
      ensures t == if o.None? then old(t) else old(t) + 1
    {
      if t == end {
        o := None;
      } else {
        o := Some(t);
        t := t + 1;
      }
    }

    /** `size_hint()`: exact. */
    function SizeHint(): (r: (nat, Option<nat>))
      reads this
      requires t <= end
      ensures r.0 + t == end && r.1 == Some(r.0)
    {
      (end - t, Some(end - t))
    }

    /** Draining yields every timestamp from `t` up to `end`, increasing. */
    method Collect() returns (s: seq<Time>)
      requires t <= end
      modifies this
      ensures |s| == old(end - t) && t == end
      ensures forall k :: 0 <= k < |s| ==> s[k] == old(t) + k
    {
      s := [];
      var o := Next();
      while o.Some?
        invariant t <= end && end == old(end)
        invariant o.Some? ==> o.value == t - 1 && |s| == t - 1 - old(t)
        invariant o.None? ==> t == end && |s| == t - old(t)
        invariant forall k :: 0 <= k < |s| ==> s[k] == old(t) + k
        decreases end - t, o.Some?
      {
        s := s + [o.value];
        o := Next();
      }
    }
  }
}
