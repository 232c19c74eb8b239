/** Drivers that run something that processes in discrete time steps: a fixed
    number of steps, or whole blocks of a tenth of a second until the user
    asks to stop. The stop request arrives from another thread; here it is
    an oracle `stopped(k)`, the answer the check after block `k` sees. */
module Ticking {
  import opened Types

  /** The ticks in one block: a tenth of a second at the sample rate. */
  const TICKS_PER_BLOCK: nat := SAMPLE_RATE / 10

  /** The ticks in `blocks` whole blocks, one block at a time. */
  function BlockTicks(blocks: nat): nat
  {
    if blocks == 0 then 0 else BlockTicks(blocks - 1) + TICKS_PER_BLOCK
  }

  /** `blocks` blocks are `TICKS_PER_BLOCK * blocks` ticks. */
  lemma {:induction false} BlockTicksProduct(blocks: nat)
    ensures BlockTicks(blocks) == TICKS_PER_BLOCK * blocks
  {
    if blocks > 0 {
      BlockTicksProduct(blocks - 1);
    }
  }

  /** The state after `n` steps from `s`. */
  function Iterate<S>(step: S -> S, s: S, n: nat): S
    decreases n
  {
    if n == 0 then s else step(Iterate(step, s, n - 1))
  }

  /** `a` steps followed by `b` steps are `a + b` steps. */
  lemma {:induction false} IterateAdd<S>(step: S -> S, s: S, a: nat, b: nat)
    ensures Iterate(step, Iterate(step, s, a), b) == Iterate(step, s, a + b)
    decreases b
  {
    if b > 0 {
      IterateAdd(step, s, a, b - 1);
    }
  }

  /** `b + 1` blocks are `b` blocks followed by one more. */
  lemma NextBlock<S>(step: S -> S, s: S, b: nat)
    ensures Iterate(step, s, BlockTicks(b + 1)) ==
      Iterate(step, Iterate(step, s, BlockTicks(b)), TICKS_PER_BLOCK)
  {
    IterateAdd(step, s, BlockTicks(b), TICKS_PER_BLOCK);
  }

  /** The block loop's exit: it stops after the first block whose check sees
      the request, so `blocks` is the position of the first `true` plus one. */
  ghost predicate FirstStop(stopped: nat -> bool, blocks: nat)
  {
    blocks >= 1 && stopped(blocks - 1) && forall j: nat :: j < blocks - 1 ==> !stopped(j)
  }

  /** Anything with a `tick` step: `state` is what one step changes and
      `ticks` counts the steps taken. */
  class Ticker<S> {
    const step: S -> S
    var state: S
    var ticks: nat

    constructor (step: S -> S, init: S)
      ensures this.step == step && state == init && ticks == 0
    {
      this.step := step;
      state := init;
      ticks := 0;
    }

    /** One time step. */
    method Tick()
      modifies this
      ensures state == step(old(state)) && ticks == old(ticks) + 1
    {
      state := step(state);
      ticks := ticks + 1;
    }

    /** Exactly `n` steps, then returns; `n == 0` takes none. */
    method TickNTimes(n: Time)
      modifies this
      ensures state == Iterate(step, old(state), n)
      ensures ticks == old(ticks) + n
    {
      for i := 0 to n
        invariant state == Iterate(step, old(state), i)
        invariant ticks == old(ticks) + i
      {
        Tick();
      }
    }

    /** Whole blocks of `TICKS_PER_BLOCK` steps, at least one, with the stop
        request checked only after each block; the loop leaves after the
        first block whose check sees the request and ticks no further. The
        loop needs some request to come: without one it never returns. */
    method TickUntilEnter(stopped: nat -> bool) returns (blocks: nat)
      requires exists k: nat :: stopped(k)
      modifies this
      ensures FirstStop(stopped, blocks)
      ensures state == Iterate(step, old(state), BlockTicks(blocks))
      ensures ticks == old(ticks) + BlockTicks(blocks)
    {
      ghost var k: nat :| stopped(k);
      blocks := 0;
      while true
        invariant forall j: nat :: j < blocks ==> !stopped(j)
        invariant state == Iterate(step, old(state), BlockTicks(blocks))
        invariant ticks == old(ticks) + BlockTicks(blocks)
        decreases k - blocks
      {
        ghost var before := state;
        for i := 0 to TICKS_PER_BLOCK
          invariant state == Iterate(step, before, i)
          invariant ticks == old(ticks) + BlockTicks(blocks) + i
        {
          Tick();
        }
        NextBlock(step, old(state), blocks);
        blocks := blocks + 1;
        if stopped(blocks - 1) {
          return;
        }
      }
    }
  }

  /** The free-function drivers: the same loops over a ticker passed in. */
  method TickNTimesOf<S>(ticker: Ticker<S>, times: Time)
    modifies ticker
    ensures ticker.state == Iterate(ticker.step, old(ticker.state), times)
    ensures ticker.ticks == old(ticker.ticks) + times
  {
    for i := 0 to times
      invariant ticker.state == Iterate(ticker.step, old(ticker.state), i)
      invariant ticker.ticks == old(ticker.ticks) + i
    {
      ticker.Tick();
    }
  }

  /** Blocks of `TICKS_PER_BLOCK` steps until the check after a block
      receives the stop message; at least one block. */
  method TickUntilEnterOf<S>(ticker: Ticker<S>, received: nat -> bool) returns (blocks: nat)
    requires exists k: nat :: received(k)
    modifies ticker
    ensures FirstStop(received, blocks)
    ensures ticker.state == Iterate(ticker.step, old(ticker.state), BlockTicks(blocks))
    ensures ticker.ticks == old(ticker.ticks) + BlockTicks(blocks)
  {
    ghost var k: nat :| received(k);
    blocks := 0;
    while true
      invariant forall j: nat :: j < blocks ==> !received(j)
      invariant ticker.state == Iterate(ticker.step, old(ticker.state), BlockTicks(blocks))
      invariant ticker.ticks == old(ticker.ticks) + BlockTicks(blocks)
      decreases k - blocks
    {
      ghost var before := ticker.state;
      for i := 0 to TICKS_PER_BLOCK
        invariant ticker.state == Iterate(ticker.step, before, i)
        invariant ticker.ticks == old(ticker.ticks) + BlockTicks(blocks) + i
      {
        ticker.Tick();
      }
      NextBlock(ticker.step, old(ticker.state), blocks);
      blocks := blocks + 1;
      if received(blocks - 1) {
        return;
      }
    }
  }
}

/** A manager that ticks a list of devices, each of which reads its inputs
    through channels and is ticked with the time alone. */
module Manager {
  import opened Types
  import opened Ticking

  /** A device ticked by the manager; `calls` holds the times it was ticked
      with, oldest first. */
  class TimedDevice {
    var calls: seq<Time>

    constructor ()
      ensures calls == []
    {
      calls := [];
    }

    method Tick(t: Time)
      modifies this
      ensures calls == old(calls) + [t]
    {
      calls := calls + [t];
    }
  }

  /** One manager tick seen from outside: device `i`, for `i` from the first
      added to the last, is ticked with `t`. */
  function Round(n: nat, t: Time): (r: seq<(nat, Time)>)
    ensures |r| == n
    ensures forall i :: 0 <= i < n ==> r[i] == (i, t)
  {
    seq(n, i => (i, t))
  }

  /** The ticks of `m` consecutive rounds starting at time `t0`. */
  function Rounds(n: nat, t0: Time, m: nat): seq<(nat, Time)>
  {
    if m == 0 then [] else Rounds(n, t0, m - 1) + Round(n, t0 + m - 1)
  }

  /** `m` rounds of `n` devices are `n * m` ticks. */
  lemma {:induction false} RoundsLength(n: nat, t0: Time, m: nat)
    ensures |Rounds(n, t0, m)| == n * m
  {
    if m > 0 {
      RoundsLength(n, t0, m - 1);
      assert n * (m - 1) + n == n * m;
    }
  }

  /** Within the rounds, tick number `r * n + i` is device `i` at time
      `t0 + r`: every device once per round, in insertion order. */
  lemma {:induction false} RoundsOrder(n: nat, t0: Time, m: nat, r: nat, i: nat)
    requires r < m && i < n
    ensures |Rounds(n, t0, m)| == n * m
    ensures r * n + i < n * m
    ensures Rounds(n, t0, m)[r * n + i] == (i, t0 + r)
    decreases m
  {
    assert r * n + i < (r + 1) * n <= m * n;
    RoundsLength(n, t0, m - 1);
    RoundsLength(n, t0, m);
    if r < m - 1 {
      RoundsOrder(n, t0, m - 1, r, i);
    } else {
      assert r * n == n * (m - 1);
    }
  }

  /** One more round extends both the rounds and each device's times. */
  lemma RoundsStep(n: nat, t0: Time, m: nat)
    ensures Rounds(n, t0, m + 1) == Rounds(n, t0, m) + Round(n, t0 + m)
  {
  }

  /** `a` rounds followed by `b` more are `a + b` rounds. */
  lemma {:induction false} RoundsAdd(n: nat, t0: Time, a: nat, b: nat)
    ensures Rounds(n, t0, a) + Rounds(n, t0 + a, b) == Rounds(n, t0, a + b)
    decreases b
  {
    if b > 0 {
      RoundsAdd(n, t0, a, b - 1);
      assert t0 + a + b - 1 == t0 + (a + b) - 1;
    }
  }

  /** Concatenation regrouped. */
  lemma Associative<T>(a: seq<T>, b: seq<T>, c: seq<T>)
    ensures (a + b) + c == a + (b + c)
  {
  }

  class DeviceManager {
    var t: Time
    var devices: seq<TimedDevice>
    /** Every device tick so far, as (position, time), in the order made. */
    ghost var log: seq<(nat, Time)>
    /** The position of each device in `devices`. */
    ghost var position: map<TimedDevice, nat>

    /** Each device is borrowed once: every device has one position, so no
        device appears twice. */
    ghost predicate Valid()
      reads this
    {
      forall k :: 0 <= k < |devices| ==> devices[k] in position && position[devices[k]] == k
    }

    /** No devices, time 0. */
    constructor ()
      ensures Valid() && t == 0 && devices == [] && log == []
    {
      t := 0;
      devices := [];
      log := [];
      position := map[];
    }

    /** Appends `device` and returns the new number of devices, which is its
        position counted from 1. */
    method AddDevice(device: TimedDevice) returns (count: nat)
      requires Valid() && device !in devices
      modifies this
      ensures Valid()
      ensures devices == old(devices) + [device]
      ensures count == |devices| && t == old(t) && log == old(log)
    {
      position := position[device := |devices|];
      devices := devices + [device];
      count := |devices|;
    }

    /** Ticks every device once, in insertion order, all with the current
        time, then advances the time by one. */
    method Tick()
      requires Valid()
      modifies this, devices
      ensures Valid() && devices == old(devices)
      ensures t == old(t) + 1
      ensures log == old(log) + Round(|devices|, old(t))
      ensures forall k :: 0 <= k < |devices| ==> devices[k].calls == old(devices[k].calls) + [old(t)]
    {
      var ds := devices;
      for i := 0 to |ds|
        invariant devices == ds && t == old(t) && position == old(position)
        invariant log == old(log) + Round(i, t)
        invariant forall k :: 0 <= k < i ==> ds[k].calls == old(ds[k].calls) + [t]
        invariant forall k :: i <= k < |ds| ==> ds[k].calls == old(ds[k].calls)
      {
        ds[i].Tick(t);
        assert Round(i + 1, t) == Round(i, t) + [(i, t)];
        log := log + [(i, t)];
      }
      t := t + 1;
    }

    /** The inner loop of `loop_until_enter`: one block, a tenth of a
        second of manager ticks. */
    method TickBlock()
      requires Valid()
      modifies this, devices
      ensures Valid() && devices == old(devices)
      ensures t == old(t) + TICKS_PER_BLOCK
      ensures log == old(log) + Rounds(|devices|, old(t), TICKS_PER_BLOCK)
    {
      ghost var ds := devices;
      for i := 0 to TICKS_PER_BLOCK
        invariant Valid() && devices == ds
        invariant t == old(t) + i
        invariant log == old(log) + Rounds(|ds|, old(t), i)
      {
        RoundsStep(|ds|, old(t), i);
        Tick();
      }
    }

    /** Blocks of `TICKS_PER_BLOCK` manager ticks, at least one, until the
        check after a block receives the stop message. The log then holds one
        round per time the loop ran, consecutive from the starting time, and
        `RoundsOrder` says which device each of its ticks went to. */
    method LoopUntilEnter(received: nat -> bool) returns (blocks: nat)
      requires Valid() && exists k: nat :: received(k)
      modifies this, devices
      ensures Valid() && devices == old(devices)
      ensures FirstStop(received, blocks)
      ensures t == old(t) + BlockTicks(blocks)
      ensures log == old(log) + Rounds(|devices|, old(t), BlockTicks(blocks))
    {
      ghost var k: nat :| received(k);
      ghost var ds := devices;
      blocks := 0;
      while true
        invariant Valid() && devices == ds
        invariant forall j: nat :: j < blocks ==> !received(j)
        invariant t == old(t) + BlockTicks(blocks)
        invariant log == old(log) + Rounds(|ds|, old(t), BlockTicks(blocks))
        decreases k - blocks
      {
        ghost var m := BlockTicks(blocks);
        TickBlock();
        RoundsAdd(|ds|, old(t), m, TICKS_PER_BLOCK);
        Associative(old(log), Rounds(|ds|, old(t), m), Rounds(|ds|, old(t) + m, TICKS_PER_BLOCK));
        blocks := blocks + 1;
        assert BlockTicks(blocks) == m + TICKS_PER_BLOCK;
        if received(blocks - 1) {
          return;
        }
      }
    }
  }
}
