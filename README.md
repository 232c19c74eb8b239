# oxcable in Dafny: the integer, structural and state-machine core

oxcable is a Rust library for real-time audio processing. Its devices
(oscillators, filters, mixers, delays, envelopes, MIDI and WAV I/O) share one
interface: a device has fixed numbers of input and output channels and is
ticked once per sample time with an input frame, writing an output frame.
Devices are composed in chains and graphs and driven by tick loops.

This project models the parts of the library whose behaviour is integer,
structural or state-machine logic, and proves what they promise. Each
floating-point computation becomes a parameter or an abstract value. The
modules follow the source files:

| module | file(s) | what it models |
|---|---|---|
| `Types`, `Device` | `types.dfy`, `device.dfy` | time, samples, fixed-width integers; the audio device interface as a model (channel counts and a response function of the calls received) and an object holding its history |
| `Chain` | `chain.dfy` | `DeviceChain`: append with the channel-count check, in-order ticking |
| `Graph` | `graph.dfy` | `DeviceGraph`: bus allocation, edge checks, Kahn's topological sort, ticking in topological order |
| `Ticking`, `Manager` | `tick.dfy` | `tick_n_times` and `tick_until_enter` (trait and free functions), and `DeviceManager` |
| `UtilsRingBuffer` | `utils_ringbuffer.dfy` | the timestamp-indexed ring buffer with `clear`, `resize` and its two iterators |
| `CoreRingBuffer` | `core_ringbuffer.dfy` | the older ring buffer indexed by `t % capacity` |
| `Delay` | `delay.dfy` | the delay filter over one ring buffer per channel |
| `Adsr` | `adsr.dfy` | the ADSR envelope's states, counters and messages |
| `VoiceArray`, `InstrumentsVoiceArray`, `ComponentsVoiceArray`, `CoreComponentsVoiceArray` | `voice_array.dfy`, `instruments_voice_array.dfy`, `components_voice_array.dfy`, `core_components_voice_array.dfy` | the four polyphonic voice allocators |
| `Channel`, `IoArray`, `CoreIoArray`, `CoreIoElements` | `channel.dfy`, `io_array.dfy`, `core_io_array.dfy` | single-frame channels and the input/output arrays and elements wired from them |
| `Multiplexer`, `Adder`, `Multiplier`, `Gain` | `mixers.dfy` | multiplexer, adder, multiplier and gain |
| `NoiseGate` | `noise_gate.dfy` | the noise gate's hysteresis |
| `MockDevice` | `mock_audio_device.dfy` | the expectation-driven mock device |
| `Wav` | `wav.dfy` | the 44-byte RIFF WAVE PCM header (encoding, decoding, validation) and the reader's and writer's byte accounting |
| `Midi` | `midi.dfy` | decoding of MIDI channel messages and the loop draining an input port |
| `Bits`, `UtilsFft`, `CoreFft` | `bits.dfy`, `utils_fft.dfy`, `core_fft.dfy` | bit reversal, the rounded-up logarithm, the bit-reversal tables, the bit-reversed copy and the butterfly passes of both FFT versions |
| `Wrappers` | `wrappers.dfy` | the `Buffered` and `BufferedOutput` wrappers |
| `Errors` | `errors.dfy` | the error conversions, descriptions and causes |
| `Rooms` | `rooms.dfy` | the reverberator's room parameters |
| `Queues`, `Modular` | `queues.dfy`, `modular.dfy` | shared helpers: queues as sequences, permutations of indices, remainder facts |

Modelling conventions:

- Objects whose fields the source updates in place are classes. Each method
  states its new state as a function of the old one, and the properties the
  source promises are proved about those functions.
- A Rust panic (an `unwrap` of `None`, an index out of range, a remainder
  by zero) becomes a precondition. An error the source returns becomes a
  `Result` value.
- Samples are `real`. The arithmetic the source does in `f32` (gains,
  decibel conversions, level detection, butterflies, envelope curves) is a
  parameter or an abstract function. The model states where each value goes,
  not what the floating-point unit makes of it.
- Fixed-width integer arithmetic that can overflow is written out with
  explicit wrap-around, as in a release build. This covers the WAV header
  fields, the 32-bit bit reversal and a channel's `next_t - 1`.
- The bit reversal works on `bv32` words, as the source does. The integer
  value of a word is the number its 32 bits spell (`Bits.WordValue`), and
  `Bits.WordOf` gives the word of each integer below `2^32`. The FFT tables
  are computed from the network on these words, and their entries are
  proved equal to the integer reversal of the index's low bits.
- A device's output frame is a function of every call it received before
  and of the current call. The proofs about chains, graphs and wrappers
  therefore say which device saw which frame at which time, and in what
  order.

## Model

| member | source | states |
|---|---|---|
| Chain.OneStage | src/chain.rs:76-89 | a chain of one device outputs exactly what that device's own tick writes |
| Chain.ThreeStages | src/chain.rs:82-89 | composition: a chain A, B, C outputs C applied to B applied to A applied to the chain's input, all at the same time |
| Chain.AudioNode.constructor | src/chain.rs:103-109 | a node owns its device and an output buffer of `num_outputs` zeros |
| Chain.AudioNode.Tick | src/chain.rs:114-116 | the node's outputs become the device's response to the given inputs and the device records exactly that call |
| Chain.DeviceChain.From | src/chain.rs:48-54 | one node, an input frame of `num_inputs` zeros, time 0 |
| Chain.DeviceChain.Into | src/chain.rs:59-65 | callable only when the last node's output count equals the new device's input count; appends the device with a silent output buffer and leaves earlier nodes, inputs and time unchanged |
| Chain.DeviceChain.SetInputs | src/chain.rs:67-73 | the caller overwrites the first stage's input frame (same length); nothing else changes |
| Chain.DeviceChain.GetOutput | src/chain.rs:75-78 | the last node's frame, of its device's output count |
| Chain.DeviceChain.Tick | src/chain.rs:82-89 | every stage ticks exactly once in order at the current time, stage k reading stage k-1's output of this tick and stage 0 the untouched inputs; time grows by exactly 1 |
| Chain.DeviceChain.TickStages | src/chain.rs:83-87 | the loop of `tick`: stage k's outputs and recorded call are those of the composition up to k |
| Graph.SpansOrdered | src/graph.rs:218-226 | each node's output range lies inside the bus, is as wide as its device's output count, and ends before the ranges of later nodes start |
| Graph.SpanOwner | src/graph.rs:218-226 | the output ranges of distinct nodes are disjoint |
| Graph.OwnerExists | src/graph.rs:218-226 | the ranges cover the bus: every bus index belongs to some node |
| Graph.Connected | src/graph.rs:125-127 | the `filter_map` over a node's input slots: each bus index occurs as often as the slots that read it |
| Graph.CollectEdges | src/graph.rs:125-127 | the loop building every node's edge list from its connected inputs |
| Graph.Sources | src/graph.rs:128-130 | the initial queue: without repeats, exactly the nodes with no edge, in index order |
| Graph.SweepOutput | src/graph.rs:140-158 | the sweep of one output over every node: as written one copy of it goes from each node that holds it, a node losing its last edge is queued at the back, and the queue only grows at the back |
| Graph.Unlink | src/graph.rs:141-157 | the sweep over one node: the first matching edge is removed (`swap_remove`), and the node is queued when that was its last edge |
| Graph.Unlinked | src/graph.rs:143-151 | a node's edges after the sweep of one output: one copy fewer as written, none with every copy removed, all other edges untouched |
| Graph.SweepNode | src/graph.rs:136-159 | placing a node sweeps each of its outputs in increasing order and keeps the bookkeeping: placed and queued nodes are distinct and are exactly the nodes without edges |
| Graph.Kahn | src/graph.rs:121-163 | the placed order has no repeats, puts every node after the nodes it reads, and is a permutation when it is full; with every copy removed, an acyclic wiring places every node; as written, a node that reads one bus index on two inputs is never placed |
| Graph.DuplicateStays | src/graph.rs:140-158 | after the sweep as written, a node that reads one bus index twice keeps an edge, so it is never queued |
| Graph.OrderRanks | src/graph.rs:165-167 | a full order that puts every node after the nodes it reads witnesses an acyclic wiring |
| Graph.TopologicalOrderAsWritten | src/graph.rs:121-172 | the sort as written: a full order is a permutation over an acyclic wiring, and a node reading one bus index twice is always left out |
| Graph.FanIn | src/graph.rs:102-114 | an acyclic two-node wiring, legal under the channel checks, in which node 1 reads node 0's only output on both inputs |
| Graph.FanInRejected | src/graph.rs:140-171 | the sort as written leaves a node out of that acyclic wiring, so `add_edge` reports CreatesCycle for an edge that closes no cycle |
| Graph.SelfReadUnranked | src/graph.rs:121-125 | a node that reads one of its own outputs has no ranking, so the wiring is a cycle |
| Graph.CycleErrorClearsSlot | src/graph.rs:165-171 | a pass-through node reading a source, re-wired to its own output: the edge closes a cycle, and the error path empties the slot that read the source, changing the graph |
| Graph.TopologicalOrder | src/graph.rs:121-172 | the corrected sort (every copy of a swept index removed) places every node exactly when the wiring is acyclic, in an order that puts every node after the nodes it reads |
| Graph.Rewire | src/graph.rs:113-114 | setting one input slot changes that slot and nothing else |
| Graph.RewireFits | src/graph.rs:113-114 | setting a slot to nothing or to a bus index keeps the tiling and every input inside the bus |
| Graph.DisconnectKeepsOrder | src/graph.rs:169 | emptying a slot keeps every order that put each node after the nodes it read, so the old topology stays valid after a rejected edge |
| Graph.Gather | src/graph.rs:239-241 | a node's input frame holds, per slot, the sample at the bus index the slot reads, or 0 for an unconnected slot |
| Graph.GatherInputs | src/graph.rs:239-241 | the loop filling the input buffer computes that frame |
| Graph.GatherSame | src/graph.rs:239-241 | a node's input frame depends only on the bus indices it reads |
| Graph.StepNode | src/graph.rs:238-244 | one node's tick writes only its own range of the bus and records only its own call |
| Graph.RunSettles | src/graph.rs:176-181 | ticking in an order that puts every node after the nodes it reads leaves each ticked node's outputs equal to its device's response to the inputs on the final bus, that is, each node reads what its writers wrote in this same tick |
| Graph.StepAfter | src/graph.rs:177-179 | ticking a node that no earlier node reads settles it and keeps the earlier nodes settled |
| Graph.NewNode | src/graph.rs:218-234 | a new node's outputs are appended to the bus as zeros, its range is (old length, new length), and all its inputs are unconnected |
| Graph.NodeAdded | src/graph.rs:72-78 | appending such a node keeps the tiling, the inputs inside the bus, and the topology valid once the node's index is appended |
| Graph.DeviceGraph.constructor | src/graph.rs:61-68 | no nodes, an empty topology and bus, time 0 |
| Graph.DeviceGraph.AddNode | src/graph.rs:72-78 | returns the previous node count, appends that index to the topology, and grows the bus by the device's output count in zeros, which becomes the node's range |
| Graph.DeviceGraph.AddEdge | src/graph.rs:90-116 | errors SrcOutOfRange, DestOutOfRange, SrcChOutOfRange and DestChOutOfRange in that priority, each changing nothing; a legal edge succeeds exactly when the rewired graph is acyclic, and then only the destination slot changes, set to the source's start plus the source channel; otherwise CreatesCycle with the slot emptied and the topology kept. The acyclicity test is the corrected sweep of `TopologicalSort` (see the Findings row for src/graph.rs:140-158); only the slot reset on a cycle is as written |
| Graph.DeviceGraph.TopologicalSort | src/graph.rs:121-172 | Ok exactly when the wiring is acyclic, with the new order installed; otherwise CreatesCycle, the slot emptied and the topology kept. Uses the corrected sweep |
| Graph.DeviceGraph.AddEdgeKeepingGraph | src/graph.rs:81-116 | the documented `add_edge`: the same errors and the same acyclic-iff-Ok outcome, but any error leaves the nodes and the topology as they were |
| Graph.DeviceGraph.Tick | src/graph.rs:176-181 | ticks every node once in topology order; every node's outputs are its device's response to the inputs it reads on the bus after the tick; time grows by one |
| Graph.DeviceGraph.TickNode | src/graph.rs:177-179 | one node's tick on the graph's bus and histories, as `StepNode` |
| Ticking.BlockTicksProduct | src/tick.rs:45-50 | whole blocks of a tenth of a second are `4410 * blocks` ticks |
| Ticking.IterateAdd | src/tick.rs:20-24 | `a` ticks followed by `b` ticks are `a + b` ticks |
| Ticking.NextBlock | src/tick.rs:46-50 | one more block is one block's worth of ticks after the blocks before it |
| Ticking.Ticker.constructor | src/tick.rs:15-17 | a ticker with its step, its initial state and no ticks taken |
| Ticking.Ticker.Tick | src/tick.rs:16-17 | one step of the state, counted |
| Ticking.Ticker.TickNTimes | src/tick.rs:20-24 | exactly `n` ticks and then returns; `n == 0` takes none |
| Ticking.Ticker.TickUntilEnter | src/tick.rs:35-55 | at least one block, a whole number of 4410-tick blocks, the stop flag read only after each block, and no tick after the first block whose check sees it |
| Ticking.TickNTimesOf | src/utils/tick.rs:10-14 | the free function: exactly `times` ticks of the ticker passed in |
| Ticking.TickUntilEnterOf | src/utils/tick.rs:22-41 | the free function: a positive whole number of 4410-tick blocks, stopping right after the first block after which the stop message is received |
| Manager.TimedDevice.Tick | src/components/manager.rs:38 | a managed device records the time it is ticked with |
| Manager.RoundsLength | src/components/manager.rs:36-41 | `m` manager ticks over `n` devices are `n * m` device ticks |
| Manager.RoundsOrder | src/components/manager.rs:36-41 | device tick number `r * n + i` goes to device `i` at time `t0 + r`: every device once per manager tick, in insertion order, with consecutive times |
| Manager.RoundsStep | src/components/manager.rs:36-41 | one more manager tick appends one round |
| Manager.DeviceManager.constructor | src/components/manager.rs:19-24 | time 0 and no devices |
| Manager.DeviceManager.AddDevice | src/components/manager.rs:30-33 | appends the device and returns the new device count, its position counted from 1 |
| Manager.DeviceManager.Tick | src/components/manager.rs:36-41 | every device ticked once in insertion order with the current time, then the time grows by one |
| Manager.DeviceManager.TickBlock | src/components/manager.rs:56-58 | one block of 4410 manager ticks |
| Manager.DeviceManager.LoopUntilEnter | src/components/manager.rs:44-63 | at least one block, whole blocks only, the exit checked only after each block; the log holds one round per manager tick |
| UtilsRingBuffer.InvReadable | src/utils/ringbuffer.rs:175-182 | under the buffer's invariant, indexing any timestamp in the window reads a slot that exists |
| UtilsRingBuffer.ElementAt | src/utils/ringbuffer.rs:180-181 | element `k` of the window sits at `start_i + k`, wrapped at most once |
| UtilsRingBuffer.Elements | src/utils/ringbuffer.rs:37-39 | the window's values, oldest first, exactly `len()` of them |
| UtilsRingBuffer.New | src/utils/ringbuffer.rs:26-34 | an empty buffer of the given capacity with times (0, 0) |
| UtilsRingBuffer.GetElements | src/utils/ringbuffer.rs:54-60 | `get(t)` is `Some` of the value stamped `t` exactly when `start_t <= t < end_t`, and `None` otherwise |
| UtilsRingBuffer.PushWindow | src/utils/ringbuffer.rs:74-85 | push keeps the invariant (so `len() <= capacity`); `end_t` always grows by one and `start_t` grows by one only when the buffer was full |
| UtilsRingBuffer.PushElements | src/utils/ringbuffer.rs:74-85 | push appends the value at timestamp `end_t`; on a full buffer the oldest value is evicted and the others keep their values |
| UtilsRingBuffer.PushGet | src/utils/ringbuffer.rs:74-85 | after `push(x)` the newest timestamp reads `x`, and every timestamp still in the window reads what it read before |
| UtilsRingBuffer.WrittenElements | src/utils/ringbuffer.rs:185-194 | writing through `index_mut(t)` replaces exactly the value at `t` |
| UtilsRingBuffer.ClearAsWrittenLosesPush | src/utils/ringbuffer.rs:88-90 | as written, after `clear` on a full buffer the next push evicts the new value at once: the length stays 0 and the pushed value cannot be read |
| UtilsRingBuffer.ClearAsWrittenReadsStale | src/utils/ringbuffer.rs:88-90 | as written, after `clear` on a buffer that is neither empty nor full, the next push is read back as an old value |
| UtilsRingBuffer.Cleared | src/utils/ringbuffer.rs:87-90 | the corrected `clear`: an empty window starting at `end_t`, capacity unchanged |
| UtilsRingBuffer.ClearThenPush | src/utils/ringbuffer.rs:87-90 | after the corrected `clear` nothing is readable, and a following push is readable at its timestamp |
| UtilsRingBuffer.ResizeWindow | src/utils/ringbuffer.rs:153-170 | resize keeps `end_t`, drops the oldest timestamps beyond the new capacity, and sets the capacity |
| UtilsRingBuffer.ResizeElements | src/utils/ringbuffer.rs:153-170 | resize keeps the newest `min(len, c)` values with their timestamps and in order |
| UtilsRingBuffer.RingBuffer.constructor | src/utils/ringbuffer.rs:26-34 | the class starts as `New(capacity)` |
| UtilsRingBuffer.RingBuffer.Len | src/utils/ringbuffer.rs:37-39 | `len()` is the number of values in the window and never exceeds the capacity |
| UtilsRingBuffer.RingBuffer.Times | src/utils/ringbuffer.rs:48-50 | `times()` is the window, with its width the number of values held |
| UtilsRingBuffer.RingBuffer.Get | src/utils/ringbuffer.rs:54-60 | `Some` of the value stamped `t` exactly inside the window |
| UtilsRingBuffer.RingBuffer.Index | src/utils/ringbuffer.rs:173-183 | indexing inside the window reads the value stamped `t`; outside it panics, hence the precondition |
| UtilsRingBuffer.RingBuffer.IndexMut | src/utils/ringbuffer.rs:185-194 | a write through `index_mut(t)` changes only the value stamped `t` |
| UtilsRingBuffer.RingBuffer.GetMut | src/utils/ringbuffer.rs:64-70 | a reference exactly inside the window; a write through it changes only that value, and outside the window nothing changes |
| UtilsRingBuffer.RingBuffer.Push | src/utils/ringbuffer.rs:74-85 | the fields become `Pushed(old state, x)`, whose values are the old window (minus its oldest value when full) followed by `x` |
| UtilsRingBuffer.RingBuffer.Clear | src/utils/ringbuffer.rs:87-90 | the corrected `clear`: the window becomes empty at `end_t` with the capacity kept, so nothing is readable and the next push is (see Findings) |
| UtilsRingBuffer.RingBuffer.Resize | src/utils/ringbuffer.rs:153-170 | the copy loop of `resize` gives `Resized(old state, c)`: the newest `min(len, c)` values in order |
| UtilsRingBuffer.RingBuffer.Iter | src/utils/ringbuffer.rs:106-108 | an iterator over this buffer with its cursor at `start_t` |
| UtilsRingBuffer.RingBuffer.TimestampIter | src/utils/ringbuffer.rs:124-126 | a timestamp iterator from `start_t` to `end_t` |
| UtilsRingBuffer.Iter.Next | src/utils/ringbuffer.rs:205-213 | `None` at `end_t`; otherwise the value stamped with the cursor, and the cursor advances by one |
| UtilsRingBuffer.Iter.SizeHint | src/utils/ringbuffer.rs:215-218 | exact: both bounds are the number of values still to come |
| UtilsRingBuffer.Iter.Collect | src/utils/ringbuffer.rs:203-213 | draining yields the rest of the window in increasing time order |
| UtilsRingBuffer.IterTimes.Next | src/utils/ringbuffer.rs:234-242 | `None` at the end; otherwise the cursor's timestamp, and the cursor advances |
| UtilsRingBuffer.IterTimes.SizeHint | src/utils/ringbuffer.rs:244-247 | exact: the cursor plus the hint is the end |
| UtilsRingBuffer.IterTimes.Collect | src/utils/ringbuffer.rs:232-242 | draining yields every timestamp from the cursor to the end, increasing by one |
| CoreRingBuffer.RingBuffer.constructor | src/core/ringbuffer.rs:20-28 | size 0, `start_t == end_t == 0`, nothing pushed |
| CoreRingBuffer.RingBuffer.Get | src/core/ringbuffer.rs:30-36 | `Some` of the value pushed at time `t` exactly when `start_t <= t < end_t`; the invariant keeps it in slot `t mod capacity` |
| CoreRingBuffer.RingBuffer.Push | src/core/ringbuffer.rs:38-48 | records the push at `end_t`; a non-full buffer grows by one with `start_t` kept, a full one keeps its size and advances both ends, overwriting slot `end_t mod capacity`; a capacity of 0 is excluded (`% 0`) |
| Delay.Silence | src/delay.rs:41-46 | each channel's starting buffer is full, of capacity `d`, holding `d` zeros stamped 0 to `d - 1` |
| Delay.TapElements | src/delay.rs:83 | the tap `buf[t]` reads the window's value stamped `t` |
| Delay.Feed | src/delay.rs:84 | the feedback push keeps the ring valid, advances the end by one, and on the full buffer advances the start too |
| Delay.Run | src/delay.rs:80-88 | one channel ticked at 0, 1, 2, …: after `n` ticks its window is `n .. n + d`, so the next tick's read is always inside it |
| Delay.StoredPrefix | src/delay.rs:83-84 | the value stored for a timestamp depends only on the inputs before it |
| Delay.RunContents | src/delay.rs:83-84 | after `n` ticks the buffer holds exactly the values stored for timestamps `n .. n + d` |
| Delay.DelayedRecurrence | src/delay.rs:83-84 | the delayed value read at tick `t` is 0 for `t < d`, and otherwise the input of tick `t - d` plus `feedback` times the value read then |
| Delay.PureDelay | src/delay.rs:83-87 | with feedback 0 and wetness 1 the output is the input delayed by `d` ticks, preceded by `d` zeros |
| Delay.ShrinkLeavesWindow | src/delay.rs:55-59 | `SetDelay` to a shorter delay moves the window's start past the next tick's time, so the next read indexes outside the window (a panic) |
| Delay.GrowKeepsDelay | src/delay.rs:55-59 | `SetDelay` to a longer delay keeps the window and its values, so the delay heard stays the old one |
| Delay.FeedChannels | src/delay.rs:81-88 | the channel loop: channel `i` reads its value stamped `t`, pushes back `s + feedback * delayed` and outputs the mix, touching no other channel |
| Delay.Delay.constructor | src/delay.rs:38-50 | every channel starts with `Silence(floor(delay * 44100))`, and feedback and wetness are stored |
| Delay.Delay.NumInputs | src/delay.rs:72-74 | the number of channels |
| Delay.Delay.NumOutputs | src/delay.rs:76-78 | equal to the number of inputs |
| Delay.Delay.HandleMessage | src/delay.rs:53-68 | `SetDelay` resizes every channel's buffer to the new sample count; `SetFeedback` and `SetWetness` change only their own field |
| Delay.Delay.Tick | src/delay.rs:80-88 | per channel, independently: the buffer gets `Feed` and the output is `wetness * delayed + (1 - wetness) * s`; reading outside the window panics, hence the precondition on `t` |
| Adsr.Next | src/adsr.rs:181-189 | Attack, Decay, Sustain, Release each step one place towards Silent, and Silent stays Silent |
| Adsr.ReachesSilent | src/adsr.rs:181-189 | from any state, `n` applications of `next` reach Silent exactly when `n` is at least the state's distance from Silent |
| Adsr.Initial | src/adsr.rs:47-67 | `new`: stage lengths in whole samples, sustain level stored, Silent with timer, stage length, level, delta and multiplier all 0 |
| Adsr.EnteredSpec | src/adsr.rs:75-109 | a state change sets the state, restarts the timer, sets the stage length to attack, decay, 0, release or 0 time, keeps the parameters; Sustain and Silent pin level to the sustain level or 0 and delta and multiplier to 0; the timed stages pass their length and goal to `compute_deltas` |
| Adsr.NotesRestart | src/adsr.rs:124-129 | NoteDown always enters Attack and NoteUp always enters Release, whatever the current state |
| Adsr.SettersOnlySetParams | src/adsr.rs:130-141 | SetAttack, SetDecay, SetSustain and SetRelease change only their parameter (times in whole samples), not the state, the timer or the stage length |
| Adsr.HandledInv | src/adsr.rs:122-143 | messages keep the envelope's invariant |
| Adsr.TickedState | src/adsr.rs:155-161 | a tick changes state exactly when the timer equals the stage length, and then to `next`; the timer then restarts at 1, and otherwise counts on |
| Adsr.TickedInv | src/adsr.rs:155-161 | ticks keep the envelope's invariant |
| Adsr.PastTimerAbsorbs | src/adsr.rs:157-161 | once the timer has passed the stage length, no tick changes the state again |
| Adsr.UntimedAbsorb | src/adsr.rs:157-161 | Sustain and Silent are absorbing under ticks |
| Adsr.StageRunsOut | src/adsr.rs:157-161 | a stage stays put for the ticks its timer has left, and the next tick enters `next` with the timer at 1 |
| Adsr.TickNSplit | src/adsr.rs:155-161 | `n + 1` ticks are `n` ticks followed by one |
| Adsr.AttackLength | src/adsr.rs:124-161 | after a note-on the envelope is in Attack for `attack_time` ticks and enters Decay on the next one |
| Adsr.ZeroDecayNeverEnds | src/adsr.rs:157-161 | a Decay entered by a tick with a decay length of 0 never ends, since its timer starts at 1 |
| Adsr.Apply | src/adsr.rs:168-170 | each output sample is its input sample times the level |
| Adsr.Adsr.constructor | src/adsr.rs:47-67 | the filter starts as `Initial`, with its channel count |
| Adsr.Adsr.Default | src/adsr.rs:70-72 | `new(0.05, 0.5, 0.5, 0.5, num_channels)` |
| Adsr.Adsr.NumInputs | src/adsr.rs:147-149 | the channel count |
| Adsr.Adsr.NumOutputs | src/adsr.rs:151-153 | the channel count |
| Adsr.Adsr.ComputeDeltas | src/adsr.rs:113-117 | only multiplier and delta change, to what the abstract level arithmetic gives for the stage length, the goal and the current level |
| Adsr.Adsr.HandleStateChange | src/adsr.rs:75-109 | the fields become `Entered(old state, to)` |
| Adsr.Adsr.HandleMessage | src/adsr.rs:122-143 | the fields become `Handled(old state, msg)`, and the invariant is kept |
| Adsr.Adsr.Tick | src/adsr.rs:155-171 | the fields become `Ticked(old state)` and the outputs are the inputs scaled by the updated level |
| VoiceArray.Initial | src/voice_array.rs:23-36 | `new`: every voice free in index order, nothing held or mapped, and the invariant holds |
| VoiceArray.VoicesRemove | src/voice_array.rs:90-98 | `remove_from_queue` removes the first pair of that voice, so the held queue's voices lose that voice |
| VoiceArray.RemoveVoiceMembers | src/voice_array.rs:90-98 | in a held queue without repeated voices, removal drops exactly the pairs of that voice |
| VoiceArray.CanAlwaysNoteOn | src/voice_array.rs:58-66 | with at least one voice, `note_on` never reaches the failing `unwrap` |
| VoiceArray.NoteOnChoice | src/voice_array.rs:49-75 | `note_on` lends the note's own voice while it is held (free queue unchanged), else the oldest free voice, else the oldest held voice with its old note unmapped; the lent voice ends newest in the held queue and the note maps to it |
| VoiceArray.NoteOnInv | src/voice_array.rs:49-75 | `note_on` keeps the invariant: every voice in exactly one queue, once, and the note map holding exactly the held pairs |
| VoiceArray.RetriggerInv | src/voice_array.rs:50-56 | retriggering a held note only moves its pair to the back of the held queue |
| VoiceArray.TakeFreeInv | src/voice_array.rs:58-60 | taking the oldest free voice moves it to the back of the held queue and keeps the invariant |
| VoiceArray.StealQueueInv | src/voice_array.rs:61-66 | stealing rotates the oldest held voice to the back, each voice still in exactly one queue |
| VoiceArray.StealMapInv | src/voice_array.rs:61-68 | stealing unmaps the oldest held note and maps the new one |
| VoiceArray.ReleasedInv | src/voice_array.rs:78-87 | releasing a held note keeps the invariant |
| VoiceArray.NoteOffSpec | src/voice_array.rs:78-87 | `note_off` of a held note unmaps it and frees its voice to the back of the free queue, returning that voice; of an unheld note, it returns `None` and changes nothing |
| VoiceArray.NoteOnThenOff | src/voice_array.rs:49-87 | releasing a note right after pressing it frees the voice it was given |
| VoiceArray.VoiceArray.constructor | src/voice_array.rs:23-36 | the allocator starts as `Initial(number of voices)` |
| VoiceArray.VoiceArray.NoteOn | src/voice_array.rs:49-75 | needs at least one voice (the `unwrap`); the state becomes `Pressed(old state, note)` and the index returned is a voice |
| VoiceArray.VoiceArray.NoteOff | src/voice_array.rs:78-87 | the state becomes `Released(old state, note)`, and a returned index is a voice |
| VoiceArray.VoiceArray.RemoveFromQueue | src/voice_array.rs:90-98 | the scan removes the first pair with that voice from the held queue and changes nothing else |
| InstrumentsVoiceArray.Initial | src/instruments/voice_array.rs:22-35 | `new`: the queue is 0 to n-1 in order and no note is mapped either way |
| InstrumentsVoiceArray.FirstPressAgrees | src/instruments/voice_array.rs:56-70 | the as-written and corrected `note_on` agree on a note that is not playing |
| InstrumentsVoiceArray.CanAlwaysNoteOn | src/instruments/voice_array.rs:58 | with at least one voice the queue is never empty, so the `unwrap` never fails |
| InstrumentsVoiceArray.TriggeredSpec | src/instruments/voice_array.rs:48-75 | corrected `note_on`: the queue stays a permutation of 0..n-1 and the maps inverse; the voice lent is the note's own while it plays, else the queue front, whose old note is unmapped; either way it goes to the back, mapped from the note both ways, and is below n |
| InstrumentsVoiceArray.TakeFrontMaps | src/instruments/voice_array.rs:58-68 | the new-note path keeps the two maps mutual inverses |
| InstrumentsVoiceArray.ReleasedSpec | src/instruments/voice_array.rs:78-88 | `note_off` of a mapped note unmaps it both ways and puts its voice at the front of the queue, returning it; of an unmapped note, `None` and no change; the invariant holds after either |
| InstrumentsVoiceArray.NoteOnThenOff | src/instruments/voice_array.rs:48-88 | releasing a note right after pressing it frees the voice it was given |
| InstrumentsVoiceArray.DoublePressLosesNote | src/instruments/voice_array.rs:49-55 | as written, pressing a new note twice leaves it unmapped while its voice still names it, so the maps are no longer inverse and the following `note_off` frees nothing |
| InstrumentsVoiceArray.VoiceArray.constructor | src/instruments/voice_array.rs:22-35 | the allocator starts as `Initial(number of voices)` |
| InstrumentsVoiceArray.VoiceArray.NoteOn | src/instruments/voice_array.rs:48-75 | needs at least one voice; the state becomes the corrected `Triggered(old state, note)`, and the index returned is a voice |
| InstrumentsVoiceArray.VoiceArray.NoteOff | src/instruments/voice_array.rs:78-88 | the state becomes `Released(old state, note)`, and a returned index is a voice |
| InstrumentsVoiceArray.VoiceArray.RemoveFromQueue | src/instruments/voice_array.rs:91-98 | removes the first occurrence of the voice from the queue and changes nothing else |
| ComponentsVoiceArray.VoiceArray.constructor | src/components/voice_array.rs:45-61 | adder input i reads voice i, every voice is queued in index order, no note is mapped, nothing is delivered yet |
| ComponentsVoiceArray.VoiceArray.HandleEvent | src/components/voice_array.rs:68-76 | a note-on reaches exactly the one voice the corrected allocation picks, a note-off reaches the voice playing the note or none, any other event reaches every voice in index order; the allocation invariant is kept |
| ComponentsVoiceArray.VoiceArray.HandleNoteOn | src/components/voice_array.rs:79-106 | with at least one voice, the allocation becomes `Triggered(old allocation, note)` (retrigger keeps the note mapped) and the chosen voice alone receives the event |
| ComponentsVoiceArray.VoiceArray.HandleNoteOff | src/components/voice_array.rs:109-119 | the allocation becomes `Released(old allocation, note)`; the released voice receives the event, and an unmapped note reaches no voice |
| ComponentsVoiceArray.VoiceArray.HandleOtherEvent | src/components/voice_array.rs:122-126 | every voice receives the event once, in index order, and the allocation is unchanged |
| ComponentsVoiceArray.VoiceArray.RemoveFromQueue | src/components/voice_array.rs:129-136 | removes the first occurrence of the voice from the queue and leaves the maps and deliveries alone |
| ComponentsVoiceArray.VoiceArray.Tick | src/components/voice_array.rs:140-145 | ticks every voice once in index order and then the adder, leaving the allocation unchanged |
| CoreComponentsVoiceArray.Initial | src/core/components/voice_array.rs:47-62 | `new`: all voices queued in index order and the note map empty, which satisfies the invariant |
| CoreComponentsVoiceArray.PickedSpec | src/core/components/voice_array.rs:78-88 | with at least one voice `handle_note_on` can always pick (no `unwrap` panic); the pick is a voice, the map is never changed, and an unmapped note gets the front voice, rotated to the back of the queue |
| CoreComponentsVoiceArray.UnmappedSpec | src/core/components/voice_array.rs:90-95 | `handle_note_off` reports a voice exactly when the note was mapped, leaves the queue alone and the note unmapped |
| CoreComponentsVoiceArray.Step | src/core/components/voice_array.rs:78-95 | a key event keeps the invariant and never adds a note to the map |
| CoreComponentsVoiceArray.Replay | src/core/components/voice_array.rs:69-75 | any run of key events keeps the invariant |
| CoreComponentsVoiceArray.NeverMapped | src/core/components/voice_array.rs:40 | nothing ever inserts into the note map: from an empty map it stays empty after any run of events |
| CoreComponentsVoiceArray.NoteOffReachesNoVoice | src/core/components/voice_array.rs:90-95 | consequently a note-off after any run of events from `new` reaches no voice, although the type's comment promises that it stops the voice handling the note |
| CoreComponentsVoiceArray.PickedAndMappedSpec | src/core/components/voice_array.rs:78-88 | the note-on the doc intends takes the same voice and leaves the same queue as the note-on as written, keeps the invariant, and maps the note to that voice |
| CoreComponentsVoiceArray.NoteOnThenOffReaches | src/core/components/voice_array.rs:26-28 | with that mapping, a note-off right after a note-on reaches the voice that took the note and unmaps it |
| CoreComponentsVoiceArray.VoiceArray.constructor | src/core/components/voice_array.rs:47-62 | starts as `Initial(number of voices)`, adder input i reading voice i, nothing delivered |
| CoreComponentsVoiceArray.VoiceArray.HandleEvent | src/core/components/voice_array.rs:69-75 | note-on to the picked voice, note-off to the mapped voice or none, anything else to every voice in index order; the invariant is kept |
| CoreComponentsVoiceArray.VoiceArray.HandleNoteOn | src/core/components/voice_array.rs:78-88 | the state becomes `Picked(old state, note)` and only the picked voice receives the event |
| CoreComponentsVoiceArray.VoiceArray.HandleNoteOnMapping | src/core/components/voice_array.rs:78-88 | the documented note-on: the state becomes `PickedAndMapped(old state, note)` and only the picked voice receives the event |
| CoreComponentsVoiceArray.VoiceArray.HandleNoteOff | src/core/components/voice_array.rs:90-95 | the state becomes `Unmapped(old state, note)` and the mapped voice, if any, receives the event |
| CoreComponentsVoiceArray.VoiceArray.HandleOtherEvent | src/core/components/voice_array.rs:97-101 | every voice receives the event once, in index order, with the state unchanged |
| CoreComponentsVoiceArray.VoiceArray.Tick | src/core/components/voice_array.rs:105-110 | every voice ticks once in index order, then the adder; the state is unchanged |
| Bits.SwapNetworkIsReverse32 | src/utils/fft.rs:165-170 | the five mask-and-shift steps reverse the whole word: the value of the result is the value of the input with its 32 bits in reverse order |
| Bits.WordOf | src/utils/fft.rs:63 | every index below `2^32` is the value of a word, the `u32` the cast `i as u32` gives |
| UtilsFft.BitReverse | src/utils/fft.rs:164-172 | `bit_reverse(n, bits)` runs the network on the word `n` and shifts the result right by `32 - bits`; that is the 32-bit reversal of `n` shifted right, and for `bits == 0` the full reversal |
| UtilsFft.BitReverseIsLowReverse | src/utils/fft.rs:164-172 | for 1 to 32 bits, `bit_reverse(n, bits)` is the low `bits` bits of `n` in reverse order and fits in `bits` bits |
| UtilsFft.BitReverseInvolution | src/utils/fft.rs:164-172 | reversing a value below `2^bits` twice gives it back |
| UtilsFft.LowReverseExamples | src/utils/fft.rs:215-223 | the low-bit cases of the unit test: 0b0001 reverses to 0b1000 in four bits and 0b1111 to itself |
| UtilsFft.Log2UpSpec | src/utils/fft.rs:176-184 | `int_log(n)` is the base-2 logarithm of `n` rounded up for `n >= 1`; for 0 the `u32` subtraction wraps and the answer is 32 |
| UtilsFft.Log2UpExamples | src/utils/fft.rs:202-211 | the cases of the unit test, from `int_log(1) == 0` to `int_log(32) == 5` |
| UtilsFft.IntLog | src/utils/fft.rs:176-184 | the halving loop of `int_log` (the same code as src/oxcable/core/fft.rs lines 123-131) returns the rounded-up logarithm |
| UtilsFft.ComputeEntry | src/utils/fft.rs:63 | the table entry `bit_reverse(i as u32, int_log(bufsize as u32))` for an index of a power-of-two size is the reversal of its low `log2(bufsize)` bits |
| UtilsFft.AsWrittenPanics | src/utils/fft.rs:62-65 | with the table as written (one entry per point asked for), a transform panics exactly when the size asked for is not a power of two or the input is longer than it, so the promised zero padding and truncation never happen for other sizes |
| UtilsFft.ThreePointsPanic | src/utils/fft.rs:62-65 | a transformer asked for 3 points has size 4 and panics even on empty input |
| UtilsFft.AsWrittenAgrees | src/utils/fft.rs:62-65 | for a power-of-two size the table as written is the full one |
| UtilsFft.InvolutiveIsPermutation | src/utils/fft.rs:114-124 | a table that maps `0..n-1` into itself and undoes itself is a permutation of `0..n-1` |
| UtilsFft.TableInvolutive | src/utils/fft.rs:61-65 | the full table of up to `2^32` entries is an involution, hence a permutation, of the indices below the rounded-up size |
| UtilsFft.New | src/utils/fft.rs:55-80 | `new(size)`: the size is rounded up to the next power of two, the table has an entry for every index below it, and twiddle k stands for the k-th power of the root of unity |
| UtilsFft.NewIsReady | src/utils/fft.rs:55-80 | up to `2^32` points, what `new` builds is ready for transforms: a power-of-two size, an involutive table and one twiddle per point |
| UtilsFft.PermutedTwice | src/utils/fft.rs:114-124 | putting values in bit-reversed order twice gives them back |
| UtilsFft.PermutedPlaces | src/utils/fft.rs:115 | value j lands at position `table[j]` and nowhere else |
| UtilsFft.CopyIn | src/utils/fft.rs:114-124 | the first `size` places of the output receive the input, conjugated for an inverse transform and zero-padded, in bit-reversed order; the places above are untouched. For an input longer than `size` it keeps the first `size` values, the truncation the documentation promises, where the source's loop indexes past the table and panics |
| UtilsFft.PairInRange | src/utils/fft.rs:130-138 | every pair a pass visits has `ilo < ihi < size` and a twiddle index below `size / 2` |
| UtilsFft.PairCovers | src/utils/fft.rs:130-134 | every index below `size` is visited by some pair of the pass |
| UtilsFft.PairsDisjoint | src/utils/fft.rs:133-134 | no index is visited by two pairs of a pass, and none is both a lower and an upper index |
| UtilsFft.StageSpecAt | src/utils/fft.rs:132-143 | in a pass, pair i of a block sends its lower value to the first result of the butterfly of its two values and twiddle, and its upper value to the second |
| UtilsFft.ButterflyBlock | src/utils/fft.rs:132-143 | the inner loop over the pairs of one block writes the block's butterflies and changes nothing outside it |
| UtilsFft.CombinePair | src/utils/fft.rs:133-142 | one pair reads its two values and writes back the butterfly of the two, finishing that pair only |
| UtilsFft.PassAt | src/utils/fft.rs:130-143 | a whole pass over blocks of n points: pair i of block `set` is combined with twiddle entry `size/n * i`, and its two results land at `ilo` and `ihi` |
| UtilsFft.RunPass | src/utils/fft.rs:130-144 | one pass over blocks of n points, block by block, computes the pass on the first `size` places and leaves the rest alone |
| UtilsFft.OffsetFills | src/utils/fft.rs:130 | the blocks of a pass end exactly at the end of the buffer |
| UtilsFft.RunPasses | src/utils/fft.rs:127-148 | the doubling loop runs one pass per block size from 2 to `size`, giving the staged result on the first `size` places |
| UtilsFft.Finish | src/utils/fft.rs:151-155 | the last step of an inverse transform conjugates and normalises every value; a forward transform leaves them alone |
| UtilsFft.Normalise | src/utils/fft.rs:151-155 | the first `size` places are each conjugated and normalised, the rest untouched |
| UtilsFft.Transform | src/utils/fft.rs:86-156 | `fft` and `ifft`: with an output of at least `size` places and an input of at most `size` values, the first `size` places receive the spectrum (copy, passes, finish) and the rest is untouched |
| CoreFft.ReverseWord | src/oxcable/core/fft.rs:113-121 | the mask-and-shift network moves bit `31 - j` of the word to bit j, for every j |
| CoreFft.ReverseWordValue | src/oxcable/core/fft.rs:113-121 | the value of the reversed word is the value of the word with its 32 bits in reverse order |
| CoreFft.ReverseWordInvolution | src/oxcable/core/fft.rs:113-121 | reversing a word twice gives it back |
| CoreFft.ReverseWordExamples | src/oxcable/core/fft.rs:157-163 | the five cases of the unit test, among them 0x234f9e01 reversing to 0x8079f2c4 |
| CoreFft.ShiftedEntry | src/oxcable/core/fft.rs:26-27 | the full reversal widened and shifted right by `32 - int_log(bufsize)` is the reversal of the index's low `int_log(bufsize)` bits; for a single point it is 0 |
| CoreFft.EntriesAsWritten | src/oxcable/core/fft.rs:24-28 | the table as written is the first `size` entries of the full table of the rounded-up size |
| CoreFft.ShortTablePanics | src/oxcable/core/fft.rs:65-75 | with the table as written, the copy runs past the end of the table exactly when the size asked for is not a power of two or the input is longer than it |
| CoreFft.NewTransformer | src/oxcable/core/fft.rs:18-40 | `new(size)` with the full table: size rounded up to a power of two, one entry per point, twiddle k for the k-th power of the root of unity; up to `2^32` points, ready for transforms |
| CoreFft.EntryTable | src/oxcable/core/fft.rs:25-28 | the table loop fills entry j with the shifted reversal of j, for every index below the rounded-up size |
| CoreFft.ComputeShiftedEntry | src/oxcable/core/fft.rs:26-27 | one table entry, `bit_reverse(i as u32) as uint >> (32 - int_log(bufsize as u32))` computed with the network, is entry i of the table |
| CoreFft.Transform | src/oxcable/core/fft.rs:46-109 | `fft` and `ifft`: `Err` exactly when the output is shorter than `size`, and then nothing is written; otherwise `Ok`, with the spectrum in the first `size` places and the rest untouched |
| CoreFft.ShortOutputRejected | src/oxcable/core/fft.rs:270-284 | an 8-point transformer rejects a 7-place output buffer |
| Channel.Channel.constructor | src/components/channel.rs:22-24 | a new channel is at time 0 and holds the default value |
| Channel.Channel.Get | src/components/channel.rs:30-36 | a frame is returned exactly for the latest time `next_t - 1`, which wraps to `2^64 - 1` before the first push, and it is the stored frame (the same code as src/core/components/channel.rs lines 32-38) |
| Channel.Channel.Push | src/components/channel.rs:40-43 | after a push the frame is what `get` returns for the time it was pushed at, and every other time gives nothing |
| Channel.ChannelRef.constructor | src/components/channel.rs:54-58 | a reference to a fresh channel at time 0 |
| Channel.ChannelRef.Clone | src/components/channel.rs:48 | a clone is a new reference to the same channel |
| Channel.ChannelRef.Share | src/components/channel.rs:48-51 | a reference to the given channel |
| Channel.ChannelRef.Get | src/components/channel.rs:61-63 | reading through a reference reads the shared channel |
| Channel.ChannelRef.Push | src/components/channel.rs:66-68 | pushing through a reference pushes to the shared channel |
| Channel.PushSeenThroughClone | src/components/channel.rs:47-68 | a frame pushed through a clone is read back through the original reference |
| IoArray.OutputArray.constructor | src/components/io_array.rs:21-27 | `num_channels` distinct fresh channels, each at time 0 |
| IoArray.OutputArray.Get | src/components/io_array.rs:41-43 | the frame of channel i for time t is that channel's; an index out of range panics |
| IoArray.OutputArray.Push | src/components/io_array.rs:47-49 | pushes the next frame of channel i, readable at its time, and leaves every other channel unchanged |
| IoArray.InputArray.constructor | src/components/io_array.rs:63-69 | `num_channels` empty slots |
| IoArray.InputArray.SetChannel | src/components/io_array.rs:77-79 | slot i now reads from the given channel, the other slots are kept |
| IoArray.InputArray.RemoveChannel | src/components/io_array.rs:82-84 | slot i is emptied and reads nothing at any time, the other slots are kept |
| IoArray.InputArray.Get | src/components/io_array.rs:91-96 | nothing from an empty slot, otherwise what the bound channel holds for t |
| CoreIoArray.OutputArray.constructor | src/core/components/io_array.rs:28-34 | `num_channels` distinct fresh shared channels, each at time 0 |
| CoreIoArray.OutputArray.GetChannel | src/core/components/io_array.rs:42-44 | the reference handed out is the array's own channel, not a copy |
| CoreIoArray.OutputArray.Get | src/core/components/io_array.rs:47-49 | the frame of channel i for time t is that channel's |
| CoreIoArray.OutputArray.Push | src/core/components/io_array.rs:52-54 | pushes the next frame of channel i, readable at its time, and leaves every other channel unchanged |
| CoreIoArray.InputArray.constructor | src/core/components/io_array.rs:69-75 | `num_channels` empty slots |
| CoreIoArray.InputArray.SetChannel | src/core/components/io_array.rs:83-85 | slot i now reads from the given channel, the other slots are kept |
| CoreIoArray.InputArray.RemoveChannel | src/core/components/io_array.rs:88-90 | slot i is emptied and reads nothing at any time, the other slots are kept |
| CoreIoArray.InputArray.Get | src/core/components/io_array.rs:96-101 | nothing from an empty slot, otherwise what the bound channel holds for t |
| CoreIoArray.InputArray.Samples | src/mixers/adder.rs:33-35 | every slot read at t, with a missing frame replaced by the default, as the mixers' `unwrap_or(0.0)` does |
| CoreIoArray.WireAndPush | src/core/components/io_array.rs:42-101 | once an input slot is bound to an output channel, a frame pushed to that channel is what the slot reads at the frame's time |
| CoreIoElements.OutputElement.constructor | src/core/components/io_elements.rs:21-23 | a fresh shared channel at time 0 |
| CoreIoElements.OutputElement.GetChannel | src/core/components/io_elements.rs:26-28 | the reference handed out is the element's own channel |
| CoreIoElements.OutputElement.Get | src/core/components/io_elements.rs:31-33 | the channel's frame for t |
| CoreIoElements.OutputElement.Push | src/core/components/io_elements.rs:36-38 | the pushed frame is what `get` returns for its time |
| CoreIoElements.InputElement.constructor | src/core/components/io_elements.rs:50-52 | no channel, so nothing is read at any time |
| CoreIoElements.InputElement.SetChannel | src/core/components/io_elements.rs:55-57 | the element reads from the given channel at every time |
| CoreIoElements.InputElement.RemoveChannel | src/core/components/io_elements.rs:60-62 | the element has no channel and reads nothing at any time |
| CoreIoElements.InputElement.Get | src/core/components/io_elements.rs:68-73 | nothing without a channel, otherwise the channel's frame for t |
| Multiplexer.Multiplexer.constructor | src/mixers/multiplexer.rs:22-29 | `num_inputs` input slots, one fresh output channel, input 0 selected |
| Multiplexer.Multiplexer.SelectInput | src/mixers/multiplexer.rs:34-41 | `Ok` and input i selected exactly when i is an input; otherwise `Err` and the selection kept |
| Multiplexer.Multiplexer.Tick | src/mixers/multiplexer.rs:45-48 | pushes one frame: the selected input's frame for t, or 0 when it has none |
| Adder.SumWithout | src/mixers/adder.rs:34 | an input whose frame is missing contributes 0, which takes its value out of the sum |
| Adder.Adder.constructor | src/mixers/adder.rs:21-27 | `num_inputs` empty input slots and one fresh output channel |
| Adder.Adder.Tick | src/mixers/adder.rs:31-37 | pushes exactly one frame, the sum of every input's frame for t with a missing frame counted as 0 |
| Multiplier.ProductWithZero | src/mixers/multiplier.rs:34 | one missing input (a zero factor) silences the product |
| Multiplier.Multiplier.constructor | src/mixers/multiplier.rs:21-27 | `num_inputs` empty input slots and one fresh output channel |
| Multiplier.Multiplier.Tick | src/mixers/multiplier.rs:31-37 | pushes exactly one frame, the product of every input's frame for t with a missing frame counted as 0 (1 with no inputs) |
| Gain.Gain.constructor | src/mixers/gain.rs:27-34 | `num_channels` inputs and outputs; the ratio is the converted decibel gain, computed once |
| Gain.Gain.Tick | src/mixers/gain.rs:38-43 | every output i receives exactly one frame, the ratio times what input i reads just before output i is pushed (0 if missing); an input bound to an earlier output sees this tick's frame there, and when no input reads an output every input gives its frame for t from before the tick |
| Gain.UnaliasedReads | src/mixers/gain.rs:38-43 | when no input is bound to one of the gain's outputs, each input reads what it held before the tick, whatever the order of reads and pushes |
| NoiseGate.GateRunSnoc | src/dynamics/noise_gate.rs:58-67 | one more channel's reading extends the run of flags by the flag that reading produces |
| NoiseGate.FlipsOnlyOutsideBand | src/dynamics/noise_gate.rs:63-67 | the shared flag falls only at a level below the off threshold and rises only at a level above the on threshold (the hysteresis promised at lines 29-31) |
| NoiseGate.BandKeepsState | src/dynamics/noise_gate.rs:63-67 | levels that stay between the thresholds never move the flag |
| NoiseGate.ComputeNextLevel | src/dynamics/noise_gate.rs:62 | the detector hears the sample, and the level it reports is its response to everything heard so far |
| NoiseGate.NoiseGate.constructor | src/dynamics/noise_gate.rs:35-53 | a closed gate with thresholds and gain converted from decibels once, one detector per channel that has heard nothing, empty inputs and fresh outputs |
| NoiseGate.NoiseGate.Tick | src/dynamics/noise_gate.rs:57-76 | each channel's detector hears its input (0 when missing); the one flag is updated channel by channel; output k is the gained input while the flag after channel k is up and 0 otherwise, pushed once |
| NoiseGate.NoiseGate.GateFrame | src/dynamics/noise_gate.rs:58-75 | the channel loop on values: every detector hears exactly its own sample, the final flag is the last of the run, and each frame is gated by the flag after its own channel |
| Errors.FromByteOrder | src/error.rs:43-50 | a byte-order read error becomes `InvalidFile` exactly when it is the unexpected end of data; an I/O failure stays that I/O failure |
| Errors.DescriptionByVariant | src/error.rs:77-89 | two errors have the same description exactly when they are of the same variant, whatever they carry |
| Errors.DescriptionsDiffer | src/error.rs:79-87 | the nine description texts are pairwise different |
| Errors.CauseSpec | src/error.rs:91-98 | `cause` is present exactly for the errors that wrap a foreign error, and then it is that error |
| Errors.ConversionsKeepCause | src/error.rs:43-68 | every `From` conversion keeps the foreign error as the cause, except the unexpected end of data, which becomes `InvalidFile` with none |
| Wav.Wrap32 | src/io/wav.rs:191 | reduction to 32 bits leaves a value that fits unchanged |
| Wav.Wrap16 | src/io/wav.rs:199 | reduction to 16 bits leaves a value that fits unchanged |
| Wav.NewHeaderFields | src/io/wav.rs:188-204 | when nothing overflows, `WavHeader::new` gives RIFF size = data size + 36, byte rate = rate x 2 bytes x channels, block = 2 bytes x channels, PCM, 16 bits, fmt size 16 |
| Wav.CheckAsWrittenSpec | src/io/wav.rs:241-277 | `check` accepts a header, unchanged, exactly when its magics and sizes agree and it is 16-bit PCM at 44100 Hz; a malformed header is `InvalidFile` whatever its format, a well-formed one in another format is `Unsupported` |
| Wav.ZeroChannelsPass | src/io/wav.rs:241-277 | as written, a well-formed header announcing no channels passes `check`, after which the reader divides by that zero channel count (line 38-39) |
| Wav.CheckSpec | src/io/wav.rs:241-277 | the corrected check accepts exactly the well-formed supported headers with at least one channel, keeps the as-written answer for every header with channels, and then the header is readable |
| Wav.NewHeaderPasses | src/io/wav.rs:114-117 | a header the writer makes for the library's rate with at least one channel passes the check |
| Wav.Le32RoundTrip | src/io/wav.rs:208-220 | a 32-bit word written little-endian reads back as itself |
| Wav.Le16RoundTrip | src/io/wav.rs:208-220 | a 16-bit word written little-endian reads back as itself |
| Wav.Encode | src/io/wav.rs:280-294 | the header is written as exactly 44 bytes |
| Wav.U32Back | src/io/wav.rs:208 | a 32-bit word is read back from wherever it was written in a byte stream |
| Wav.U16Back | src/io/wav.rs:213 | a 16-bit word is read back from wherever it was written in a byte stream |
| Wav.ParseEncode | src/io/wav.rs:207-235 | reading the 44 bytes `write_to_file` emits, whatever follows, gives back every field of the header |
| Wav.TruncatedIsInvalid | src/io/wav.rs:207-220 | a file shorter than a header runs out of bytes, which converts to `InvalidFile` |
| Wav.ReadWritten | src/io/wav.rs:207-294 | reading a written header back returns what the corrected check (`Wav.Check`, which also rejects zero channels) returns on that header |
| Wav.TestHeaderBytes | src/io/wav.rs:305-310 | a two-channel header with 4 data bytes encodes to the first 44 bytes of the tests' header |
| Wav.TestHeaderFields | src/io/wav.rs:313-319 | that header has 16-bit depth, 4 data bytes and 2 channels, with RIFF size 40, byte rate 176400 and block size 4 |
| Wav.TestWords | src/io/wav.rs:305-310 | the little-endian bytes of each field of the tests' header |
| Wav.SampleBytes | src/io/wav.rs:153 | a 16-bit sample is written as two bytes |
| Wav.SampleRoundTrip | src/io/wav.rs:76 | a sample written as two's-complement little-endian bytes reads back as itself |
| Wav.ReadFrame | src/io/wav.rs:74-83 | a frame read at a position is, channel by channel, the converted sample stored two bytes further each time |
| Wav.FrameBytes | src/io/wav.rs:152-155 | a frame is written as two bytes per sample |
| Wav.ReadFrameBytes | src/io/wav.rs:73-83 | reading back a written frame gives each sample quantized |
| Wav.WavReader.FromHeader | src/io/wav.rs:34-43 | a reader after a checked header: its channel count, its sample count `data_size / 2 / channels`, nothing read, positioned at byte 44 |
| Wav.WavReader.Restart | src/io/wav.rs:58-61 | back to the first sample at byte 44, so the reader is not done exactly when the file has samples |
| Wav.WavReader.Tick | src/io/wav.rs:73-85 | while samples remain, the outputs are the next frame read from the file and the position moves by a frame; afterwards the outputs are silence and the position stays; the count of ticks grows by one either way |
| Wav.PosStep | src/io/wav.rs:74-84 | one more tick moves the read position by a frame exactly while samples remain |
| Wav.OpenReader | src/io/wav.rs:34-43 | `WavReader::new` with the corrected check: the header's error when reading or checking it fails; otherwise a reader positioned after it with the header's channel and sample counts |
| Wav.WavWriter.constructor | src/io/wav.rs:114-123 | a writer whose file holds the header for its channel count (cut to 16 bits) with data size 0, and no samples |
| Wav.WavWriter.Tick | src/io/wav.rs:151-157 | appends each input as one little-endian sample, in order, and counts one more frame; the header is untouched |
| Wav.WavWriter.Drop | src/io/wav.rs:127-139 | rewrites the data size `samples x channels x 2` and the file size 36 more, computed in 64 bits and cut to 32, and nothing else |
| Wav.DropPatchesOffsets | src/io/wav.rs:131-138 | rewriting the two sizes changes only bytes 4-7 and 40-43 of the file |
| Wav.DroppedFileReads | src/io/wav.rs:347-359 | a file whose writer was dropped after s frames, with no size overflowing, reads back: its header passes the corrected check, announces exactly the data bytes written, and a reader over it counts s samples |
| Wav.DroppedSizes | src/io/wav.rs:129-130 | when they fit in 32 bits, the sizes `drop` writes are twice the samples written and that plus 36 |
| Midi.BendValueOf7Bit | src/io/midi.rs:157 | for 7-bit data bytes the bend value is the 14-bit `data2 * 128 + data1`, between 0 and 0x3FFF |
| Midi.Decode | src/io/midi.rs:142-177 | the event's channel is below 16 and its time is the time passed in |
| Midi.DecodeKinds | src/io/midi.rs:144-174 | the channel is the low nibble of the status byte; the high nibble alone decides the kind, each of 8 to 14 naming one kind (controller 64 of kind 11 being the sustain pedal), and every other status gives `Other` carrying the three bytes |
| Midi.DecodeNotes | src/io/midi.rs:146-155 | note messages carry the first data byte as the note and the second divided by 127 as the velocity; a note-on of velocity 0 stays a note-on |
| Midi.DecodeSustain | src/io/midi.rs:167-168 | the sustain pedal is down exactly when its value is at least 64 |
| Midi.LevelRange | src/io/midi.rs:148 | for a 7-bit data byte the scaled level lies in [0, 1], reaching 1 exactly at 127 |
| Midi.BendRange | src/io/midi.rs:156-161 | for 7-bit data bytes the bend lies in [-1, 1) and is 0 exactly at the centre value 0x2000 |
| Midi.DecodeAll | src/io/midi.rs:126-137 | one event per message read, in order, each decoded at the same time |
| Midi.Port.constructor | src/io/midi.rs:106-116 | an open port whose pending messages are the ones that arrived |
| Midi.Port.Read | src/io/midi.rs:129-132 | the oldest pending message, removed, or `None` once none is pending |
| Midi.MidiIn.constructor | src/io/midi.rs:106-116 | an input reading from the given port |
| Midi.MidiIn.GetEvents | src/io/midi.rs:126-137 | reads until the port reports no message and returns every pending message decoded with the given time, in order, leaving none pending |
| MockDevice.Step | src/testing/mock_audio_device.rs:61-78 | a tick succeeds exactly when an expectation is left, the input equals the expected one and the expected outputs fit the buffer, and then counts one tick; a tick beyond the expectations or with a wrong input marks the mock failed; an output index out of range changes nothing |
| MockDevice.Run | src/testing/mock_audio_device.rs:61-78 | a run of ticks keeps the bookkeeping consistent |
| MockDevice.RunExpected | src/testing/mock_audio_device.rs:61-78 | feeding the expected inputs in order succeeds at every tick and counts each one |
| MockDevice.DropAfterExpected | src/testing/mock_audio_device.rs:46-55 | a fresh mock ticked with all its expected inputs in order is dropped quietly; ticked with only some of them (`test_too_few_ticks`), its drop panics |
| MockDevice.ExtraTickFails | src/testing/mock_audio_device.rs:62-67 | a tick beyond the expected ones (`test_too_many_ticks`) panics and marks the mock failed, so its drop stays quiet |
| MockDevice.FailedStaysQuiet | src/testing/mock_audio_device.rs:48-49 | once failed, the mock never panics on drop, whatever ticks follow |
| MockDevice.MockAudioDevice.constructor | src/testing/mock_audio_device.rs:25-35 | a mock with the given name and channel counts, no expectations, not ticked, not failed |
| MockDevice.MockAudioDevice.WillTick | src/testing/mock_audio_device.rs:38-43 | appends one expected input and one expected output, changing nothing else |
| MockDevice.MockAudioDevice.Tick | src/testing/mock_audio_device.rs:61-78 | the outcome and the new bookkeeping are those of `Step`; on success the expected outputs fill the leading slots of the buffer and the rest is kept; a wrong or extra tick writes nothing |
| MockDevice.MockAudioDevice.DropPanics | src/testing/mock_audio_device.rs:47-54 | dropping panics exactly when the mock has not failed, no panic is unwinding, and the tick count differs from the expected one |
| MockDevice.TwoExpectedTicks | src/testing/mock_audio_device.rs:87-98 | `test_success`: two expected ticks write 1.0 and then 3.0, and the drop is quiet |
| Wrappers.Buffered.From | src/wrappers/buffered.rs:28-37 | the wrapper holds the device, a silent input buffer of its input count and a silent output buffer of its output count (the same as src/wrappers.rs lines 30-40) |
| Wrappers.Buffered.Tick | src/wrappers/buffered.rs:22-24 | one tick of the device on the wrapper's own buffers: the outputs become the device's response to the inputs at `t`, the inputs are never written, and both buffers keep their lengths (the same as src/wrappers.rs lines 23-28) |
| Wrappers.Buffered.Deref | src/wrappers/buffered.rs:39-50 | both dereferences give the wrapped device itself (the same as src/wrappers.rs lines 42-53) |
| Wrappers.BufferedOutput.From | src/wrappers/buffered_output.rs:47-55 | the wrapper holds the device and a silent output buffer of its output count |
| Wrappers.BufferedOutput.Tick | src/wrappers/buffered_output.rs:42-44 | one tick with the caller's inputs: the wrapper's outputs become the device's response and keep their length |
| Wrappers.BufferedOutput.Deref | src/wrappers/buffered_output.rs:57-68 | both dereferences give the wrapped device itself |
| Wrappers.IdentityCopies | src/wrappers/buffered_output.rs:19-21 | the identity device of the doc example writes its input sample, whatever it heard before |
| Wrappers.IdentityExample | src/wrappers/buffered_output.rs:13-32 | the doc example: ticking the wrapped identity device at each time with that time as input leaves the same sample in the output every time |
| Rooms.LongestTap | src/reverb/moorer_reverb.rs:42-45 | the reverberator's set-up succeeds exactly when there is one gain per tapped delay and at least one tap; for increasing delays the last one it takes is the longest |
| Rooms.HallAsWrittenRejected | src/reverb/rooms.rs:26-36 | the hall as listed has 17 delays and 18 gains, so the reverberator's assertion fails, and its ninth gain (192) amplifies |
| Rooms.Hall | src/reverb/rooms.rs:26-36 | the corrected hall has one gain per delay, increasing positive delays, a non-empty increasing comb list and only attenuating gains; its longest tap is 3515 samples |
| Device.Emit | src/types.rs:60-66 | a device writes exactly its output count of samples on every tick |
| Device.AudioDevice.Tick | src/types.rs:64-66 | one tick writes the device's response to its past calls and the current frame, and records the call |
| Types.SecondsToSamples | src/delay.rs:41 | the saturating float-to-unsigned cast of a duration times the sample rate: 0 for non-positive products, the largest 64-bit value for products of `2^64` or more, otherwise the product rounded toward zero |

## Left out

- Floating-point DSP is not part of this model. This covers oscillators, filters, the compressor, the limiter, the level detector's arithmetic, windows, complex numbers, the decibel conversions and the envelope's `compute_deltas`. Each of these appears as a parameter or as an abstract function on `real`.
- FFT arithmetic: the butterflies, the twiddle factors, the conjugation and the normalisation of an inverse transform are parameters. The model states which places each butterfly combines and with which twiddle index, not the complex values.
- `src/reverb/moorer_reverb.rs` is not part of this model beyond its set-up's check on the room (`Rooms.LongestTap`). Its arithmetic is floating point, and it calls a ring buffer `add` that the ring buffer here does not define.
- `tick_forever` (src/tick.rs:27-31, src/utils/tick.rs:16-20) never returns, and a non-terminating loop is not modelled. Any prefix of it is `tick_n_times`, which is modelled.
- The Enter-key thread, the message channel and the `AtomicBool` of `tick_until_enter` and `loop_until_enter` are not modelled. The answer each check between blocks receives is an oracle `stopped(k)`.
- Hardware and OS I/O is not part of this model: the PortAudio devices (`src/io/audio.rs`, `microphone.rs`, `speaker.rs`), `src/core/init.rs`, and the `MidiEngine` open, default-input and choose-input code with its stdin menu (src/io/midi.rs:26-81).
- Midi.MidiIn.GetEvents: the PortMidi read call is an oracle stream of raw messages. The panic on a read error is not modelled.
- WAV files are in-memory byte sequences with a read position. OS I/O errors other than running out of bytes are not modelled. The conversions between samples and 16-bit integers are parameters.
- Thread messaging is not modelled: `Messaged` in src/wrappers.rs, `src/wrappers/messaged.rs` and `src/core/components/messages.rs`.
- `src/instruments/subtractive_synth.rs`, `src/bin/*` and `scripts/*` are not part of this model.
- `IoArray`: the output array's `get_channel` (src/components/io_array.rs:35-37) calls a `get_reader` that the channel type does not define, so it is not modelled. The reference-counted arrays in `CoreIoArray` model channel sharing.
- `UtilsRingBuffer`: `zipped_iter` and the iterators' `count` are not modelled separately. They are the two iterators zipped, and their lengths, which `Iter.Collect`, `IterTimes.Collect` and `SizeHint` state. `capacity()` is the class's `capacity` field.
- UtilsFft.Transform requires the input to be no longer than the transformer's size. Both FFT versions index past the bit-reversal table and panic on a longer input, although their doc promises truncation, and that panic is not modelled as an outcome. `UtilsFft.CopyIn` on its own does implement the documented truncation; `Transform` never hands it a longer input.
- Wav.OpenReader: it reads the header through the corrected `Wav.Check` (see the Findings row for src/io/wav.rs:241-277). On a well-formed 16-bit PCM 44100 Hz header with zero channels, it returns `Err(InvalidFile)` where `WavReader::new` passes `check` and then divides by zero (src/io/wav.rs:38-39).
- Adder and NoiseGate: src/mixers/adder.rs:6 and src/dynamics/noise_gate.rs:8 use `core::channel::{InputChannelArray, OutputChannelArray}` with `get_sample` and `push_sample`. That module is not part of this model; both devices are modelled over the reference-counted arrays of `CoreIoArray` (src/core/components/io_array.rs), whose `get` and `push` play those roles.
- Delay.Delay.Tick requires the time read to lie in the buffers' window, which is where the source's indexing does not panic. After a `SetDelay` that shrinks the delay, the next tick's read falls outside the window, and that panic is not modelled as an outcome.
- Delay.Silence: `RingBuffer::from(&init[..])` (src/delay.rs:46) has no definition in src/utils/ringbuffer.rs. The model assumes a full buffer of capacity `d` whose frames are the slice's values stamped 0 to `d - 1`, which is what the ring buffer's `new` followed by `d` pushes gives.
- NoiseGate.NoiseGate.Tick reads every input before pushing any output, while the source reads and pushes channel by channel. The two agree because the gate may not read its own outputs (a precondition).
- Wrappers: `deref_mut` gives the same device object as `deref`. Changes made through it are ordinary changes to that object.
- MockDevice: the texts of the panic messages are not modelled, only when a panic happens. The drop message prints the expected and actual counts in swapped places.
- Channel.Channel.Get: `next_t - 1` wraps at 64 bits, as in a release build. A debug build would panic on a channel never pushed to.
- Time is an unbounded `nat`, so the 64-bit wrap of `next_t += 1` and `time += 1` in the chain, the graph, the manager and the channel is not modelled. Those counters would wrap only after `2^64` ticks. Only `Channel.Get`'s `next_t - 1` keeps its 64-bit wrap.
- Graph.DeviceGraph.AddEdge: it sorts with the corrected sweep (`Graph.TopologicalOrder`, the corrected member of the Findings row for src/graph.rs:140-158), not the one-removal sweep at src/graph.rs:140-158. So on the fan-in wiring of `Graph.FanIn` (node 0 with one output, node 1 with two inputs), `AddEdge(0, 0, 1, 0)` then `AddEdge(0, 0, 1, 1)` returns Ok in the model, where the source returns `CreatesCycle` on the second call and empties input 1 of node 1 (`Graph.FanInRejected` states the source's half). Only the error path is as written: when an edge closes a cycle, its input slot is reset to empty (src/graph.rs:165-171), although the doc (src/graph.rs:87-89) promises no change. `Graph.DeviceGraph.AddEdgeKeepingGraph` is the version the doc describes (see Findings).
- CoreComponentsVoiceArray: the note-to-voice map is never filled, so a note-off reaches no voice, although the doc (src/core/components/voice_array.rs:26-28) promises it stops the voice handling the note. `HandleEvent` is modelled as written; `CoreComponentsVoiceArray.VoiceArray.HandleNoteOnMapping` is the note-on the doc describes (see Findings).
- The declarations in `src/types.rs` and the `mod.rs` files are used only as definitions. Ticks start at `t = 0`, as the current `AudioDevice` trait says.

## Findings

| source | as written | input that shows it | evidently intended | confidence | as-written member | corrected member |
|---|---|---|---|---|---|---|
| src/utils/ringbuffer.rs:88-90 | `clear` moves `start_t` to `end_t` but keeps `buf` and `start_i` | a full buffer, cleared, then pushed: the push takes the eviction branch and moves both ends, so the window stays empty. On a half-full buffer, the pushed timestamp reads an old value | after `clear` nothing is readable and the next push is | high, not executed | UtilsRingBuffer.ClearAsWrittenLosesPush | UtilsRingBuffer.ClearThenPush |
| src/instruments/voice_array.rs:49-55 | the retrigger branch removes the note from `note_to_voice` and never puts it back (the same at src/components/voice_array.rs:80-85) | the same note pressed twice: the second press leaves the note unmapped while its voice still names it, and the following `note_off` frees nothing | a retriggered note keeps its voice and stays mapped both ways | high, not executed | InstrumentsVoiceArray.DoublePressLosesNote | InstrumentsVoiceArray.TriggeredSpec |
| src/graph.rs:140-158 | each freed output removes at most one matching input per node | a node with two inputs wired to the same source channel: the second input is never removed, so the acyclic graph is rejected as a cycle | every edge from a placed node is removed, and an acyclic graph is always accepted | high, not executed | Graph.FanInRejected | Graph.TopologicalOrder |
| src/reverb/rooms.rs:29-32 | the hall lists 17 tapped delays and 18 gains, and its ninth gain is 192 | `hall()` passed to the reverberator: its assertion that the counts match fails | one gain per delay, each below 1 | medium, not executed | Rooms.HallAsWrittenRejected | Rooms.Hall |
| src/utils/fft.rs:61-65 | the bit-reversal table gets one entry per requested point, not per rounded-up point | `Transformer::new(3)` then any transform: the zero padding indexes the 4-entry range of a 3-entry table | one entry for every point of the rounded-up size | high, not executed | UtilsFft.ThreePointsPanic | UtilsFft.New |
| src/oxcable/core/fft.rs:24-28 | the same short table in the older transformer | a size that is not a power of two: the padding slice runs past the table | one entry for every point of the rounded-up size | high, not executed | CoreFft.ShortTablePanics | CoreFft.NewTransformer |
| src/io/wav.rs:241-277 | `check` accepts a header with zero channels | a well-formed 16-bit PCM 44100 Hz header with `num_channels == 0`: it passes `check`, and the reader divides by zero (src/io/wav.rs:38-39) | a header without channels is rejected as invalid | medium, not executed | Wav.ZeroChannelsPass | Wav.CheckSpec |
| src/graph.rs:165-171 | on a cycle, `topological_sort` sets the new edge's slot to `None` rather than back to what it held | a source node and a pass-through node reading it; wiring the pass-through's input to its own output is refused as a cycle, and the input that read the source is gone | an error leaves the graph unchanged (src/graph.rs:87-89) | high, not executed | Graph.CycleErrorClearsSlot | Graph.DeviceGraph.AddEdgeKeepingGraph |
| src/core/components/voice_array.rs:78-88 | `handle_note_on` never inserts into `note_to_voice` | from `new`, any note pressed and then released: the release finds no mapping and reaches no voice | a note-off stops the voice that handled the note (src/core/components/voice_array.rs:26-28) | high, not executed | CoreComponentsVoiceArray.NoteOffReachesNoVoice | CoreComponentsVoiceArray.NoteOnThenOffReaches |
