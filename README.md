# soundbridge core in Dafny

This project models the core of soundbridge, a bridge that takes samples
from a producer and sends them to a sound card, resampling them on the way:

- **The ring buffer of fifo.py.** Writes that run past its capacity
  overwrite old data. It counts its available samples from two cursors and
  an `is_full` flag.
- **The glue of soundbridge.py:**
  - `push_samples` writes a chunk into the FIFO.
  - `_read_fifo` is the resampler's input callback. It never returns an
    empty chunk.
  - `_output_callback` pads the resampled frame with zeros, runs it through
    the current output processor and writes it into the device buffer.
  - There are two output processors: a pass-through that scales by gain and
    volume, and a frequency-modulating one that carries its modulation phase
    from frame to frame.

Samples are Dafny `real`, an exact idealisation of numpy's floats.

The modules, in dependency order:

- `Modular`: facts about Euclidean `%` used by the index arithmetic.
  For the positive moduli used here, it agrees with Python's `%`.
- `Ring`: the buffer as a value (`RingState`).
  - Each operation is a function of the old state: `Init`, `Write`, `Read`,
    `CountAvailable`, `Unread`.
  - Lemmas state what these operations do to the unread contents.
- `Fifo`: the class `FIFO` over an `array<real>`.
  - `Write` and `Read` change the fields exactly as `Ring.Write` and
    `Ring.Read` say.
  - The storage loop in `Store` is proved against `Ring.Stamp`.
- `Samples`: scaling, sums, running sums and zero padding of sample
  sequences.
- `Processors`: the classes `OutputProcessor` and `FMOutputProcessor`,
  their transforms as functions, and the phase-continuity lemmas.
- `Bridge`: the class `Soundbridge` with its FIFO and current processor.
  `Pull` is the value form of the input callback.

`fifo.py`'s `write` stores the chunk with numpy's fancy assignment
`buf[ind] = data`. When the chunk is longer than the buffer, several
elements land on the same slot. The model writes this as a loop over the
chunk in order, so the later element stays (see "## Left out").

Writes whose lengths add up to exactly the capacity do not leave that many
samples available. The flag is raised only by a single chunk of at least
the capacity (fifo.py:48-50). So several writes that exactly fill a buffer
whose flag is down leave the cursors coinciding with the flag down, and
`num_available` (fifo.py:84-86) reports 0 (`Ring.ExactFillReadsEmpty`,
`Ring.TwoSlotExactFill`, `Bridge.ExactFillPullsSilence`). Likewise, a
partial overrun, a short write that overtakes the read cursor, changes
neither the read cursor nor the flag. No lemma claims that the count
equals the number of unread samples in general.

## Model

| member | source | states |
|---|---|---|
| `Ring.CountAvailable` | fifo.py:82-87 | the count is in [0, size], takes the read cursor to the write cursor mod size, and is 0 exactly when the cursors coincide with the flag down and size exactly when they coincide with the flag up |
| `Ring.Init` | fifo.py:30-34 | a new buffer has every slot 0.0, nothing available and no unread samples |
| `Ring.Write` | fifo.py:44-50 | a write keeps the state well formed (cursors inside the buffer) and the buffer size fixed |
| `Ring.Read` | fifo.py:70-80 | a read never changes the storage or the write cursor; it underflows exactly when more is asked than is available, an underflow carries the requested and available counts and leaves the state unchanged, a zero-size read returns nothing and leaves the state unchanged, and a successful read returns exactly `size` values |
| `Ring.Stamp` | fifo.py:44-45 | the element-by-element store keeps the buffer's length; which slot holds what is stated by `Ring.StampRecent` and `Ring.StampUntouched` |
| `Ring.StampRecent` | fifo.py:44-45 | when a chunk wraps around, each of its last size elements stays in the slot it was written to (later elements overwrite earlier ones) |
| `Ring.StampUntouched` | fifo.py:44-45 | a slot at an offset of the chunk's length or more past the write cursor keeps its old value |
| `Ring.WriteShort` | fifo.py:44-46 | a chunk shorter than the buffer moves the write cursor to (old + n) mod size, leaves the read cursor and flag alone, puts data[i] at slot (old + i) mod size and changes no other slot |
| `Ring.WriteOverrun` | fifo.py:44-50 | a chunk of at least the buffer's size puts the read cursor on the new write cursor and raises the flag, so all size slots are available and they hold the chunk's last size elements in order |
| `Ring.WriteAppends` | fifo.py:36-50 | a write that stays below capacity appends the chunk to the unread samples and raises the count by its length |
| `Ring.CountAdvance` | fifo.py:82-87 | moving the write cursor on by m, short of a full turn, raises the count by exactly m, whatever the flag |
| `Ring.CountRetreat` | fifo.py:76-79 | moving the read cursor on by at most the count, with the flag cleared when the cursors meet, lowers the count by exactly that much |
| `Ring.ExactFillReadsEmpty` | fifo.py:48-50 | a short write that exactly fills a buffer whose flag is down leaves nothing available |
| `Ring.ReadConsumes` | fifo.py:76-80 | a successful read returns the oldest `size` unread samples in order and moves the read cursor by size mod size; the flag stays up only if it was up and the cursors do not now coincide; the count drops by size and the rest stays unread |
| `Ring.ReadAllDrains` | fifo.py:70-80 | reading the available count returns all unread samples and empties the buffer |
| `Ring.WriteThenRead` | fifo.py:36-80 | round trip: a chunk of length 1..size written into an empty buffer is read back unchanged, and the buffer is then empty |
| `Ring.EightSlotOverrun` | fifo.py:44-80 | writing 1..10 into an eight-slot buffer makes 8 available, and reading 8 returns 3..10 |
| `Ring.TwoSlotExactFill` | fifo.py:44-50 | writing [1.0] and then [2.0] into a new two-slot buffer leaves nothing available |
| `Fifo.FIFO.constructor` | fifo.py:30-34 | a new FIFO has zeroed slots, both cursors at 0, the flag down and nothing available |
| `Fifo.FIFO.NumAvailable` | fifo.py:82-87 | reads only the cursors and the flag; the count is at most the size and tells empty from full by the flag when the cursors coincide |
| `Fifo.FIFO.Write` | fifo.py:36-50 | the fields change exactly as `Ring.Write`: the new write cursor, the slot-by-slot store, and for an overrun the moved read cursor, the raised flag and the last size elements unread |
| `Fifo.FIFO.Store` | fifo.py:44-45 | the element-by-element store leaves the storage equal to `Ring.Stamp` of the old storage |
| `Fifo.FIFO.Read` | fifo.py:52-80 | the fields change exactly as `Ring.Read`; an underflow exactly when size exceeds the count (nothing changes); an empty result for size 0; otherwise the oldest unread samples, the advanced cursor, the flag rule and the reduced count |
| `Samples.Scale` | soundbridge.py:40 | numpy's scalar times array: the same length, and element i is k times sample i |
| `Samples.ScaleConcat` | soundbridge.py:40 | scaling distributes over concatenation |
| `Samples.SumConcat` | soundbridge.py:71 | the sum of a concatenation is the sum of its parts |
| `Samples.CumSum` | soundbridge.py:71 | element i of the running sum is the sum of the first i + 1 samples |
| `Samples.Pad` | soundbridge.py:126 | padding yields exactly `frames` samples: the input followed by zeros |
| `Processors.PassThrough` | soundbridge.py:38-40 | the output has the input's length and element i is volume times gain times sample i |
| `Processors.DefaultIsIdentity` | soundbridge.py:16-18 | with the default gain and volume of 1.0 the pass-through processor is the identity |
| `Processors.PassThroughSplit` | soundbridge.py:38-40 | the pass-through processor keeps no state: a frame processed in two pieces gives the same output as processed whole |
| `Processors.OutputProcessor.Process` | soundbridge.py:38-40 | the processor's output has the frame's length and element i is the output volume times the input gain times sample i |
| `Processors.FmPhases` | soundbridge.py:66-71 | the modulation phase of sample i is the carried phase plus 2π times the sum of the first i + 1 scaled samples over the rate |
| `Processors.NextPhase` | soundbridge.py:70-73 | the phase carried out of a frame differs from the one carried in exactly when the gain-scaled frame has a non-zero sum |
| `Processors.FmOutput` | soundbridge.py:67-72 | the output has one sample per phase, and sample i is the volume times cos of 2π times the carrier times its time dacTime + i / samplerate, plus its modulation phase |
| `Processors.FmFrame` | soundbridge.py:66-74 | the modulating output of a frame has the frame's length, and sample i is the volume times cos of the carrier phase at dacTime + i / samplerate plus the carried phase plus 2π times the sum of the first i + 1 gain-scaled samples over the rate |
| `Processors.NextPhaseConcat` | soundbridge.py:70-73 | the phase after two frames is the phase after the first, carried through the second |
| `Processors.CarriedPhaseSplit` | soundbridge.py:66-73 | two consecutive calls carry the same final phase as one call on the concatenated frame |
| `Processors.FmPhasesSplit` | soundbridge.py:70-71 | the phases of a split frame are those of the first piece followed by those of the second, started from the carried phase |
| `Processors.FmOutputSplit` | soundbridge.py:67-72 | the output for split phases is that of the first piece followed by that of the second, played from the time the first piece ended |
| `Processors.FmFrameSplit` | soundbridge.py:66-74 | phase continuity: processing a frame in two consecutive calls gives the same output as one call. The second call starts from the carried phase, at the time `later` when the first frame ended |
| `Processors.OutputProcessor.constructor` | soundbridge.py:16-18 | the gain and volume are the given values, 1.0 by default |
| `Processors.FMOutputProcessor.constructor` | soundbridge.py:48-51 | gain, volume and carrier frequency as given (1.0, 1.0, 500 by default) and a carried phase of 0 |
| `Processors.FMOutputProcessor.Process` | soundbridge.py:62-74 | a non-empty frame yields the modulated output of the frame from the carried phase; the carried phase becomes the old phase plus 2π times the sum of the gain-scaled frame over the rate; nothing else in the processor changes |
| `Bridge.Pull` | soundbridge.py:111-117 | the input callback never yields an empty chunk: an empty buffer gives [0] and is left unchanged; otherwise it returns all unread samples and leaves nothing available |
| `Bridge.PushThenPull` | soundbridge.py:107-117 | a chunk shorter than the buffer, pushed into an empty buffer, comes out whole at the next pull and leaves the buffer empty |
| `Bridge.OverrunThenPull` | soundbridge.py:107-117 | after a chunk of at least the buffer's size the next pull returns its last size samples |
| `Bridge.ExactFillPullsSilence` | soundbridge.py:107-117 | two pushes that exactly fill a two-slot buffer are lost: the next pull yields the lone zero |
| `Bridge.Soundbridge.constructor` | soundbridge.py:81-96 | a new bridge has an empty FIFO of `bufsize` slots (4096 by default), the ratio output rate over input rate, and a fresh default pass-through processor |
| `Bridge.Soundbridge.SetOutputProcessor` | soundbridge.py:103-105 | the setter installs the given processor |
| `Bridge.Soundbridge.PushSamples` | soundbridge.py:107-109 | pushing has exactly the effect of `FIFO.write` on the FIFO and touches nothing else |
| `Bridge.Soundbridge.ReadFifo` | soundbridge.py:111-117 | the FIFO changes as `Pull` says: a non-empty chunk; [0] with the FIFO unchanged when nothing is available, otherwise all unread samples with nothing left available; never an underflow |
| `Bridge.Soundbridge.OutputCallback` | soundbridge.py:119-128 | the device buffer receives exactly `frames` samples. With the pass-through processor they are the padded frame scaled by volume and gain, zero beyond the resampled samples. With the modulating processor they are its output for the padded frame, computed from the gain, volume, carrier and phase held before the call; its carried phase advances by that frame and its gain, volume and carrier do not change. The padding, processing and copy after the resampler's read leave the FIFO alone |

## Left out

- Audio device plumbing is not modelled: `sd.OutputStream`, `sd.query_devices`, `start`, `stop`, `__enter__` and `__exit__`. The output sample rate is therefore a required constructor argument; the device query behind its default is left out.
- The resampler (`sr.CallbackResampler`) is a foreign library and is not modelled. `Bridge.Soundbridge.OutputCallback` takes its output for one callback as the parameter `resampled`. The only fact used is that it has at most `frames` samples. `Bridge.Soundbridge.ReadFifo` models the callback the resampler pulls from.
- Threading between the producer and the driver callback is not modelled; the operations are sequential.
- Floating-point rounding is not modelled: samples and phases are exact reals. 2π is the constant `TWO_PI`. No proof depends on its value beyond its being non-zero, which `Processors.NextPhase`'s contract uses.
- The cosine and the driver's `outputBufferDacTime` are transcendental numerics on a value the driver supplies. They are parameters (`cos`, `dacTime`) of the modulating processor, so no property of the cosine is used.
- The `status` argument of the output callback and the keyword arguments of `process` do not affect the modelled behaviour and are not parameters.
- `Soundbridge._last_fmphase` (soundbridge.py:95) is set in the constructor and never read, so it is not modelled.
- `UnderflowError` is the `Underflow` case of `Ring.ReadResult`, not an exception. Its message text is not modelled.
- The `dtype` argument of the FIFO is not modelled; the storage holds reals.
- The property getters and setters of the processors are plain fields, assigned directly.
- `Fifo.FIFO.Read`: the request is a `nat`, so the source's failure for a negative request is not modelled. At fifo.py:76-77, `np.arange` of a negative count is empty and `ind[-1]` raises IndexError. Within the core, the only caller passes the positive available count (soundbridge.py:117).
- `Fifo.FIFO.Write`: requires a non-empty chunk, because the source fails at `ind[-1]` (fifo.py:46) on an empty one.
- `Fifo.FIFO.constructor`: requires a size of at least 1. The source does construct a zero-size FIFO, but every later use of it fails. `write` raises an IndexError at fifo.py:45, since numpy's `% 0` on the index array yields zeros. `num_available` raises ZeroDivisionError at fifo.py:84 on Python integers. So the model does not represent that object; `Bridge.Soundbridge.constructor` requires `0 < bufsize` for the same reason.
- `Bridge.Soundbridge.constructor`: requires non-zero sample rates. Python raises ZeroDivisionError for a zero input rate at soundbridge.py:89. The output rate divides in the modulating processor, and Dafny's real division is not defined at zero.
- `Fifo.FIFO.Store`: the model takes the LAST of several chunk elements that land on one slot. numpy's documentation does not promise which of repeated indices in an advanced assignment wins. In practice the last one does, and that is what the overrun policy at fifo.py:47-50 expects (the buffer holds the most recent size samples).
- `Processors.FMOutputProcessor.Process`: requires a non-empty frame, since `fmphase[-1]` fails on an empty one, and a non-zero sample rate, because Dafny's real division is not defined at zero.
- `Bridge.Soundbridge.OutputCallback`: requires the device buffer not to be the FIFO's storage, which the source never passes. It also requires the device buffer to hold exactly `frames` samples and the resampler to yield at most `frames`. `np.pad` with a negative width fails, so the source relies on both. It also requires at least one frame when the modulating processor is installed, for the same `fmphase[-1]` reason. Its contract starts after the resampler's `read(frames)` (soundbridge.py:125). That read may call `_read_fifo` any number of times, and each such call drains the FIFO. The model treats those pulls as separate `Bridge.Soundbridge.ReadFifo` calls made before the callback, so the callback's own contract keeps the FIFO unchanged and does not describe that drain.
- The processors are the two classes of the source. The setter accepts only these two, not any object with a `process` method.
