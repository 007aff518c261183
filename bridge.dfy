/** The Soundbridge class of soundbridge.py: a FIFO the producer pushes into,
    the input callback the resampler pulls chunks from, and the output
    callback that pads a resampled frame and runs it through the current
    output processor into the device's buffer. */
module Bridge {
  import Ring
  import Fifo
  import opened Samples
  import opened Processors

  /** The input callback on the buffer's value: a lone zero sample when
      nothing is available, all available samples otherwise. */
  function Pull(s: Ring.RingState): (res: (seq<real>, Ring.RingState))
    requires s.Valid()
    ensures res.1.Valid() && res.1.buf == s.buf
    ensures 0 < |res.0|
    ensures Ring.Available(s) == 0 ==> res == ([0.0], s)
    ensures Ring.Available(s) > 0 ==> res.0 == Ring.Unread(s) && Ring.Available(res.1) == 0
  {
    var k := Ring.Available(s);
    if k == 0 then ([0.0], s)
    else
      Ring.ReadAllDrains(s);
      (Ring.Read(s, k).0.values, Ring.Read(s, k).1)
  }

  /** A chunk pushed into an empty buffer that it does not overfill comes
      out whole, in order, at the next pull, and leaves the buffer empty. */
  lemma PushThenPull(s: Ring.RingState, data: seq<real>)
    requires s.Valid() && Ring.Available(s) == 0 && 0 < |data| < |s.buf|
    ensures Pull(Ring.Write(s, data)).0 == data
    ensures Ring.Available(Pull(Ring.Write(s, data)).1) == 0
  {
    Ring.WriteAppends(s, data);
    assert Ring.Unread(s) == [];
  }

  /** A chunk at least as long as the buffer leaves only its last |buf|
      samples for the next pull. */
  lemma OverrunThenPull(s: Ring.RingState, data: seq<real>)
    requires s.Valid() && |data| >= |s.buf|
    ensures Pull(Ring.Write(s, data)).0 == data[|data| - |s.buf|..]
  {
    Ring.WriteOverrun(s, data);
  }

  /** Two pushes into an empty two-slot buffer that together exactly fill
      it are lost: the next pull sees an empty buffer and yields silence. */
  lemma ExactFillPullsSilence()
    ensures Pull(Ring.Write(Ring.Write(Ring.Init(2), [1.0]), [2.0])).0 == [0.0]
  {
    Ring.TwoSlotExactFill();
  }

  /** The output processor a Soundbridge dispatches to. */
  datatype Processor = Plain(plain: OutputProcessor) | Modulating(fm: FMOutputProcessor)

  class Soundbridge {
    const outputSamplerate: real
    /** The resampling ratio, output rate over input rate, handed to the
        resampler. */
    const ratio: real
    const fifo: Fifo.FIFO
    var outputProcessor: Processor

    ghost predicate Valid()
      reads this, fifo
    {
      fifo.Valid() && outputSamplerate != 0.0
    }

    /** The objects the output callback may change: the processor's phase
        when it modulates, nothing else. */
    ghost function ProcessorState(): set<object>
      reads this
    {
      if outputProcessor.Modulating? then {outputProcessor.fm} else {}
    }

    /** A bridge with an empty FIFO of `bufsize` slots, the resampling ratio
        output over input rate, and the pass-through processor at its
        defaults. */
    constructor (inputSamplerate: real, outputSamplerate: real, bufsize: nat := 4096)
      requires inputSamplerate != 0.0 && outputSamplerate != 0.0 && 0 < bufsize
      ensures Valid() && fresh(fifo) && fresh(fifo.buf)
      ensures this.outputSamplerate == outputSamplerate && ratio == outputSamplerate / inputSamplerate
      ensures fifo.State() == Ring.Init(bufsize) && fifo.NumAvailable() == 0
      ensures outputProcessor.Plain? && fresh(outputProcessor.plain)
      ensures outputProcessor.plain.inputGain == 1.0 && outputProcessor.plain.outputVolume == 1.0
    {
      this.outputSamplerate := outputSamplerate;
      fifo := new Fifo.FIFO(bufsize);
      ratio := outputSamplerate / inputSamplerate;
      var p := new OutputProcessor();
      outputProcessor := Plain(p);
    }

    /** Replaces the output processor; the FIFO is untouched. */
    method SetOutputProcessor(p: Processor)
      requires Valid()
      modifies this`outputProcessor
      ensures Valid() && outputProcessor == p
    {
      outputProcessor := p;
    }

    /** Pushes a non-empty chunk into the FIFO. */
    method PushSamples(samples: seq<real>)
      requires Valid() && 0 < |samples|
      modifies fifo, fifo.buf
      ensures Valid() && fifo.State() == Ring.Write(old(fifo.State()), samples)
    {
      fifo.Write(samples);
    }

    /** The resampler's input callback: never an empty chunk, so the
        resampler always makes progress. */
    method ReadFifo() returns (chunk: seq<real>)
      requires Valid()
      modifies fifo
      ensures Valid() && (chunk, fifo.State()) == Pull(old(fifo.State()))
      ensures 0 < |chunk|
      ensures old(fifo.NumAvailable()) == 0 ==> chunk == [0.0] && fifo.State() == old(fifo.State())
      ensures old(fifo.NumAvailable()) > 0 ==> chunk == old(fifo.Unread()) && fifo.NumAvailable() == 0
    {
      var frames := fifo.NumAvailable();
      if frames == 0 {
        return [0.0];
      }
      var res := fifo.Read(frames);
      chunk := res.values;
    }

    /** The output callback: the `resampled` samples the resampler yields
        for `frames` output frames, padded with zeros to `frames`, run
        through the output processor at the output rate and played from
        `dacTime`, fill the device buffer `outdata`.  The pulls the resampler
        makes from the FIFO while producing `resampled` are `ReadFifo` calls
        made before this one. */
    method OutputCallback(outdata: array<real>, frames: nat, resampled: seq<real>, dacTime: real,
                          cos: real -> real)
      requires Valid() && outdata.Length == frames && |resampled| <= frames && outdata != fifo.buf
      requires outputProcessor.Modulating? ==> 0 < frames
      modifies outdata, ProcessorState()
      ensures Valid() && fifo.State() == old(fifo.State())
      ensures outputProcessor.Plain? ==>
        && outdata[..] == PassThrough(outputProcessor.plain.inputGain, outputProcessor.plain.outputVolume,
                                      Pad(resampled, frames))
        && forall i :: |resampled| <= i < frames ==> outdata[i] == 0.0
      ensures outputProcessor.Modulating? ==>
        var fm := outputProcessor.fm;
        && fm.inputGain == old(fm.inputGain) && fm.outputVolume == old(fm.outputVolume)
        && fm.carrierFrequency == old(fm.carrierFrequency)
        && outdata[..] == FmFrame(old(fm.inputGain), old(fm.outputVolume), old(fm.carrierFrequency),
                                  old(fm.lastFmPhase), Pad(resampled, frames), outputSamplerate, dacTime, cos)
        && fm.lastFmPhase == NextPhase(old(fm.lastFmPhase), Scale(old(fm.inputGain), Pad(resampled, frames)),
                                       outputSamplerate)
    {
      var samples := Pad(resampled, frames);
      var processed: seq<real>;
      match outputProcessor {
        case Plain(p) =>
          processed := p.Process(samples);
        case Modulating(fm) =>
          processed := fm.Process(samples, outputSamplerate, dacTime, cos);
      }
      forall i | 0 <= i < frames {
        outdata[i] := processed[i];
      }
      assert outdata[..] == processed;
    }
  }
}
