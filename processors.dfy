/** The output processors of soundbridge.py: a pass-through processor that
    scales by gain and volume, and a frequency-modulating one that carries
    its modulation phase from frame to frame. */
module Processors {
  import opened Samples

  /** The value of numpy's `2 * np.pi`; the proofs use nothing about it. */
  const TWO_PI: real := 6.283185307179586

  /** The pass-through transform: every sample times the output volume
      times the input gain. */
  function PassThrough(gain: real, volume: real, samples: seq<real>): (out: seq<real>)
    ensures |out| == |samples|
    ensures forall i :: 0 <= i < |samples| ==> out[i] == volume * gain * samples[i]
  {
    Scale(volume * gain, samples)
  }

  /** With gain and volume at their defaults of 1.0 the pass-through
      transform returns its input unchanged. */
  lemma DefaultIsIdentity(samples: seq<real>)
    ensures PassThrough(1.0, 1.0, samples) == samples
  {
    ScaleOne(samples);
  }

  /** The pass-through transform keeps no state: processing a frame in two
      pieces gives the same samples as processing it whole. */
  lemma {:induction false} PassThroughSplit(gain: real, volume: real, a: seq<real>, b: seq<real>)
    ensures PassThrough(gain, volume, a + b) == PassThrough(gain, volume, a) + PassThrough(gain, volume, b)
  {
    ScaleConcat(volume * gain, a, b);
  }

  /** Pass-through processor: multiplies by the input gain and the output
      volume, both 1.0 unless given. */
  class OutputProcessor {
    var inputGain: real
    var outputVolume: real

    constructor (inputGain: real := 1.0, outputVolume: real := 1.0)
      ensures this.inputGain == inputGain && this.outputVolume == outputVolume
    {
      this.inputGain := inputGain;
      this.outputVolume := outputVolume;
    }

    /** The frame scaled by volume times gain.  The sample rate and keyword
        arguments soundbridge.py passes are ignored by this processor, so they
        are not parameters here. */
    function Process(samples: seq<real>): (out: seq<real>)
      reads this
      ensures |out| == |samples|
      ensures forall i :: 0 <= i < |samples| ==> out[i] == outputVolume * inputGain * samples[i]
    {
      PassThrough(inputGain, outputVolume, samples)
    }
  }

  /** The modulation phase after a frame of already gain-scaled samples: the
      running integral of the samples, 2π times their sum over the rate,
      added to the phase carried in. */
  function NextPhase(last: real, scaled: seq<real>, samplerate: real): (r: real)
    requires samplerate != 0.0
    ensures r == last <==> Sum(scaled) == 0.0
  {
    last + TWO_PI * Sum(scaled) / samplerate
  }

  /** The per-sample modulation phase of a frame: the carried phase plus 2π
      times the running sum over the rate. */
  function FmPhases(last: real, scaled: seq<real>, samplerate: real): (p: seq<real>)
    requires samplerate != 0.0
    ensures |p| == |scaled|
    ensures forall i :: 0 <= i < |scaled| ==> p[i] == NextPhase(last, scaled[..i + 1], samplerate)
  {
    var c := CumSum(scaled);
    seq(|scaled|, i requires 0 <= i < |scaled| => last + TWO_PI * c[i] / samplerate)
  }

  /** One modulated sample played at time `at`: volume times the cosine of
      carrier phase plus modulation phase. */
  function FmSample(volume: real, carrier: real, at: real, fmphase: real, cos: real -> real): real
  {
    volume * cos(TWO_PI * carrier * at + fmphase)
  }

  /** The modulated output of a frame with the given modulation phases, sample
      i being played at `dacTime + i / samplerate`.  The cosine is a parameter:
      numpy's floating-point `cos` is not modelled. */
  function FmOutput(volume: real, carrier: real, dacTime: real, samplerate: real,
                    fmphase: seq<real>, cos: real -> real): (out: seq<real>)
    requires samplerate != 0.0
    ensures |out| == |fmphase|
    ensures forall i :: 0 <= i < |fmphase| ==>
      out[i] == FmSample(volume, carrier, dacTime + (i as real) / samplerate, fmphase[i], cos)
  {
    seq(|fmphase|, i requires 0 <= i < |fmphase| =>
      FmSample(volume, carrier, dacTime + (i as real) / samplerate, fmphase[i], cos))
  }

  /** The whole output of one frame of the frequency-modulating processor. */
  function FmFrame(gain: real, volume: real, carrier: real, last: real, samples: seq<real>,
                   samplerate: real, dacTime: real, cos: real -> real): (out: seq<real>)
    requires samplerate != 0.0
    ensures |out| == |samples|
    ensures forall i :: 0 <= i < |samples| ==>
      out[i] == FmSample(volume, carrier, dacTime + (i as real) / samplerate,
                         NextPhase(last, Scale(gain, samples)[..i + 1], samplerate), cos)
  {
    FmOutput(volume, carrier, dacTime, samplerate, FmPhases(last, Scale(gain, samples), samplerate), cos)
  }

  /** Carrying the phase across a frame boundary: the phase after two frames
      is the phase after the first, carried through the second. */
  lemma {:induction false} NextPhaseConcat(last: real, a: seq<real>, b: seq<real>, samplerate: real)
    requires samplerate != 0.0
    ensures NextPhase(last, a + b, samplerate) == NextPhase(NextPhase(last, a, samplerate), b, samplerate)
  {
    SumConcat(a, b);
    assert TWO_PI * (Sum(a) + Sum(b)) == TWO_PI * Sum(a) + TWO_PI * Sum(b);
    DivAdd(TWO_PI * Sum(a), TWO_PI * Sum(b), samplerate);
  }

  /** Two consecutive calls of the frequency-modulating processor carry the
      same final phase as one call on the concatenated frame. */
  lemma {:induction false} CarriedPhaseSplit(gain: real, last: real, a: seq<real>, b: seq<real>, samplerate: real)
    requires samplerate != 0.0
    ensures NextPhase(NextPhase(last, Scale(gain, a), samplerate), Scale(gain, b), samplerate)
         == NextPhase(last, Scale(gain, a + b), samplerate)
  {
    ScaleConcat(gain, a, b);
    NextPhaseConcat(last, Scale(gain, a), Scale(gain, b), samplerate);
  }

  /** The modulation phases of a frame split in two are those of the first
      piece followed by those of the second started from the carried phase. */
  lemma {:induction false} FmPhasesSplit(last: real, a: seq<real>, b: seq<real>, samplerate: real)
    requires samplerate != 0.0
    ensures FmPhases(last, a + b, samplerate)
         == FmPhases(last, a, samplerate) + FmPhases(NextPhase(last, a, samplerate), b, samplerate)
  {
    var l := FmPhases(last, a + b, samplerate);
    var r := FmPhases(last, a, samplerate) + FmPhases(NextPhase(last, a, samplerate), b, samplerate);
    forall i | 0 <= i < |a + b| ensures l[i] == r[i] {
      if i < |a| {
        assert (a + b)[..i + 1] == a[..i + 1];
      } else {
        var j := i - |a|;
        assert (a + b)[..i + 1] == a + b[..j + 1];
        NextPhaseConcat(last, a, b[..j + 1], samplerate);
      }
    }
  }

  /** Division by the sample rate distributes over a sum. */
  lemma DivAdd(x: real, y: real, d: real)
    requires d != 0.0
    ensures (x + y) / d == x / d + y / d
  {
  }

  /** The output of a frame split in two is that of the first piece followed
      by that of the second played from the time the first piece ended. */
  lemma {:induction false} FmOutputSplit(volume: real, carrier: real, dacTime: real, later: real,
                                         samplerate: real, p: seq<real>, q: seq<real>, cos: real -> real)
    requires samplerate != 0.0 && later == dacTime + (|p| as real) / samplerate
    ensures FmOutput(volume, carrier, dacTime, samplerate, p + q, cos)
         == FmOutput(volume, carrier, dacTime, samplerate, p, cos)
          + FmOutput(volume, carrier, later, samplerate, q, cos)
  {
    var l := FmOutput(volume, carrier, dacTime, samplerate, p + q, cos);
    var r1 := FmOutput(volume, carrier, dacTime, samplerate, p, cos);
    var r2 := FmOutput(volume, carrier, later, samplerate, q, cos);
    forall i | 0 <= i < |p + q| ensures l[i] == (r1 + r2)[i] {
      if i < |p| {
        assert (p + q)[i] == p[i];
      } else {
        var j := i - |p|;
        assert (p + q)[i] == q[j];
        assert (i as real) == (|p| as real) + (j as real);
        DivAdd(|p| as real, j as real, samplerate);
        assert dacTime + (i as real) / samplerate == later + (j as real) / samplerate;
      }
    }
  }

  /** The modulation phases of a whole frame, split at any point. */
  lemma {:induction false} FmFramePhasesSplit(gain: real, volume: real, carrier: real, last: real,
                                              a: seq<real>, b: seq<real>, samplerate: real, dacTime: real,
                                              cos: real -> real)
    requires samplerate != 0.0
    ensures FmFrame(gain, volume, carrier, last, a + b, samplerate, dacTime, cos)
         == FmOutput(volume, carrier, dacTime, samplerate,
                     FmPhases(last, Scale(gain, a), samplerate)
                   + FmPhases(NextPhase(last, Scale(gain, a), samplerate), Scale(gain, b), samplerate), cos)
  {
    ScaleConcat(gain, a, b);
    FmPhasesSplit(last, Scale(gain, a), Scale(gain, b), samplerate);
  }

  /** Phase continuity of the frequency-modulating processor: processing a
      frame in two consecutive calls, the second starting from the phase the
      first carried forward and at the time `later` the first frame ended,
      produces the same output as processing it in one call. */
  lemma {:induction false} FmFrameSplit(gain: real, volume: real, carrier: real, last: real,
                                          a: seq<real>, b: seq<real>, samplerate: real, dacTime: real,
                                          later: real, cos: real -> real)
    requires samplerate != 0.0 && later == dacTime + (|a| as real) / samplerate
    ensures FmFrame(gain, volume, carrier, last, a + b, samplerate, dacTime, cos)
         == FmFrame(gain, volume, carrier, last, a, samplerate, dacTime, cos)
          + FmFrame(gain, volume, carrier, NextPhase(last, Scale(gain, a), samplerate), b, samplerate, later, cos)
  {
    var sa := Scale(gain, a);
    var p := FmPhases(last, sa, samplerate);
    var q := FmPhases(NextPhase(last, sa, samplerate), Scale(gain, b), samplerate);
    FmFramePhasesSplit(gain, volume, carrier, last, a, b, samplerate, dacTime, cos);
    assert |p| == |a|;
    FmOutputSplit(volume, carrier, dacTime, later, samplerate, p, q, cos);
  }

  /** Frequency-modulating processor: scales the input by the gain,
      integrates it into a phase carried across calls, and outputs the
      volume-scaled cosine of carrier plus modulation phase. */
  class FMOutputProcessor {
    var inputGain: real
    var outputVolume: real
    var carrierFrequency: real
    var lastFmPhase: real

    constructor (inputGain: real := 1.0, outputVolume: real := 1.0, carrierFrequency: real := 500.0)
      ensures this.inputGain == inputGain && this.outputVolume == outputVolume
      ensures this.carrierFrequency == carrierFrequency && lastFmPhase == 0.0
    {
      this.inputGain := inputGain;
      this.outputVolume := outputVolume;
      this.carrierFrequency := carrierFrequency;
      lastFmPhase := 0.0;
    }

    /** Processes one non-empty frame played from `dacTime` on and carries
        the modulation phase of its last sample forward; nothing else in the
        processor changes. */
    method Process(samples: seq<real>, samplerate: real, dacTime: real, cos: real -> real)
      returns (out: seq<real>)
      requires 0 < |samples| && samplerate != 0.0
      modifies this`lastFmPhase
      ensures |out| == |samples|
      ensures out == FmFrame(inputGain, outputVolume, carrierFrequency, old(lastFmPhase), samples,
                             samplerate, dacTime, cos)
      ensures lastFmPhase == NextPhase(old(lastFmPhase), Scale(inputGain, samples), samplerate)
    {
      var scaled := Scale(inputGain, samples);
      var fmphase := FmPhases(lastFmPhase, scaled, samplerate);
      out := FmOutput(outputVolume, carrierFrequency, dacTime, samplerate, fmphase, cos);
      lastFmPhase := fmphase[|fmphase| - 1];
      assert scaled[..|scaled|] == scaled;
    }
  }
}
