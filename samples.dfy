/** Operations on frames of samples.  Samples are reals: an exact
    idealisation of numpy's floating-point arrays. */
module Samples {

  /** Every sample multiplied by `k`, as numpy's scalar-times-array. */
  function Scale(k: real, s: seq<real>): (r: seq<real>)
    ensures |r| == |s|
    ensures forall i :: 0 <= i < |s| ==> r[i] == k * s[i]
  {
    seq(|s|, i requires 0 <= i < |s| => k * s[i])
  }

  /** Scaling a frame in two pieces is scaling it whole. */
  lemma {:induction false} ScaleConcat(k: real, a: seq<real>, b: seq<real>)
    ensures Scale(k, a + b) == Scale(k, a) + Scale(k, b)
  {
    var l, r := Scale(k, a + b), Scale(k, a) + Scale(k, b);
    forall i | 0 <= i < |a + b| ensures l[i] == r[i] {
      if i < |a| {
        assert l[i] == k * a[i] == r[i];
      } else {
        assert l[i] == k * b[i - |a|] == r[i];
      }
    }
  }

  /** Scaling by one changes nothing. */
  lemma ScaleOne(s: seq<real>)
    ensures Scale(1.0, s) == s
  {
  }

  /** The sum of a frame, added up from the first sample on. */
  function Sum(s: seq<real>): real
    decreases |s|
  {
    if s == [] then 0.0 else Sum(s[..|s| - 1]) + s[|s| - 1]
  }

  /** The sum of two frames one after the other is the sum of their sums. */
  lemma {:induction false} SumConcat(a: seq<real>, b: seq<real>)
    ensures Sum(a + b) == Sum(a) + Sum(b)
    decreases |b|
  {
    if b != [] {
      var m := |b| - 1;
      assert (a + b)[..|a + b| - 1] == a + b[..m];
      SumConcat(a, b[..m]);
    } else {
      assert a + b == a;
    }
  }

  /** Running sums, as numpy's cumsum: element i is the sum of the first
      i + 1 samples. */
  function CumSum(s: seq<real>): (c: seq<real>)
    ensures |c| == |s|
    ensures forall i :: 0 <= i < |s| ==> c[i] == Sum(s[..i + 1])
    decreases |s|
  {
    if s == [] then []
    else
      var init := s[..|s| - 1];
      var c := CumSum(init) + [Sum(s)];
      assert s[..|s|] == s;
      forall i | 0 <= i < |init| ensures c[i] == Sum(s[..i + 1]) {
        assert init[..i + 1] == s[..i + 1];
      }
      c
  }

  /** numpy's constant (zero) padding at the end: a frame of `frames`
      samples that starts with `samples` and continues with zeros. */
  function Pad(samples: seq<real>, frames: nat): (r: seq<real>)
    requires |samples| <= frames
    ensures |r| == frames
    ensures r[..|samples|] == samples
    ensures forall i :: |samples| <= i < frames ==> r[i] == 0.0
  {
    samples + seq(frames - |samples|, _ => 0.0)
  }
}
