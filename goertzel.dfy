/** Single-bin DFT extractor (src/goertzel.c). The module statics
    gfCoeff, gfSine, gfCosine, gu16BlockSize, gfQ1 and gfQ2 become the
    fields of a `Detector` object. */
module Goertzel {
  import opened CTypes
  import opened Complex
  import Sampling

  /** The two recursive registers of the filter. */
  datatype Regs = Regs(q1: real, q2: real)

  /** `(int)(0.5 + N*f/fs)`: the argument is never negative, so C's
      truncating conversion is the floor. */
  function BinIndex(n: u16, freq: u32, sampleRate: u32): (k: int)
    requires sampleRate > 0
    ensures k >= 0
    ensures k as real - 0.5 <= (n as real * freq as real) / sampleRate as real < k as real + 0.5
  {
    (0.5 + (n as real * freq as real) / sampleRate as real).Floor
  }

  /** `(2*M_PI*k)/N`, the angular frequency of bin k. */
  function Omega(n: u16, k: int): real
    requires n > 0
  {
    (2.0 * Pi * k as real) / n as real
  }

  /** Register contents after feeding the samples `xs`, starting from
      zeroed registers: one step `Q0 = coeff*Q1 - Q2 + x; Q2 = Q1; Q1 = Q0`
      per sample. */
  function Registers(coeff: real, xs: seq<u16>): Regs
    decreases |xs|
  {
    if xs == [] then Regs(0.0, 0.0)
    else
      var r := Registers(coeff, xs[..|xs| - 1]);
      Regs(coeff * r.q1 - r.q2 + xs[|xs| - 1] as real, r.q1)
  }

  /** The "basic Goertzel" output formed from the final registers. */
  function Output(coeff: real, sine: real, cosine: real, xs: seq<u16>): Complex
  {
    var r := Registers(coeff, xs);
    Complex(r.q1 - r.q2 * cosine, r.q2 * sine)
  }

  class Detector {
    var blockSize: u16
    var coeff: real
    var sine: real
    var cosine: real
    var q1: real
    var q2: real

    /** The statics before any call: all zero. */
    constructor ()
      ensures blockSize == 0 && coeff == 0.0 && sine == 0.0 && cosine == 0.0
      ensures q1 == 0.0 && q2 == 0.0
    {
      blockSize, coeff, sine, cosine, q1, q2 := 0, 0.0, 0.0, 0.0, 0.0, 0.0;
    }

    /** Goertzel_Init: tunes the filter to the bin nearest `freq` for a
        block of `n` samples taken at `sampleRate`. `sin` and `cos` stand
        for libm's functions. */
    method Init(n: u16, freq: u32, sampleRate: u32, sin: real -> real, cos: real -> real)
      requires n > 0 && sampleRate > 0
      modifies this
      ensures blockSize == n
      ensures sine == sin(Omega(n, BinIndex(n, freq, sampleRate)))
      ensures cosine == cos(Omega(n, BinIndex(n, freq, sampleRate)))
      ensures coeff == 2.0 * cosine
      ensures q1 == 0.0 && q2 == 0.0
    {
      blockSize := n;
      var k := BinIndex(n, freq, sampleRate);
      var omega := Omega(n, k);
      sine := sin(omega);
      cosine := cos(omega);
      coeff := 2.0 * cosine;
      q2 := 0.0;
      q1 := 0.0;
    }

    /** Goertzel_Calc: runs the filter over the first `blockSize` samples
        of `x`. The registers are cleared first, so the result depends
        only on the samples and on the last Init. */
    method Calc(x: array<u16>) returns (v: Complex)
      requires blockSize as int <= x.Length
      modifies this`q1, this`q2
      ensures Regs(q1, q2) == Registers(coeff, x[..blockSize])
      ensures v == Output(coeff, sine, cosine, x[..blockSize])
    {
      q2 := 0.0;
      q1 := 0.0;
      for i := 0 to blockSize
        invariant Regs(q1, q2) == Registers(coeff, x[..i])
      {
        assert x[..i + 1][..i] == x[..i];
        var q0 := coeff * q1 - q2 + x[i] as real;
        q2 := q1;
        q1 := q0;
      }
      v := Complex(q1 - q2 * cosine, q2 * sine);
    }
  }

  /** With the firmware's configuration (110 samples at 218750 Hz, tuned
      to 59659 Hz) the analysed bin is 30. */
  lemma ConfiguredBinIndex()
    ensures BinIndex(Sampling.SampleBlockSize, Sampling.MeasurementFreq, Sampling.SamplingRate) == 30
  {
  }

  /** For integer inputs the rounding reduces to integer arithmetic:
      k = (2*N*f + fs) div (2*fs). */
  lemma BinIndexIntegerForm(n: u16, freq: u32, sampleRate: u32)
    requires sampleRate > 0
    ensures BinIndex(n, freq, sampleRate) == (2 * n * freq + sampleRate) / (2 * sampleRate)
  {
    var fs, nf := sampleRate as real, n as real * freq as real;
    var t := nf / fs;
    RealArith.DivMulBack(nf, fs);
    HalfPlusTimesTwo(t, fs, nf, 0.5 + t);
    var p := n * freq;
    RealArith.CastMul(n, freq);
    assert 2 * n * freq + sampleRate == 2 * p + sampleRate;
    FloorOfRatio(2 * p + sampleRate, 2 * sampleRate, 0.5 + t);
  }

  lemma HalfPlusTimesTwo(t: real, fs: real, nf: real, y: real)
    requires t * fs == nf && y == 0.5 + t
    ensures y * (2.0 * fs) == 2.0 * nf + fs
  {
  }

  /** A real that is the ratio m/d of two integers has m div d as floor. */
  lemma FloorOfRatio(m: int, d: int, y: real)
    requires d > 0 && y * d as real == m as real
    ensures y.Floor == m / d
  {
    var q, r := m / d, m % d;
    assert m == q * d + r && 0 <= r < d;
    var qr, dr := q as real, d as real;
    RealArith.CastMul(q, d);
    RealArith.CastMul(q + 1, d);
    assert q * d <= m < (q + 1) * d;
    assert qr * dr <= y * dr;
    assert y * dr < (q + 1) as real * dr;
    RealArith.CancelPositive(qr, y, dr);
    RealArith.CancelPositive(y, (q + 1) as real, dr);
    assert qr <= y < qr + 1.0;
    RealArith.FloorUnique(y, q);
  }

  /** An all-zero block leaves both registers at zero. */
  lemma {:induction false} ZeroBlockRegisters(coeff: real, xs: seq<u16>)
    requires forall i :: 0 <= i < |xs| ==> xs[i] == 0
    ensures Registers(coeff, xs) == Regs(0.0, 0.0)
  {
    if xs != [] {
      ZeroBlockRegisters(coeff, xs[..|xs| - 1]);
    }
  }

  /** An all-zero block yields exactly 0 + 0i. */
  lemma ZeroBlockOutput(coeff: real, sine: real, cosine: real, xs: seq<u16>)
    requires forall i :: 0 <= i < |xs| ==> xs[i] == 0
    ensures Output(coeff, sine, cosine, xs) == Zero
  {
    ZeroBlockRegisters(coeff, xs);
  }

  /** Impulse response of the recursion: h(m) = 0 for m < 0, h(0) = 1,
      h(m) = coeff*h(m-1) - h(m-2). (For coeff = 2cos w this is the
      Chebyshev polynomial U_m(cos w) = sin((m+1)w)/sin w.) */
  function Impulse(coeff: real, m: int): real
    decreases m
  {
    if m < 0 then 0.0
    else if m == 0 then 1.0
    else coeff * Impulse(coeff, m - 1) - Impulse(coeff, m - 2)
  }

  /** The impulse response as a function of time. */
  function ImpulseResponse(coeff: real): int -> real
  {
    m => Impulse(coeff, m)
  }

  /** `h` obeys the filter's recursion at time k. */
  ghost predicate RecurrentAt(coeff: real, h: int -> real, k: int)
  {
    h(k) == coeff * h(k - 1) - h(k - 2)
  }

  /** `h` starts like an impulse response (1 at time 0, 0 before) and
      obeys the filter's recursion from then on. */
  ghost predicate IsImpulseResponse(coeff: real, h: int -> real)
  {
    && h(0) == 1.0 && h(-1) == 0.0
    && forall k :: k >= 1 ==> RecurrentAt(coeff, h, k)
  }

  /** sum over j < |xs| of xs[j] * h(m - j): the response at time m of a
      filter with impulse response h to the samples xs. */
  function Convolve(h: int -> real, xs: seq<u16>, m: int): real
    decreases |xs|
  {
    if xs == [] then 0.0
    else Convolve(h, xs[..|xs| - 1], m) + xs[|xs| - 1] as real * h(m - (|xs| - 1))
  }

  /** The last sample's term, with its time offset named `d`. */
  lemma ConvolveLast(h: int -> real, xs: seq<u16>, m: int, d: int)
    requires xs != [] && d == m - (|xs| - 1)
    ensures Convolve(h, xs, m) == Convolve(h, xs[..|xs| - 1], m) + xs[|xs| - 1] as real * h(d)
  {
  }

  /** Once the samples have ended, the convolution with any response that
      obeys the recursion obeys it too. */
  lemma {:induction false} ConvolveStep(coeff: real, h: int -> real, xs: seq<u16>, m: int)
    requires forall k :: k >= 1 ==> RecurrentAt(coeff, h, k)
    requires m >= |xs|
    ensures Convolve(h, xs, m) == coeff * Convolve(h, xs, m - 1) - Convolve(h, xs, m - 2)
  {
    if xs != [] {
      ConvolveStep(coeff, h, xs[..|xs| - 1], m);
      StepCase(coeff, h, xs, m);
    }
  }

  /** The inductive step of ConvolveStep: the earlier samples and the last
      sample's term each obey the recursion, so their sum does. */
  lemma StepCase(coeff: real, h: int -> real, xs: seq<u16>, m: int)
    requires xs != [] && RecurrentAt(coeff, h, m - (|xs| - 1))
    requires var p := xs[..|xs| - 1];
      Convolve(h, p, m) == coeff * Convolve(h, p, m - 1) - Convolve(h, p, m - 2)
    ensures Convolve(h, xs, m) == coeff * Convolve(h, xs, m - 1) - Convolve(h, xs, m - 2)
  {
    var p, d := xs[..|xs| - 1], m - (|xs| - 1);
    ConvolveLast(h, xs, m, d);
    ConvolveLast(h, xs, m - 1, d - 1);
    ConvolveLast(h, xs, m - 2, d - 2);
    var x, u1, u2 := xs[|xs| - 1] as real, h(d - 1), h(d - 2);
    assert h(d) == coeff * u1 - u2;
    assert x * h(d) == coeff * (x * u1) - x * u2;
  }

  /** The registers equal the convolution of the samples with the impulse
      response: Q1 is the response at the last sample, Q2 one step earlier. */
  lemma RegistersAreConvolution(coeff: real, xs: seq<u16>)
    ensures Registers(coeff, xs).q1 == Convolve(ImpulseResponse(coeff), xs, |xs| - 1)
    ensures Registers(coeff, xs).q2 == Convolve(ImpulseResponse(coeff), xs, |xs| - 2)
  {
    var h := ImpulseResponse(coeff);
    assert IsImpulseResponse(coeff, h) by {
      forall k | k >= 1
        ensures RecurrentAt(coeff, h, k)
      {
      }
    }
    RegistersConvolve(coeff, h, xs);
  }

  /** RegistersAreConvolution for any h satisfying IsImpulseResponse. */
  lemma {:induction false} RegistersConvolve(coeff: real, h: int -> real, xs: seq<u16>)
    requires IsImpulseResponse(coeff, h)
    ensures Registers(coeff, xs).q1 == Convolve(h, xs, |xs| - 1)
    ensures Registers(coeff, xs).q2 == Convolve(h, xs, |xs| - 2)
  {
    if xs != [] {
      RegistersConvolve(coeff, h, xs[..|xs| - 1]);
      RegistersStep(coeff, h, xs);
    }
  }

  /** The inductive step of RegistersConvolve: one more sample advances
      both sides by one step of the recursion. */
  lemma RegistersStep(coeff: real, h: int -> real, xs: seq<u16>)
    requires IsImpulseResponse(coeff, h) && xs != []
    requires var p := xs[..|xs| - 1];
      Registers(coeff, p).q1 == Convolve(h, p, |p| - 1) && Registers(coeff, p).q2 == Convolve(h, p, |p| - 2)
    ensures Registers(coeff, xs).q1 == Convolve(h, xs, |xs| - 1)
    ensures Registers(coeff, xs).q2 == Convolve(h, xs, |xs| - 2)
  {
    var p, n := xs[..|xs| - 1], |xs|;
    ConvolveStep(coeff, h, p, n - 1);
    var x, q, r := xs[n - 1] as real, Registers(coeff, p), Registers(coeff, xs);
    assert r == Regs(coeff * q.q1 - q.q2 + x, q.q1);
    ConvolveLast(h, xs, n - 1, 0);
    ConvolveLast(h, xs, n - 2, -1);
  }
}
