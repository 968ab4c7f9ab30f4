/** The measurement arithmetic of src/main.c: one measurement pass
    (window and detect both channels), the averaged impedance of MeasureZ,
    and the series inductance and capacitance derived from its reactance. */
module Impedance {
  import opened CTypes
  import opened Complex
  import RealArith
  import Goertzel
  import Windowing

  const NumAvg: nat := 8
  /** The series reference resistor, in ohms. */
  const ReferenceR: real := 4740.0
  /** Stands in for an infinite impedance when both channels read alike. */
  const Sentinel: real := 99999999.99
  const LimitMaxC: real := 999999.99
  const LimitMaxL: real := 999999.99
  const LimitMinX: real := 1.0

  /** Measure: the sampler is outside the model, so `ch1` and `ch2` hold the
      two blocks it delivered. Both are windowed in place, then detected;
      the detector's registers are left as channel 2 set them.
      vr (channel 1) is the voltage across reference and load, vm
      (channel 2) the voltage across the load. */
  method Measure(window: Windowing.Window, detector: Goertzel.Detector, ch1: array<u16>, ch2: array<u16>)
    returns (vr: Complex, vm: Complex)
    requires window.Valid() && window.WeightsInUnit()
    requires detector.blockSize == window.blockSize
    requires window.blockSize as int <= ch1.Length && window.blockSize as int <= ch2.Length
    requires ch1 != ch2
    modifies ch1, ch2, detector`q1, detector`q2
    ensures var n := window.blockSize;
      && vr == Goertzel.Output(detector.coeff, detector.sine, detector.cosine,
                               Windowing.Windowed(window.wn[..n], old(ch1[..n])))
      && vm == Goertzel.Output(detector.coeff, detector.sine, detector.cosine,
                               Windowing.Windowed(window.wn[..n], old(ch2[..n])))
    ensures var n := window.blockSize;
      && ch1[..n] == Windowing.Windowed(window.wn[..n], old(ch1[..n]))
      && ch2[..n] == Windowing.Windowed(window.wn[..n], old(ch2[..n]))
      && ch1[n..] == old(ch1[n..]) && ch2[n..] == old(ch2[n..])
    ensures Goertzel.Regs(detector.q1, detector.q2) == Goertzel.Registers(detector.coeff, ch2[..window.blockSize])
  {
    window.Calc(ch1);
    window.Calc(ch2);
    vr := detector.Calc(ch1);
    vm := detector.Calc(ch2);
  }

  /** The two channel phasors of one pass of MeasureZ. */
  datatype Pass = Pass(vr: Complex, vm: Complex)

  /** What one pass adds to the sum: the sentinel when the channels are
      equal (no division happens), otherwise the load impedance of the
      divider, the z that solves z * (vr - vm) = ReferenceR * vm. */
  function Contribution(p: Pass): (z: Complex)
    ensures p.vr == p.vm ==> z == Complex(Sentinel, 0.0)
    ensures p.vr != p.vm ==> Mul(z, Sub(p.vr, p.vm)) == Scale(ReferenceR, p.vm)
  {
    if p.vr == p.vm then Complex(Sentinel, 0.0)
    else Div(Scale(ReferenceR, p.vm), Sub(p.vr, p.vm))
  }

  /** f summed over the elements of s, in order. */
  function Sum<T>(f: T -> Complex, s: seq<T>): Complex
    decreases |s|
  {
    if s == [] then Zero
    else Add(Sum(f, s[..|s| - 1]), f(s[|s| - 1]))
  }

  /** MeasureZ: the mean of the NumAvg per-pass contributions. */
  method MeasureZ(passes: seq<Pass>) returns (z: Complex)
    requires |passes| == NumAvg
    ensures z == DivReal(Sum(Contribution, passes), NumAvg as real)
  {
    z := Zero;
    for i := 0 to NumAvg
      invariant z == Sum(Contribution, passes[..i])
    {
      assert passes[..i + 1][..i] == passes[..i];
      if passes[i].vr == passes[i].vm {
        z := Add(z, Complex(Sentinel, 0.0));
      } else {
        z := Add(z, Div(Scale(ReferenceR, passes[i].vm), Sub(passes[i].vr, passes[i].vm)));
      }
    }
    assert passes[..NumAvg] == passes;
    z := DivReal(z, NumAvg as real);
  }

  /** Terms that are all the same real r add up to |s| times r. */
  lemma {:induction false} SumConstant<T>(f: T -> Complex, s: seq<T>, r: real)
    requires forall i :: 0 <= i < |s| ==> f(s[i]) == Complex(r, 0.0)
    ensures Sum(f, s) == Complex(|s| as real * r, 0.0)
  {
    if s != [] {
      SumConstant(f, s[..|s| - 1], r);
    }
  }

  /** Passes whose channels all read alike add up to that many sentinels. */
  lemma SumDegenerate(passes: seq<Pass>)
    requires forall i :: 0 <= i < |passes| ==> passes[i].vr == passes[i].vm
    ensures Sum(Contribution, passes) == Complex(|passes| as real * Sentinel, 0.0)
  {
    SumConstant(Contribution, passes, Sentinel);
  }

  /** If every pass is degenerate the reading is exactly the sentinel. */
  lemma AllDegenerate(passes: seq<Pass>)
    requires |passes| == NumAvg
    requires forall i :: 0 <= i < |passes| ==> passes[i].vr == passes[i].vm
    ensures DivReal(Sum(Contribution, passes), NumAvg as real) == Complex(Sentinel, 0.0)
  {
    SumDegenerate(passes);
  }

  /** The sum over two runs is the sum of their sums. */
  lemma {:induction false} SumAppend<T>(f: T -> Complex, a: seq<T>, b: seq<T>)
    ensures Sum(f, a + b) == Add(Sum(f, a), Sum(f, b))
  {
    if b == [] {
      assert a + b == a;
    } else {
      assert (a + b)[..|a + b| - 1] == a + b[..|b| - 1];
      SumAppend(f, a, b[..|b| - 1]);
    }
  }

  /** The sum of a run extended by one element. */
  lemma SumSnoc<T>(f: T -> Complex, u: seq<T>, x: T)
    ensures Sum(f, u + [x]) == Add(Sum(f, u), f(x))
  {
    assert (u + [x])[..|u|] == u;
  }

  /** Taking out element k leaves the sum less that element's term. */
  lemma SumRemove<T>(f: T -> Complex, s: seq<T>, k: int)
    requires 0 <= k < |s|
    ensures Sum(f, s) == Add(Sum(f, s[..k] + s[k + 1..]), f(s[k]))
  {
    SplitAt(s, k);
    SumSplit(f, s, s[..k], s[k], s[k + 1..]);
  }

  lemma SplitAt<T>(s: seq<T>, k: int)
    requires 0 <= k < |s|
    ensures s == s[..k] + [s[k]] + s[k + 1..]
  {
  }

  lemma SumSplit<T>(f: T -> Complex, s: seq<T>, u: seq<T>, x: T, v: seq<T>)
    requires s == u + [x] + v
    ensures Sum(f, s) == Add(Sum(f, u + v), f(x))
  {
    SumAppend(f, u + [x], v);
    SumSnoc(f, u, x);
    SumAppend(f, u, v);
    AddShuffle(Sum(f, u), Sum(f, v), f(x));
  }

  lemma AddShuffle(a: Complex, b: Complex, c: Complex)
    ensures Add(Add(a, c), b) == Add(Add(a, b), c)
  {
  }

  /** The sum does not depend on the order of the elements. */
  lemma {:induction false} SumPermutation<T>(f: T -> Complex, a: seq<T>, b: seq<T>)
    requires multiset(a) == multiset(b)
    ensures Sum(f, a) == Sum(f, b)
    decreases |a|
  {
    if a == [] {
      assert |b| == |multiset(b)| == 0;
    } else {
      LastOccurs(a, b);
      var k :| 0 <= k < |b| && b[k] == a[|a| - 1];
      RemoveOne(a, b, k);
      SumPermutation(f, a[..|a| - 1], b[..k] + b[k + 1..]);
      SumRemove(f, b, k);
    }
  }

  /** The last element of a occurs in any b with the same elements. */
  lemma LastOccurs<T>(a: seq<T>, b: seq<T>)
    requires a != [] && multiset(a) == multiset(b)
    ensures a[|a| - 1] in b
  {
    assert a[|a| - 1] in multiset(a);
  }

  /** Taking the last element off a and an occurrence of it out of b
      leaves two sequences with the same elements. */
  lemma RemoveOne<T>(a: seq<T>, b: seq<T>, k: int)
    requires a != [] && multiset(a) == multiset(b)
    requires 0 <= k < |b| && b[k] == a[|a| - 1]
    ensures multiset(a[..|a| - 1]) == multiset(b[..k] + b[k + 1..])
  {
    var x, a', b' := a[|a| - 1], a[..|a| - 1], b[..k] + b[k + 1..];
    assert a == a' + [x];
    SplitAt(b, k);
    assert multiset(b) == multiset(b[..k]) + multiset{x} + multiset(b[k + 1..]);
    assert multiset(a') == multiset(a) - multiset{x};
    assert multiset(b') == multiset(b) - multiset{x};
  }

  /** The reading of MeasureZ does not depend on the order of the passes. */
  lemma MeasureOrderFree(passes: seq<Pass>, reordered: seq<Pass>)
    requires multiset(passes) == multiset(reordered)
    ensures Sum(Contribution, passes) == Sum(Contribution, reordered)
  {
    SumPermutation(Contribution, passes, reordered);
  }

  /** 2*pi*f/10^6: the angular frequency in radians per microsecond, so
      that ohms divided by it give microhenries. */
  function AngularMHz(freq: u32): (w: real)
    requires freq > 0
    ensures w > 0.0
  {
    2.0 * Pi * (freq as real / 1000000.0)
  }

  /** CalcLs: the series inductance in microhenries whose reactance is the
      imaginary part of zs (X = w*L). A magnitude above LimitMaxL is
      reported as +LimitMaxL, whatever the sign of the reactance. */
  function CalcLs(freq: u32, zs: Complex): (ls: real)
    requires freq > 0
    ensures Abs(ls) <= LimitMaxL
    ensures ls == LimitMaxL || ls * AngularMHz(freq) == zs.im
  {
    var w := AngularMHz(freq);
    var l := zs.im / w;
    RealArith.DivMulBack(zs.im, w);
    if Abs(l) > LimitMaxL then LimitMaxL else l
  }

  /** An inductance within the limit is reported exactly. */
  lemma CalcLsExact(freq: u32, zs: Complex, l: real)
    requires freq > 0
    requires Abs(l) <= LimitMaxL && l * AngularMHz(freq) == zs.im
    ensures CalcLs(freq, zs) == l
  {
    var w := AngularMHz(freq);
    RealArith.DivMulBack(zs.im, w);
    RealArith.CancelNonZero(l, zs.im / w, w);
  }

  /** An inductance beyond the limit, of either sign, is reported as
      +LimitMaxL. */
  lemma CalcLsClamped(freq: u32, zs: Complex, l: real)
    requires freq > 0
    requires Abs(l) > LimitMaxL && l * AngularMHz(freq) == zs.im
    ensures CalcLs(freq, zs) == LimitMaxL
  {
    var w := AngularMHz(freq);
    RealArith.DivMulBack(zs.im, w);
    RealArith.CancelNonZero(l, zs.im / w, w);
  }

  /** CalcCs: the series capacitance in picofarads whose reactance is the
      imaginary part of zs (X = -1/(w*C)). A reactance of magnitude at most
      LimitMinX, or a capacitance of magnitude above LimitMaxC, is reported
      as -LimitMaxC. */
  function CalcCs(freq: u32, zs: Complex): (cs: real)
    requires freq > 0
    ensures Abs(cs) <= LimitMaxC
    ensures Abs(zs.im) <= LimitMinX ==> cs == -LimitMaxC
    ensures cs == -LimitMaxC || cs * (zs.im * AngularMHz(freq)) == -1000000.0
  {
    var im := zs.im;
    if Abs(im) > LimitMinX then
      var d := im * 2.0 * Pi * freq as real / 1000000.0;
      DenominatorIsReactance(im, freq, d);
      var c := -1000000.0 / d;
      RealArith.DivMulBack(-1000000.0, d);
      if Abs(c) > LimitMaxC then -LimitMaxC else c
    else
      -LimitMaxC
  }

  /** Once the reactance exceeds LimitMinX, a capacitance within the limit
      is reported exactly. */
  lemma CalcCsExact(freq: u32, zs: Complex, c: real)
    requires freq > 0 && Abs(zs.im) > LimitMinX
    requires Abs(c) <= LimitMaxC && c * (zs.im * AngularMHz(freq)) == -1000000.0
    ensures CalcCs(freq, zs) == c
  {
    var d := zs.im * 2.0 * Pi * freq as real / 1000000.0;
    DenominatorIsReactance(zs.im, freq, d);
    RealArith.DivMulBack(-1000000.0, d);
    RealArith.CancelNonZero(c, -1000000.0 / d, d);
  }

  /** Once the reactance exceeds LimitMinX, a capacitance beyond the limit,
      of either sign, is reported as -LimitMaxC. */
  lemma CalcCsClamped(freq: u32, zs: Complex, c: real)
    requires freq > 0 && Abs(zs.im) > LimitMinX
    requires Abs(c) > LimitMaxC && c * (zs.im * AngularMHz(freq)) == -1000000.0
    ensures CalcCs(freq, zs) == -LimitMaxC
  {
    var d := zs.im * 2.0 * Pi * freq as real / 1000000.0;
    DenominatorIsReactance(zs.im, freq, d);
    RealArith.DivMulBack(-1000000.0, d);
    RealArith.CancelNonZero(c, -1000000.0 / d, d);
  }

  /** The divisor of CalcCs is the reactance times the angular frequency,
      and it is non-zero once the reactance is. */
  lemma DenominatorIsReactance(im: real, freq: u32, d: real)
    requires freq > 0 && d == im * 2.0 * Pi * freq as real / 1000000.0
    ensures d == im * AngularMHz(freq)
    ensures im != 0.0 ==> d != 0.0
  {
    var w := AngularMHz(freq);
    assert w == 2.0 * Pi * freq as real / 1000000.0;
    if im != 0.0 {
      RealArith.NegativeProduct(im, w, d);
      RealArith.NegativeProduct(-im, w, -d);
    }
  }

  /** An in-range capacitance has the sign opposite to the reactance:
      positive for a capacitive (negative) reactance. */
  lemma CalcCsSign(freq: u32, zs: Complex)
    requires freq > 0
    requires CalcCs(freq, zs) != -LimitMaxC
    ensures CalcCs(freq, zs) > 0.0 <==> zs.im < 0.0
  {
    var cs, w := CalcCs(freq, zs), AngularMHz(freq);
    var d := zs.im * w;
    assert cs * d == -1000000.0;
    RealArith.NegativeProduct(cs, d, cs * d);
    RealArith.NegativeProduct(zs.im, w, d);
  }

  /** An in-range inductance has the sign of the reactance. */
  lemma CalcLsSign(freq: u32, zs: Complex)
    requires freq > 0
    requires CalcLs(freq, zs) != LimitMaxL
    ensures CalcLs(freq, zs) > 0.0 <==> zs.im > 0.0
  {
    var ls, w := CalcLs(freq, zs), AngularMHz(freq);
    RealArith.NegativeProduct(ls, w, zs.im);
    RealArith.NegativeProduct(-ls, w, -zs.im);
  }
}
