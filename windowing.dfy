/** Window table and in-place weighting of a sample block
    (src/windowing_fn.c). Only the Hanning branch is compiled in; the
    module statics gWn and gu16BlockSize become the fields of a `Window`. */
module Windowing {
  import opened CTypes
  import opened Sampling

  /** Weight i of an n-sample Hanning window, exactly as the firmware
      writes it: the 1 is subtracted from the angle 2*pi*i/n, not from n. */
  function Hanning(cos: real -> real, i: int, n: int): real
    requires n > 0
  {
    0.5 - 0.5 * cos((2.0 * Pi * i as real) / n as real - 1.0)
  }

  /** With a cosine bounded by 1 every weight lies in [0, 1]. */
  lemma HanningInUnit(cos: real -> real, i: int, n: int)
    requires UnitBounded(cos) && n > 0
    ensures 0.0 <= Hanning(cos, i, n) <= 1.0
  {
    var t := (2.0 * Pi * i as real) / n as real - 1.0;
    assert -1.0 <= cos(t) <= 1.0;
  }

  /** `(uint16_t)(w * x)` for a weight in [0, 1]: the product is never
      negative and never above x, so the conversion truncates to its
      floor and the result fits in 16 bits. */
  function Weigh(w: real, x: u16): (y: u16)
    requires 0.0 <= w <= 1.0
    ensures y as real <= w * x as real < y as real + 1.0
    ensures y <= x
  {
    var p := w * x as real;
    ProductInRange(w, x as real, p);
    p.Floor
  }

  lemma ProductInRange(w: real, x: real, p: real)
    requires 0.0 <= w <= 1.0 && 0.0 <= x && p == w * x
    ensures 0.0 <= p <= x
  {
    assert x - p == (1.0 - w) * x;
  }

  ghost predicate InUnit(ws: seq<real>)
  {
    forall i :: 0 <= i < |ws| ==> 0.0 <= ws[i] <= 1.0
  }

  /** The block `xs` weighted by `ws`, sample by sample. */
  function Windowed(ws: seq<real>, xs: seq<u16>): (ys: seq<u16>)
    requires |ws| == |xs| && InUnit(ws)
    ensures |ys| == |xs|
  {
    seq(|xs|, i requires 0 <= i < |xs| => Weigh(ws[i], xs[i]))
  }

  /** Weighting never raises a sample, and a zero sample stays zero. */
  lemma WindowedBelow(ws: seq<real>, xs: seq<u16>)
    requires |ws| == |xs| && InUnit(ws)
    ensures forall i :: 0 <= i < |xs| ==> Windowed(ws, xs)[i] <= xs[i]
    ensures forall i :: 0 <= i < |xs| && xs[i] == 0 ==> Windowed(ws, xs)[i] == 0
  {
  }

  /** A window of ones leaves the block as it is. */
  lemma {:induction false} WindowedByOnes(ws: seq<real>, xs: seq<u16>)
    requires |ws| == |xs| && forall i :: 0 <= i < |ws| ==> ws[i] == 1.0
    ensures Windowed(ws, xs) == xs
  {
    forall i | 0 <= i < |xs|
      ensures Windowed(ws, xs)[i] == xs[i]
    {
      assert ws[i] * xs[i] as real == xs[i] as real;
    }
  }

  class Window {
    var blockSize: u16
    /** gWn: room for the largest block. */
    var wn: array<real>

    ghost predicate Valid()
      reads this
    {
      wn.Length == SampleBlockSize as int && blockSize <= SampleBlockSize
    }

    /** The weights in use: the first blockSize entries of the table. */
    ghost predicate WeightsInUnit()
      reads this, wn
      requires Valid()
    {
      InUnit(wn[..blockSize])
    }

    /** The statics before any call: an empty block and a zeroed table. */
    constructor ()
      ensures Valid() && blockSize == 0 && fresh(wn)
      ensures forall i :: 0 <= i < wn.Length ==> wn[i] == 0.0
    {
      blockSize := 0;
      wn := new real[SampleBlockSize](_ => 0.0);
    }

    /** Windowing_Init: records the block size and fills the first n
        weights. The table has room for SampleBlockSize weights, so a
        larger n would write past it. Entries past n keep their value. */
    method Init(n: u16, cos: real -> real)
      requires Valid() && n <= SampleBlockSize
      modifies this`blockSize, wn
      ensures Valid() && blockSize == n
      ensures forall i :: 0 <= i < n ==> wn[i] == Hanning(cos, i, n as int)
      ensures forall i :: n <= i < wn.Length ==> wn[i] == old(wn[i])
      ensures UnitBounded(cos) ==> WeightsInUnit()
    {
      blockSize := n;
      for i := 0 to n
        invariant Valid() && blockSize == n
        invariant forall j :: 0 <= j < i ==> wn[j] == Hanning(cos, j, n as int)
        invariant forall j :: n <= j < wn.Length ==> wn[j] == old(wn[j])
      {
        wn[i] := Hanning(cos, i, n as int);
      }
      if UnitBounded(cos) {
        forall j | 0 <= j < n
          ensures 0.0 <= wn[..blockSize][j] <= 1.0
        {
          HanningInUnit(cos, j, n as int);
        }
      }
    }

    /** Windowing_Calc: weights the first blockSize samples of x in place
        and leaves the rest alone. */
    method Calc(x: array<u16>)
      requires Valid() && WeightsInUnit() && blockSize as int <= x.Length
      modifies x
      ensures x[..blockSize] == Windowed(wn[..blockSize], old(x[..blockSize]))
      ensures x[blockSize..] == old(x[blockSize..])
    {
      for i := 0 to blockSize
        invariant forall j :: 0 <= j < i ==> x[j] == Weigh(wn[j], old(x[j]))
        invariant x[i..] == old(x[i..])
      {
        assert 0.0 <= wn[..blockSize][i] <= 1.0;
        x[i] := Weigh(wn[i], x[i]);
      }
    }
  }
}
