# ZMETER_STM32F4D measurement core in Dafny

A model of the measurement arithmetic of the EA4FRB STM32F4 impedance
meter. It covers the path from two blocks of ADC samples to one impedance
reading, the conversion of that reading's reactance to a series
inductance or capacitance, and two buffer routines:

- `Sampling` (sample.dfy). The de-interleaving loop at the end of
  `Sample_Take`. It splits each 32-bit dual-mode ADC word into an ADC1
  half (channel 1) and an ADC2 half (channel 2), and it drops the first
  `SAMPLE_DUMMY_READS` words.
- `Windowing` (windowing.dfy). The Hanning weight table built by
  `Windowing_Init`, and the in-place truncating multiply of
  `Windowing_Calc`.
- `Goertzel` (goertzel.dfy). `Goertzel_Init`, which chooses the bin and
  stores its coefficients, and `Goertzel_Calc`, which runs the
  two-register recurrence.
  - The final registers are proved equal to a recursive fold over the
    samples.
  - The fold is proved equal to the convolution of the samples with the
    filter's impulse response.
- `Impedance` (impedance.dfy). From `main.c`:
  - one measurement pass (`Measure`);
  - the averaged voltage-divider ratio (`MeasureZ`);
  - `CalcLs` and `CalcCs`.
- `UsbTx` (usb_tx.dfy). `USB_Send`, which appends bytes to the circular
  transmit buffer of the USB CDC driver.
- Support modules:
  - `CTypes`: fixed-width unsigned types, `M_PI` and `fabs`.
  - `Complex`: the `complex double` operations the code uses, over exact
    reals.
  - `RealArith`: small facts about products.

C `double` and `float` are modelled as exact `real`. `sin` and `cos` are
function parameters. The only property assumed of them is that their
value lies in [-1, 1], and only where a proof needs it.

Module statics that the firmware updates in place become fields of a
class: `Goertzel.Detector`, `Windowing.Window`, `Sampling.Sampler` and
`UsbTx.TxRing`. The sample blocks are arrays, changed in place by
`Windowing.Window.Calc` and `Sampling.Sampler.Unpack`.

Where the code departs from the textbook formulas, the model follows the
code:

- The window weight is `0.5 - 0.5*cos(2*pi*i/N - 1)`. The `- 1` is
  subtracted from the angle, as written in src/windowing_fn.c:79.
- `CalcLs` clamps an out-of-range value to `+LIMIT_MAX_L` whatever its
  sign.
- `CalcCs` clamps an out-of-range value to `-LIMIT_MAX_C` whatever its
  sign.

## Model

| member | source | states |
|---|---|---|
| CTypes.Abs | src/main.c:351 | `fabs`: the result is x or -x and is never negative |
| Complex.Div | src/main.c:239 | complex division by a non-zero divisor: the quotient times the divisor gives back the dividend |
| Complex.Add | src/main.c:237-239 | `z += ...`: componentwise sum of two complex values (definition) |
| Complex.Sub | src/main.c:239 | `vr - vm`: componentwise difference (definition) |
| Complex.Mul | src/main.c:239 | complex product, (a+bi)(c+di) = (ac-bd) + (ad+bc)i, used to characterise the quotient (definition) |
| Complex.Scale | src/main.c:239 | `REFERENCE_R * vm`: a real times a complex value, componentwise (definition) |
| Complex.DivReal | src/main.c:241 | `z / (double)NUM_AVG`: a complex value divided by a non-zero real, componentwise (definition) |
| Goertzel.Omega | src/goertzel.c:54 | 2*pi*k/N, the angular frequency of bin k (definition) |
| Goertzel.Registers | src/goertzel.c:80-86 | the registers after feeding the samples one by one from zero: Q0 = coeff*Q1 - Q2 + x, Q2 := Q1, Q1 := Q0 (definition; its meaning is RegistersAreConvolution) |
| Goertzel.Output | src/goertzel.c:88-89 | Q1 - Q2*cos + i*Q2*sin from the final registers (definition) |
| Goertzel.BinIndex | src/goertzel.c:53 | the bin index is a non-negative integer within one half of N*f/fs, i.e. N*f/fs rounded half up |
| Goertzel.BinIndexIntegerForm | src/goertzel.c:53 | for integer inputs, the bin index equals (2*N*f + fs) div (2*fs) |
| Goertzel.ConfiguredBinIndex | src/goertzel.c:53 | with 110 samples at 218750 Hz and a 59659 Hz tone, the bin is 30 |
| Goertzel.Detector.constructor | src/goertzel.c:28-33 | every static of the detector starts at zero |
| Goertzel.Detector.Init | src/goertzel.c:45-61 | stores the block size, sin and cos of 2*pi*k/N for the rounded bin k, coeff = 2*cos, and clears both registers |
| Goertzel.Detector.Calc | src/goertzel.c:71-93 | clears the registers, then leaves them equal to the fold of the recurrence over the first blockSize samples; returns Q1 - Q2*cos + i*Q2*sin from them; changes nothing but q1 and q2, so the samples are left as they were and an earlier Calc does not affect the result |
| Goertzel.ZeroBlockRegisters | src/goertzel.c:76-86 | an all-zero block leaves both registers at zero |
| Goertzel.ZeroBlockOutput | src/goertzel.c:76-89 | an all-zero block yields exactly 0 + 0i |
| Goertzel.ConvolveStep | src/goertzel.c:83 | once the samples have ended, their convolution with any response obeying the recurrence obeys it too |
| Goertzel.RegistersAreConvolution | src/goertzel.c:80-86 | after any block, Q1 is the convolution of the samples with the impulse response at the last sample, and Q2 is the same one step earlier |
| Goertzel.RegistersConvolve | src/goertzel.c:80-86 | the same for every response that starts like the impulse response and obeys the recurrence |
| Windowing.Hanning | src/windowing_fn.c:79 | 0.5 - 0.5*cos(2*pi*i/N - 1), the - 1 applied to the angle as the code writes it (definition) |
| Windowing.HanningInUnit | src/windowing_fn.c:79 | with a cosine bounded by 1, every Hanning weight lies in [0, 1] |
| Windowing.Weigh | src/windowing_fn.c:55 | the truncating conversion of w*x is its floor, and for a weight in [0, 1] it is at most x, so it fits in 16 bits |
| Windowing.Windowed | src/windowing_fn.c:53-56 | the weighted block has one sample per input sample |
| Windowing.WindowedBelow | src/windowing_fn.c:55 | weighting never raises a sample, and a zero sample stays zero |
| Windowing.WindowedByOnes | src/windowing_fn.c:55 | a window of ones leaves the block unchanged |
| Windowing.Window.constructor | src/windowing_fn.c:35-36 | the statics start as an empty block and a zeroed table of SAMPLE_BLOCK_SIZE weights |
| Windowing.Window.Init | src/windowing_fn.c:65-81 | requires N <= SAMPLE_BLOCK_SIZE; records N and sets weight i to 0.5 - 0.5*cos(2*pi*i/N - 1) for every i < N; leaves later entries alone; with a bounded cosine all weights in use lie in [0, 1] |
| Windowing.Window.Calc | src/windowing_fn.c:49-57 | replaces each of the first blockSize samples by the floor of weight times sample and leaves later samples unchanged |
| Sampling.Lo | src/sample.c:162 | `w & 0xffff`, the ADC1 half, as w mod 65536 (definition) |
| Sampling.Hi | src/sample.c:163 | `w >> 16`, the ADC2 half, as w div 65536 (definition) |
| Sampling.Join | src/sample.c:162-163 | the word built from two halves splits back into those halves |
| Sampling.SplitJoin | src/sample.c:162-163 | the high and low halves of a word put back together give the word |
| Sampling.JoinSplit | src/sample.c:162-163 | splitting a word built from two halves gives those halves |
| Sampling.LowHalves | src/sample.c:162 | the ADC1 block has one sample per word |
| Sampling.HighHalves | src/sample.c:163 | the ADC2 block has one sample per word |
| Sampling.Interleave | src/sample.c:162-163 | two equally long channel blocks form one word per sample pair |
| Sampling.DeinterleaveRoundTrip | src/sample.c:162-163 | the two channel blocks together carry exactly the words they came from |
| Sampling.InterleaveRoundTrip | src/sample.c:162-163 | the words carry exactly the channel blocks they were formed from |
| Sampling.Sampler.constructor | src/sample.c:26 | the block size starts at zero |
| Sampling.Sampler.Init | src/sample.c:40-42 | records the block size |
| Sampling.Sampler.Unpack | src/sample.c:159-164 | requires blockSize <= SAMPLE_BLOCK_SIZE; channel 1 gets the low halves and channel 2 the high halves of words SAMPLE_DUMMY_READS .. SAMPLE_DUMMY_READS + blockSize - 1; the dummy words reach neither channel; entries past blockSize are untouched |
| Sampling.UnpackRoundTrip | src/sample.c:162-163 | after the unpack, ch2[i]*65536 + ch1[i] equals word i + SAMPLE_DUMMY_READS |
| Impedance.Measure | src/main.c:198-217 | given the two sampled blocks, windows both in place (the first blockSize samples of each become the windowed block, the rest unchanged), returns the Goertzel output of each windowed block, and leaves the detector's registers as the windowed channel 2 set them |
| Impedance.Contribution | src/main.c:236-239 | a pass with vr == vm adds exactly 99999999.99 + 0i; any other pass adds the z that solves z*(vr - vm) = REFERENCE_R*vm |
| Impedance.Sum | src/main.c:232-240 | the contributions added up in pass order from 0 (definition) |
| Impedance.MeasureZ | src/main.c:225-246 | the result is the sum of the NUM_AVG per-pass contributions, in order, divided by NUM_AVG |
| Impedance.SumDegenerate | src/main.c:236-237 | passes whose channels all read alike sum to that many sentinels |
| Impedance.AllDegenerate | src/main.c:229-241 | if all eight passes are degenerate, the reading is exactly 99999999.99 + 0i |
| Impedance.SumPermutation | src/main.c:232-240 | a sum of contributions does not depend on the order of its terms |
| Impedance.MeasureOrderFree | src/main.c:232-241 | the accumulated sum of MeasureZ is the same for any reordering of the passes |
| Impedance.AngularMHz | src/main.c:349 | 2*pi*f/10^6 is positive for a positive frequency |
| Impedance.CalcLs | src/main.c:345-356 | the result is at most LIMIT_MAX_L in magnitude, and it is either +LIMIT_MAX_L or the L with L*w = X |
| Impedance.CalcLsExact | src/main.c:349-352 | an inductance within the limit is reported exactly |
| Impedance.CalcLsClamped | src/main.c:351-352 | an inductance beyond the limit, of either sign, is reported as +LIMIT_MAX_L |
| Impedance.CalcLsSign | src/main.c:349 | an unclamped inductance is positive exactly when the reactance is |
| Impedance.CalcCs | src/main.c:365-379 | the result is at most LIMIT_MAX_C in magnitude; it is -LIMIT_MAX_C when abs(X) <= LIMIT_MIN_X; otherwise it is -LIMIT_MAX_C or the C with C*X*w = -10^6 |
| Impedance.CalcCsExact | src/main.c:369-370 | once abs(X) > LIMIT_MIN_X, a capacitance within the limit is reported exactly |
| Impedance.CalcCsClamped | src/main.c:374-375 | once abs(X) > LIMIT_MIN_X, a capacitance beyond the limit, of either sign, is reported as -LIMIT_MAX_C |
| Impedance.CalcCsSign | src/main.c:370 | an unclamped capacitance is positive exactly when the reactance is negative |
| Impedance.DenominatorIsReactance | src/main.c:370 | the divisor of CalcCs is X times 2*pi*f/10^6, and it is non-zero when X is |
| UsbTx.Offset | src/main.c:279-280 | how far one slot lies past another around the ring, always below the ring size |
| UsbTx.Next | src/main.c:279-280 | one step of the write index: increment, and back to 0 on reaching the buffer size (definition) |
| UsbTx.Advance | src/main.c:276-281 | the write index after k steps stays below the buffer size |
| UsbTx.ModSucc | src/main.c:279-280 | incrementing the index and resetting it to 0 at the buffer size is the same as adding one modulo the size |
| UsbTx.AdvanceIsMod | src/main.c:276-281 | after k steps from p the write index is (p + k) mod size |
| UsbTx.RingWrite | src/main.c:276-281 | writing bytes into the ring keeps its size |
| UsbTx.RingWriteStep | src/main.c:278 | one more byte is stored at the slot the write index has reached |
| UsbTx.RingWriteLands | src/main.c:276-281 | byte j ends up at slot (p0 + j) mod size, provided fewer than size bytes follow it |
| UsbTx.RingWriteUntouched | src/main.c:276-281 | a slot not reached by the bytes keeps its old contents |
| UsbTx.TxRing.constructor | src/main.c:54-57 | a ring of the given positive size, every slot zero (as a C static starts), written from slot 0 |
| UsbTx.TxRing.Put | src/main.c:278-280 | one pass of the loop: stores the byte at the write index, changes no other slot, and steps the index with the wrap |
| UsbTx.TxRing.Send | src/main.c:272-283 | returns len; the write index stays below the buffer size and ends at (p0 + len) mod size; the buffer holds the old contents with data[0..len) written from p0 around the ring |

## Left out

- Floating point. `double` and `float` are exact reals, so the model has
  no rounding, no NaN and no infinities. This covers the `float` storage
  of the weight table and the `(float)` casts in the window formula.
  `M_PI` is the real literal 3.14159265358979323846.
- Goertzel.BinIndex: C converts `0.5 + N*f/fs` to a 32-bit `int`, which
  is undefined from 2^31 on; the model returns the unbounded floor. The
  firmware's only call (110 samples, 59659 Hz, 218750 Hz) gives 30.
- Goertzel.Detector.Init: requires a block size above zero. With N = 0 the
  C code divides 0 by 0 and stores NaN coefficients, which exact reals
  cannot express; the firmware always passes SAMPLE_BLOCK_SIZE.
- Impedance.CalcLs, Impedance.CalcCs: they require a positive frequency;
  the firmware always passes MEASUREMENT_FREQ (src/main.c:139-140). In C,
  at a frequency of zero CalcLs divides by zero: a non-zero X gives an
  infinity that the clamp turns into +LIMIT_MAX_L, and X = 0 gives NaN,
  which passes the clamp. CalcCs at a frequency of zero returns the finite
  -LIMIT_MAX_C: the quotient at src/main.c:370 is an infinity, and the
  clamp at src/main.c:374-375 replaces it. Exact reals cannot express the
  intermediate infinity or NaN.
- Windowing.Window.Calc: requires every weight in use to lie in [0, 1].
  This holds after Init with a cosine bounded by 1. An out-of-range weight
  would make the `(uint16_t)` conversion wrap or be undefined; that case
  is not modelled.
- Windowing: the Hamming and Blackman branches of `Windowing_Init` are
  compiled out and are not modelled.
- Goertzel: that the output is the DFT coefficient of the bin, i.e. its
  magnitude, needs trigonometric identities for sin and cos, which are
  parameters here. The registers are proved to be a convolution with the
  impulse response instead.
- Impedance.Measure: the `Sample_Take` call at its head is not modelled.
  The two sampled blocks are its inputs.
- Impedance.MeasureZ: the eight `(vr, vm)` pairs that `Measure` would
  produce are given as an input sequence.
- The null checks on output pointers (`if (pZ)` and the like). Results
  are returned instead.
- UsbTx.TxRing.Send: `data` is `char[]` in C. It is modelled as bytes,
  which is what the buffer stores. `APP_RX_DATA_SIZE` is defined by the
  USB driver, which is not part of this model, so it is the ring's size
  given to the constructor. The USB driver that drains the buffer is not
  modelled either.
- Sample_Init and Sample_Take: the ADC, DMA, RCC and GPIO configuration,
  the busy wait on the DMA flag and `LowNoiseContext`. Only the unpack
  loop and the block-size static are modelled.
- src/complex.c (`CAbs`, `CSqrt`, `Rect2Polar`, and so on) is not part of
  this model. Those functions wrap libm and are used only to format the
  report.
- src/siggen.c is not part of this model. It is timer, DAC and DMA
  set-up for the test signal.
- The rest of main.c is not part of this model: the main loop, USB set-up,
  LEDs, `sprintf` reporting, `CheckButton`, `Delay`,
  `TimingDelay_Decrement`, `MeasureVector` and the audio callbacks.
- `MAX_Z_MAG` and `LIMIT_MIN_R` are defined in main.c but no modelled
  code uses them.
