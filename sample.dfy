/** The sampler's configuration (src/sample.h) and the last step of
    Sample_Take (src/sample.c): splitting the words the two ADCs wrote in
    dual mode into one block per channel. The DMA transfer itself is not
    modelled; the words it leaves behind are the input. */
module Sampling {
  import opened CTypes

  const SamplingRate: u32 := 218750
  const MeasurementFreq: u32 := 59659
  const SampleBlockSize: u16 := 110
  /** Words at the head of the transfer that are thrown away. */
  const SampleDummyReads: nat := 1

  /** `w & 0xffff`: the ADC1 half of a dual-mode word. */
  function Lo(w: u32): u16
  {
    w % 0x1_0000
  }

  /** `w >> 16`: the ADC2 half of a dual-mode word. */
  function Hi(w: u32): u16
  {
    w / 0x1_0000
  }

  /** The word whose halves are `hi` and `lo`. */
  function Join(hi: u16, lo: u16): (w: u32)
    ensures w / 0x1_0000 == hi && w % 0x1_0000 == lo
  {
    hi * 0x1_0000 + lo
  }

  /** Splitting loses nothing: the halves put back together give the word. */
  lemma SplitJoin(w: u32)
    ensures Join(Hi(w), Lo(w)) == w
  {
  }

  /** Joining loses nothing: splitting the joined word gives the halves. */
  lemma JoinSplit(hi: u16, lo: u16)
    ensures Hi(Join(hi, lo)) == hi && Lo(Join(hi, lo)) == lo
  {
  }

  /** The ADC1 block carried by the words `ws`. */
  function LowHalves(ws: seq<u32>): (r: seq<u16>)
    ensures |r| == |ws|
  {
    seq(|ws|, i requires 0 <= i < |ws| => Lo(ws[i]))
  }

  /** The ADC2 block carried by the words `ws`. */
  function HighHalves(ws: seq<u32>): (r: seq<u16>)
    ensures |r| == |ws|
  {
    seq(|ws|, i requires 0 <= i < |ws| => Hi(ws[i]))
  }

  /** The words formed from two equally long channel blocks. */
  function Interleave(hs: seq<u16>, ls: seq<u16>): (r: seq<u32>)
    requires |hs| == |ls|
    ensures |r| == |hs|
  {
    seq(|hs|, i requires 0 <= i < |hs| => Join(hs[i], ls[i]))
  }

  /** The two channel blocks together carry exactly the words they came
      from. */
  lemma DeinterleaveRoundTrip(ws: seq<u32>)
    ensures Interleave(HighHalves(ws), LowHalves(ws)) == ws
  {
    forall i | 0 <= i < |ws|
      ensures Interleave(HighHalves(ws), LowHalves(ws))[i] == ws[i]
    {
      SplitJoin(ws[i]);
    }
  }

  /** The words carry exactly the channel blocks they were formed from. */
  lemma InterleaveRoundTrip(hs: seq<u16>, ls: seq<u16>)
    requires |hs| == |ls|
    ensures HighHalves(Interleave(hs, ls)) == hs
    ensures LowHalves(Interleave(hs, ls)) == ls
  {
    forall i | 0 <= i < |hs|
      ensures HighHalves(Interleave(hs, ls))[i] == hs[i]
      ensures LowHalves(Interleave(hs, ls))[i] == ls[i]
    {
      JoinSplit(hs[i], ls[i]);
    }
  }

  /** The module static gu16BlockSize of src/sample.c. */
  class Sampler {
    var blockSize: u16

    constructor ()
      ensures blockSize == 0
    {
      blockSize := 0;
    }

    /** The part of Sample_Init that is not peripheral set-up. */
    method Init(n: u16)
      modifies this
      ensures blockSize == n
    {
      blockSize := n;
    }

    /** The de-interleaving loop at the end of Sample_Take. `words` is the
        DMA buffer, sized for the largest block plus the dummy reads. The
        first SampleDummyReads words never reach a channel, and exactly
        `blockSize` entries of each channel are written. */
    method Unpack(words: array<u32>, ch1: array<u16>, ch2: array<u16>)
      requires words.Length == SampleBlockSize as int + SampleDummyReads
      requires blockSize <= SampleBlockSize
      requires blockSize as int <= ch1.Length && blockSize as int <= ch2.Length
      requires ch1 != ch2
      modifies ch1, ch2
      ensures ch1[..blockSize] == LowHalves(words[SampleDummyReads..SampleDummyReads + blockSize as int])
      ensures ch2[..blockSize] == HighHalves(words[SampleDummyReads..SampleDummyReads + blockSize as int])
      ensures ch1[blockSize..] == old(ch1[blockSize..]) && ch2[blockSize..] == old(ch2[blockSize..])
    {
      for i := 0 to blockSize
        invariant forall j :: 0 <= j < i ==> ch1[j] == Lo(words[j + SampleDummyReads])
        invariant forall j :: 0 <= j < i ==> ch2[j] == Hi(words[j + SampleDummyReads])
        invariant ch1[blockSize..] == old(ch1[blockSize..]) && ch2[blockSize..] == old(ch2[blockSize..])
      {
        ch1[i] := words[i + SampleDummyReads] % 0x1_0000;
        ch2[i] := words[i + SampleDummyReads] / 0x1_0000;
      }
    }
  }

  /** After Unpack, each pair of channel samples rebuilds the word it came
      from: `ch2[i]*65536 + ch1[i]` is word `i + SampleDummyReads`. */
  lemma UnpackRoundTrip(words: seq<u32>, n: nat, ch1: seq<u16>, ch2: seq<u16>)
    requires SampleDummyReads + n <= |words|
    requires ch1 == LowHalves(words[SampleDummyReads..SampleDummyReads + n])
    requires ch2 == HighHalves(words[SampleDummyReads..SampleDummyReads + n])
    ensures forall i :: 0 <= i < n ==> ch2[i] as int * 0x1_0000 + ch1[i] as int == words[i + SampleDummyReads]
  {
    forall i | 0 <= i < n
      ensures ch2[i] as int * 0x1_0000 + ch1[i] as int == words[i + SampleDummyReads]
    {
      SplitJoin(words[i + SampleDummyReads]);
    }
  }
}
