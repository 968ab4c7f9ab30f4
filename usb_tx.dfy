/** USB_Send (src/main.c): appending bytes to the circular transmit buffer
    of the USB CDC driver. The globals APP_Rx_Buffer and APP_Rx_ptr_in
    become the fields of a `TxRing`; the buffer's size APP_RX_DATA_SIZE,
    which the driver configuration defines, is a constructor argument. */
module UsbTx {
  import opened CTypes

  /** How far position q lies past position p going round a ring of n
      slots: the index j of the byte that lands in q when writing from p. */
  function Offset(p: int, q: int, n: int): (o: int)
    requires n > 0
    ensures 0 <= o < n
  {
    (q - p) % n
  }

  /** One step of the write index: `if (++i == size) i = 0`. */
  function Next(i: int, n: int): int
  {
    if i + 1 == n then 0 else i + 1
  }

  /** The write index after k steps from p. */
  function Advance(p: int, k: nat, n: int): (r: int)
    requires 0 <= p < n
    ensures 0 <= r < n
    decreases k
  {
    if k == 0 then p else Next(Advance(p, k - 1, n), n)
  }

  /** k steps of the wrapping index land on (p + k) mod n. */
  lemma {:induction false} AdvanceIsMod(p: int, k: nat, n: int)
    requires 0 <= p < n
    ensures Advance(p, k, n) == (p + k) % n
    decreases k
  {
    if k == 0 {
      DivModUnique(p, n, 0, p);
    } else {
      AdvanceIsMod(p, k - 1, n);
      ModSucc(p + k - 1, n);
    }
  }

  /** The ring `buf` after writing `d` one byte at a time from position p,
      the index stepping as USB_Send steps it. */
  function RingWrite(buf: seq<u8>, p: int, d: seq<u8>): (r: seq<u8>)
    requires 0 <= p < |buf|
    ensures |r| == |buf|
    decreases |d|
  {
    if d == [] then buf
    else RingWrite(buf, p, d[..|d| - 1])[Advance(p, |d| - 1, |buf|) := d[|d| - 1]]
  }

  /** Writing one more byte x stores it where the index has got to. */
  lemma RingWriteStep(buf: seq<u8>, p: int, d: seq<u8>, x: u8)
    requires 0 <= p < |buf|
    ensures RingWrite(buf, p, d + [x]) == RingWrite(buf, p, d)[Advance(p, |d|, |buf|) := x]
  {
    assert (d + [x])[..|d|] == d;
  }

  lemma MulAtLeast(k: int, n: int)
    requires k >= 1 && n > 0
    ensures k * n >= n
  {
    assert k * n == (k - 1) * n + n;
    assert (k - 1) * n >= 0;
  }

  /** Quotient and remainder are the only ones of their kind. */
  lemma DivModUnique(a: int, n: int, q: int, r: int)
    requires n > 0 && 0 <= r < n && a == q * n + r
    ensures a % n == r && a / n == q
  {
    var y, s := a / n, a % n;
    assert a == y * n + s;
    assert q * n - y * n == (q - y) * n;
    if q - y >= 1 {
      MulAtLeast(q - y, n);
    } else if y - q >= 1 {
      MulAtLeast(y - q, n);
    }
  }

  /** Two positions fewer than n apart are different slots of the ring. */
  lemma ModDistinct(a: int, k: int, n: int)
    requires 0 < k < n
    ensures (a + k) % n != a % n
  {
    var y, s := a / n, a % n;
    assert a == y * n + s;
    if s + k < n {
      DivModUnique(a + k, n, y, s + k);
    } else {
      assert a + k == (y + 1) * n + (s + k - n);
      DivModUnique(a + k, n, y + 1, s + k - n);
    }
  }

  /** The slot p + k is k slots past p, for k below the ring size. */
  lemma OffsetOfShift(p: int, k: int, n: int)
    requires 0 <= k < n
    ensures Offset(p, (p + k) % n, n) == k
  {
    var t, r := (p + k) / n, (p + k) % n;
    assert p + k == t * n + r;
    assert r - p == (-t) * n + k;
    DivModUnique(r - p, n, -t, k);
  }

  /** Advancing by one slot with the explicit wrap of USB_Send. */
  lemma ModSucc(a: int, n: int)
    requires n > 0
    ensures (if a % n + 1 == n then 0 else a % n + 1) == (a + 1) % n
  {
    var y, s := a / n, a % n;
    assert a == y * n + s;
    if s + 1 == n {
      assert a + 1 == (y + 1) * n + 0;
      DivModUnique(a + 1, n, y + 1, 0);
    } else {
      DivModUnique(a + 1, n, y, s + 1);
    }
  }

  /** Byte j of d ends up j slots past p, provided fewer than |buf| bytes
      were written after it: earlier bytes are overwritten once the ring
      fills. */
  lemma {:induction false} RingWriteLands(buf: seq<u8>, p: int, d: seq<u8>, j: int)
    requires 0 <= p < |buf|
    requires 0 <= j < |d| && |d| - j <= |buf|
    ensures RingWrite(buf, p, d)[(p + j) % |buf|] == d[j]
    decreases |d|
  {
    var n := |buf|;
    AdvanceIsMod(p, |d| - 1, n);
    if j < |d| - 1 {
      RingWriteLands(buf, p, d[..|d| - 1], j);
      ModDistinct(p + j, |d| - 1 - j, n);
      assert p + j + (|d| - 1 - j) == p + |d| - 1;
    }
  }

  /** A slot at least |d| past p is not written. */
  lemma {:induction false} RingWriteUntouched(buf: seq<u8>, p: int, d: seq<u8>, q: int)
    requires 0 <= p < |buf| && 0 <= q < |buf|
    requires Offset(p, q, |buf|) >= |d|
    ensures RingWrite(buf, p, d)[q] == buf[q]
    decreases |d|
  {
    if d != [] {
      RingWriteUntouched(buf, p, d[..|d| - 1], q);
      AdvanceIsMod(p, |d| - 1, |buf|);
      OffsetOfShift(p, |d| - 1, |buf|);
    }
  }

  /** APP_Rx_Buffer and APP_Rx_ptr_in. */
  class TxRing {
    const buffer: array<u8>
    var ptrIn: int

    ghost predicate Valid()
      reads this
    {
      0 <= ptrIn < buffer.Length
    }

    /** An empty ring of `size` bytes, written from slot 0. */
    constructor (size: nat)
      requires size > 0
      ensures Valid() && buffer.Length == size && ptrIn == 0 && fresh(buffer)
      ensures buffer[..] == seq(size, _ => 0)
    {
      buffer := new u8[size](_ => 0);
      ptrIn := 0;
    }

    /** The body of USB_Send's loop: stores one byte at the write index
        and steps the index, wrapping at the end of the buffer. */
    method Put(x: u8)
      requires Valid()
      modifies this`ptrIn, buffer
      ensures Valid() && ptrIn == Next(old(ptrIn), buffer.Length)
      ensures buffer[..] == old(buffer[..])[old(ptrIn) := x]
    {
      buffer[ptrIn] := x;
      ptrIn := ptrIn + 1;
      if ptrIn == buffer.Length {
        ptrIn := 0;
      }
    }

    /** USB_Send: writes the first len bytes of data from the write index
        on, wrapping at the end of the buffer, advances the index past them
        and returns len. */
    method Send(data: seq<u8>, len: u8) returns (n: int)
      requires Valid() && len as int <= |data|
      modifies this`ptrIn, buffer
      ensures Valid() && n == len as int
      ensures ptrIn == (old(ptrIn) + len as int) % buffer.Length
      ensures buffer[..] == RingWrite(old(buffer[..]), old(ptrIn), data[..len])
    {
      ghost var b0, p0 := buffer[..], ptrIn;
      var i: int := 0;
      while i < len as int
        invariant 0 <= i <= len as int && Valid() && |b0| == buffer.Length
        invariant ptrIn == Advance(p0, i, buffer.Length)
        invariant buffer[..] == RingWrite(b0, p0, data[..i])
      {
        ghost var written := data[..i];
        RingWriteStep(b0, p0, written, data[i]);
        assert data[..i + 1] == written + [data[i]];
        Put(data[i]);
        i := i + 1;
      }
      AdvanceIsMod(p0, len as int, buffer.Length);
      n := len as int;
    }
  }
}
