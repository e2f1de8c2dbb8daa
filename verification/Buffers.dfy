/** Index arithmetic on buffers: windows, channels, and linear resampling over the reals. */
module Buffers {
  import opened Basics

  datatype Error = NegativeCount | OutOfRange | BadChannelCount | BadChannel | EmptySource | OverLimit

  /** A builtin's answer: a buffer, an error, or a buffer object whose count is negative. */
  datatype Result = Ok(data: seq<real>) | Err(error: Error) | Negative(count: int)

  // ---- Windows ----

  const MIN64: int := -0x8000_0000_0000_0000
  const MAX64: int := 0x7FFF_FFFF_FFFF_FFFF
  const MAX32: int := 0x7FFF_FFFF

  /** What a 64-bit register keeps of `x`. */
  function Wrap64(x: int): (r: int)
    ensures MIN64 <= r <= MAX64
  {
    (x - MIN64) % 0x1_0000_0000_0000_0000 + MIN64
  }

  /** The check as it is computed, in 64 bits. */
  predicate WindowAccepted(offset: int, count: int, length: nat) {
    !(offset < 0 || offset > Wrap64(length - count))
  }

  /** The same check with the sum in place of the difference. */
  predicate SumAccepted(offset: int, count: int, length: nat) {
    !(offset < 0 || Wrap64(offset + count) > length)
  }

  predicate Inside(offset: int, count: int, length: nat) {
    0 <= offset && offset + count <= length
  }

  /** The check accepts exactly the windows inside the buffer, for all 64-bit offsets and counts. */
  lemma WindowAcceptedIffInside(offset: int, count: int, length: nat)
    requires MIN64 <= offset <= MAX64 && 0 <= count <= MAX64 && length <= MAX32
    ensures WindowAccepted(offset, count, length) <==> Inside(offset, count, length)
  {
  }

  /** The sum in place of the difference accepts a window outside exactly when it wraps. */
  lemma SumAcceptedOutsideIffWrapped(offset: int, count: int, length: nat)
    requires MIN64 <= offset <= MAX64 && 0 <= count <= MAX64 && length <= MAX32
    ensures SumAccepted(offset, count, length) && !Inside(offset, count, length) <==>
      offset >= 0 && offset + count > MAX64
  {
  }

  function Copied(dst: seq<real>, at: nat, part: seq<real>): seq<real>
    requires at + |part| <= |dst|
  {
    dst[..at] + part + dst[at + |part|..]
  }

  /** buf_copy: both windows are checked before anything moves, and the buffers may be one. */
  method BufCopy(src: array<real>, srcOffset: int, dst: array<real>, dstOffset: int, count: int)
    returns (error: Option<Error>)
    requires src.Length <= MAX32 && dst.Length <= MAX32
    requires MIN64 <= srcOffset <= MAX64 && MIN64 <= dstOffset <= MAX64 && MIN64 <= count <= MAX64
    modifies dst
    ensures error == if count < 0 then Some(NegativeCount)
                     else if Inside(srcOffset, count, src.Length) && Inside(dstOffset, count, dst.Length) then None
                     else Some(OutOfRange)
    ensures error.Some? ==> dst[..] == old(dst[..])
    ensures error.None? ==> dst[..] == Copied(old(dst[..]), dstOffset, old(src[srcOffset..srcOffset + count]))
  {
    if count < 0 { return Some(NegativeCount); }
    WindowAcceptedIffInside(srcOffset, count, src.Length);
    WindowAcceptedIffInside(dstOffset, count, dst.Length);
    if !WindowAccepted(srcOffset, count, src.Length) || !WindowAccepted(dstOffset, count, dst.Length) {
      return Some(OutOfRange);
    }
    forall i | 0 <= i < count {
      dst[dstOffset + i] := src[srcOffset + i];
    }
    return None;
  }

  // ---- Channels ----

  /** How many samples of `channel` there are among `n`. */
  function Available(n: nat, channel: nat, nch: nat): nat
    requires nch >= 1
  {
    if channel < n then (n - channel + nch - 1) / nch else 0
  }

  lemma Division(x: nat, d: nat)
    requires d >= 1
    ensures (x / d) * d <= x < (x / d) * d + d
  {
  }

  lemma MultiplesApart(i: nat, q: nat, d: nat)
    ensures i < q ==> i * d + d <= q * d
    ensures q <= i ==> q * d <= i * d
  {
    assert i * d + d == (i + 1) * d;
    if i < q {
      TimesMonotone(i + 1, q, d);
    } else {
      TimesMonotone(q, i, d);
    }
  }

  lemma TimesMonotone(x: nat, y: nat, d: nat)
    requires x <= y
    ensures x * d <= y * d
  {
  }

  /** Sample `i` of a channel is available exactly when it lies in the buffer. */
  lemma AvailableIffInside(n: nat, channel: nat, nch: nat, i: nat)
    requires nch >= 1
    ensures i < Available(n, channel, nch) <==> channel + i * nch < n
  {
    TimesMonotone(0, i, nch);
    if channel < n {
      var x := n - channel + nch - 1;
      Division(x, nch);
      MultiplesApart(i, x / nch, nch);
    }
  }

  function Sample(src: seq<real>, channel: nat, nch: nat, i: nat): real
    requires nch >= 1 && i < Available(|src|, channel, nch)
  {
    AvailableIffInside(|src|, channel, nch, i);
    assert i * nch >= 0;
    src[channel + i * nch]
  }

  /** The samples of a channel, in order. */
  function Channel(src: seq<real>, channel: nat, nch: nat): (c: seq<real>)
    requires nch >= 1
    ensures |c| == Available(|src|, channel, nch)
  {
    seq(Available(|src|, channel, nch),
      i requires 0 <= i < Available(|src|, channel, nch) => Sample(src, channel, nch, i))
  }

  /** C's division of integers: towards zero. */
  function Quotient(x: int, d: int): int
    requires d > 0
  {
    if x >= 0 then x / d else -((-x) / d)
  }

  /** The same count as it is computed, in 64 bits. */
  function Available64(n: nat, channel: nat, nch: nat): int
    requires nch >= 1
  {
    if channel < n then Quotient(Wrap64(n - channel + nch - 1), nch) else 0
  }

  lemma QuotientOfNegative(x: int, d: nat)
    requires x < 0 < d
    ensures Quotient(x, d) <= 0
  {
  }

  /** The count is exact exactly when the sum under the division does not wrap. */
  lemma CountExactIffNoWrap(n: nat, channel: nat, nch: nat)
    requires n <= MAX32 && channel < nch <= MAX64
    ensures Available64(n, channel, nch) == Available(n, channel, nch) <==>
      channel >= n || n - channel + nch - 1 <= MAX64
    ensures Available64(n, channel, nch) <= Available(n, channel, nch)
    ensures channel < n && n - channel + nch - 1 > MAX64 ==>
      Available64(n, channel, nch) <= 0 && Available(n, channel, nch) >= 1
  {
    AvailableIffInside(n, channel, nch, 0);
    hide Quotient;
    if channel < n && n - channel + nch - 1 > MAX64 {
      QuotientOfNegative(Wrap64(n - channel + nch - 1), nch);
    }
  }

  /** A channel count near 2^63: one sample is available, and the count comes out as -1. */
  lemma HugeChannelCount()
    ensures Available(2000, 0, 0x7FFF_FFFF_FFFF_FC00) == 1 && Available64(2000, 0, 0x7FFF_FFFF_FFFF_FC00) == -1
  {
  }

  /** The answer for a valid channel of which `available` samples are counted. */
  function Picked(src: seq<real>, channel: nat, nch: nat, available: int, count: Option<int>): Result
    requires nch >= 1 && available <= Available(|src|, channel, nch)
  {
    if count.Some? && count.value < 0 then Err(NegativeCount)
    else if count.Some? && count.value > available then Err(OutOfRange)
    else
      var take := if count.Some? then count.value else available;
      if take < 0 then Negative(take) else Ok(Channel(src, channel, nch)[..take])
  }

  /** What buf_deinterleave is meant to answer, and what it answers with the count of 64 bits. */
  function Deinterleaved(src: seq<real>, channel: int, nch: int, count: Option<int>, wraps: bool): Result
    requires |src| <= MAX32 && nch <= MAX64
  {
    if nch < 1 then Err(BadChannelCount)
    else if channel < 0 || channel >= nch then Err(BadChannel)
    else
      CountExactIffNoWrap(|src|, channel, nch);
      Picked(src, channel, nch,
             if wraps then Available64(|src|, channel, nch) else Available(|src|, channel, nch), count)
  }

  /** buf_deinterleave answers as it is meant to, whatever count it is asked for, exactly when the sum does not wrap. */
  lemma DeinterleavesIffNoWrap(src: seq<real>, channel: nat, nch: nat)
    requires |src| <= MAX32 && channel < nch <= MAX64
    ensures
      (forall count :: Deinterleaved(src, channel, nch, count, true) == Deinterleaved(src, channel, nch, count, false))
      <==> channel >= |src| || |src| - channel + nch - 1 <= MAX64
  {
    CountExactIffNoWrap(|src|, channel, nch);
    hide Available, Available64;
    if channel < |src| && |src| - channel + nch - 1 > MAX64 {
      var all, none := Deinterleaved(src, channel, nch, None, false), Deinterleaved(src, channel, nch, None, true);
      assert all.Ok? && |all.data| >= 1 && (none.Negative? || none == Ok([]));
    }
  }

  method Deinterleave(src: array<real>, channel: int, nch: int, count: Option<int>) returns (r: Result)
    requires src.Length <= MAX32 && MIN64 <= channel <= MAX64 && MIN64 <= nch <= MAX64
    ensures r == Deinterleaved(src[..], channel, nch, count, true)
  {
    if nch < 1 { return Err(BadChannelCount); }
    if channel < 0 || channel >= nch { return Err(BadChannel); }
    var n := src.Length;
    var avail := if channel < n then Quotient(Wrap64(n - channel + nch - 1), nch) else 0;
    CountExactIffNoWrap(n, channel, nch);
    var take := avail;
    if count.Some? {
      if count.value < 0 { return Err(NegativeCount); }
      take := count.value;
      if take > avail { return Err(OutOfRange); }
    }
    hide Available64, Quotient, Wrap64;
    if take < 0 { return Negative(take); }
    var data := Pick(src, channel, nch, take);
    return Ok(data);
  }

  /** The copying loop: the first `take` samples of the channel. */
  method Pick(src: array<real>, channel: nat, nch: nat, take: nat) returns (data: seq<real>)
    requires nch >= 1 && take <= Available(src.Length, channel, nch)
    ensures data == Channel(src[..], channel, nch)[..take]
  {
    ghost var all := Channel(src[..], channel, nch);
    hide Available;
    var out := new real[take];
    for i := 0 to take
      invariant out[..i] == all[..i]
    {
      AvailableIffInside(src.Length, channel, nch, i);
      assert i * nch >= 0;
      out[i] := src[channel + i * nch];
      assert out[i] == all[i];
    }
    data := out[..];
  }

  /** Every index is one sample of one channel, and no other sample of any. */
  lemma EveryIndexOnce(n: nat, nch: nat, k: nat, c: nat, i: nat)
    requires nch >= 1 && k < n && c < nch
    ensures i < Available(n, c, nch) && c + i * nch == k <==> c == k % nch && i == k / nch
  {
    AvailableIffInside(n, c, nch, i);
    if c + i * nch == k {
      DivisionIsUnique(k, nch, i, c);
    }
    assert k == (k / nch) * nch + k % nch;
  }

  /** All the channels of a buffer. */
  function Channels(src: seq<real>, nch: nat): (cs: seq<seq<real>>)
    requires nch >= 1
    ensures |cs| == nch && forall c :: 0 <= c < nch ==> cs[c] == Channel(src, c, nch)
  {
    seq(nch, c requires 0 <= c < nch => Channel(src, c, nch))
  }

  /** Frame by frame, one sample of each channel: sample i of channel c goes to c + i * nch. */
  predicate Interleaves(src: seq<real>, cs: seq<seq<real>>) {
    && |cs| >= 1
    && (forall c :: 0 <= c < |cs| ==> |cs[c]| == Available(|src|, c, |cs|))
    && (forall k :: 0 <= k < |src| && k / |cs| < |cs[k % |cs|]| ==> src[k] == cs[k % |cs|][k / |cs|])
  }

  /** The channels of a buffer, interleaved again, are that buffer and no other. */
  lemma ReinterleavingRestores(src: seq<real>, nch: nat, other: seq<real>)
    requires nch >= 1 && |other| == |src|
    ensures Interleaves(other, Channels(src, nch)) <==> other == src
  {
    var cs := Channels(src, nch);
    forall k | 0 <= k < |src| ensures k / nch < |cs[k % nch]| && cs[k % nch][k / nch] == src[k] {
      EveryIndexOnce(|src|, nch, k, k % nch, k / nch);
      assert cs[k % nch] == Channel(src, k % nch, nch);
      assert cs[k % nch][k / nch] == Sample(src, k % nch, nch, k / nch);
    }
  }

  /** The samples of the first `c` channels together. */
  function AvailableInAll(n: nat, nch: nat, c: nat): nat
    requires nch >= 1
  {
    if c == 0 then 0 else AvailableInAll(n, nch, c - 1) + Available(n, c - 1, nch)
  }

  lemma {:induction false} OneMoreSample(n: nat, nch: nat, c: nat)
    requires nch >= 1 && c <= nch
    ensures AvailableInAll(n + 1, nch, c) == AvailableInAll(n, nch, c) + if n % nch < c then 1 else 0
  {
    if c > 0 {
      OneMoreSample(n, nch, c - 1);
      OneMoreAvailable(n, nch, c - 1);
    }
  }

  /** The first sample that is not inside says how many are. */
  lemma FirstOutside(n: nat, c: nat, nch: nat, a: nat)
    requires nch >= 1 && c + a * nch >= n && (a > 0 ==> c + (a - 1) * nch < n)
    ensures Available(n, c, nch) == a
  {
    AvailableIffInside(n, c, nch, a);
    if a > 0 {
      AvailableIffInside(n, c, nch, a - 1);
    }
  }

  lemma OneMoreAvailable(n: nat, nch: nat, c: nat)
    requires nch >= 1 && c < nch
    ensures Available(n + 1, c, nch) == Available(n, c, nch) + if n % nch == c then 1 else 0
  {
    if n % nch == c {
      var q := n / nch;
      assert n == c + q * nch;
      assert (q + 1) * nch == q * nch + nch && (q - 1) * nch == q * nch - nch;
      hide Available;
      FirstOutside(n, c, nch, q);
      FirstOutside(n + 1, c, nch, q + 1);
    } else {
      var a := Available(n, c, nch);
      AvailableIffInside(n, c, nch, a);
      if a > 0 {
        AvailableIffInside(n, c, nch, a - 1);
      }
      hide Available;
      if c + a * nch == n {
        DivisionIsUnique(n, nch, a, c);
      }
      FirstOutside(n + 1, c, nch, a);
    }
  }

  /** The channels share the buffer out: no sample is lost or taken twice. */
  lemma {:induction false} ChannelsShareTheBuffer(n: nat, nch: nat)
    requires nch >= 1
    ensures AvailableInAll(n, nch, nch) == n
  {
    if n == 0 {
      NoneAvailable(nch, nch);
    } else {
      ChannelsShareTheBuffer(n - 1, nch);
      OneMoreSample(n - 1, nch, nch);
    }
  }

  lemma {:induction false} NoneAvailable(nch: nat, c: nat)
    requires nch >= 1
    ensures AvailableInAll(0, nch, c) == 0
  {
    if c > 0 {
      NoneAvailable(nch, c - 1);
    }
  }
}
