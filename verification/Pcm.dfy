/** From decoder samples to what the sound device gets: rounding and interleaving
    (common/libmad.c) and the volume pass (common/snd.c). */
module Pcm {
  import opened Arithmetic
  import DecodeGate

  const INT16_MIN: int := -0x8000
  const INT16_MAX: int := 0x7FFF

  predicate IsInt16(x: int) {
    INT16_MIN <= x <= INT16_MAX
  }

  predicate IsInt32(x: int) {
    -0x8000_0000 <= x < 0x8000_0000
  }

  /** Two's-complement truncation. */
  function Int16(x: int): (r: int)
    ensures IsInt16(r)
  {
    var m := x % 0x1_0000;
    if m < 0x8000 then m else m - 0x1_0000
  }

  function Int32(x: int): (r: int)
    ensures IsInt32(r)
  {
    var m := x % 0x1_0000_0000;
    if m < 0x8000_0000 then m else m - 0x1_0000_0000
  }

  function Abs(x: int): nat {
    if x < 0 then -x else x
  }

  function Pow2(n: nat): (r: int)
    ensures r > 0
  {
    if n == 0 then 1 else 2 * Pow2(n - 1)
  }

  // ---------------------------------------------------------------- quantisation

  /** `scale` for a fixed-point format with the given number of fraction bits. */
  function Scale(sample: int, fracbits: nat): int
    requires 16 <= fracbits
  {
    var one := Pow2(fracbits);
    var rounded := Int32(sample + Pow2(fracbits - 16));
    var clipped := if rounded >= one then one - 1 else if rounded < -one then -one else rounded;
    clipped / Pow2(fracbits + 1 - 16)
  }

  lemma Doubled(p: int, q: int)
    ensures p * (2 * q) == 2 * (p * q)
  {
  }

  lemma {:induction false} Pow2Add(a: nat, b: nat)
    ensures Pow2(a + b) == Pow2(a) * Pow2(b)
  {
    if b != 0 {
      var p, q, sum := Pow2(a), Pow2(b - 1), Pow2(a + (b - 1));
      assert sum == p * q by {
        Pow2Add(a, b - 1);
      }
      Doubled(p, q);
      assert Pow2(b) == 2 * q && Pow2(a + b) == 2 * sum;
    }
  }

  lemma Pow2Monotone(a: nat, b: nat)
    requires a <= b
    ensures Pow2(a) <= Pow2(b)
  {
    Pow2Add(a, b - a);
    assert Pow2(a) * Pow2(b - a) >= Pow2(a);
  }

  /** One output step is 2^(fracbits-15), full scale is 32768 steps, and the rounding constant is
      half a step. */
  lemma Weights(fracbits: nat)
    requires 16 <= fracbits
    ensures Pow2(fracbits - 15) == 2 * Pow2(fracbits - 16)
    ensures Pow2(fracbits) == 0x8000 * Pow2(fracbits - 15)
  {
    Pow2Add(fracbits - 15, 15);
    Pow2FifteenIs();
  }

  lemma Pow2FifteenIs()
    ensures Pow2(15) == 0x8000
  {
    assert Pow2(5) == 32;
    Pow2Add(5, 5);
    Pow2Add(10, 5);
  }

  /** No 16-bit output is closer to the sample than `r`, and a tie goes to the larger one. */
  ghost predicate Nearest(sample: int, step: int, r: int) {
    && IsInt16(r)
    && forall q: int {:trigger q * step} :: IsInt16(q) ==>
         && Abs(r * step - sample) <= Abs(q * step - sample)
         && (Abs(r * step - sample) == Abs(q * step - sample) ==> q <= r)
  }

  /** The quotient of the clipped value, described without division. */
  lemma ScaleBounds(sample: int, step: int, half: int, r: int)
    requires half > 0 && step == 2 * half && IsInt16(r)
    requires r == INT16_MAX || sample + half < r * step + step
    requires r == INT16_MIN || r * step <= sample + half
    ensures Nearest(sample, step, r)
  {
    forall q: int {:trigger q * step} | IsInt16(q)
      ensures Abs(r * step - sample) <= Abs(q * step - sample)
      ensures Abs(r * step - sample) == Abs(q * step - sample) ==> q <= r
    {
      MulOrder(q, r, step);
      MulOrder(r, q, step);
    }
  }

  lemma Int32Wraps(x: int)
    requires 0x8000_0000 <= x < 0x1_0000_0000
    ensures Int32(x) == x - 0x1_0000_0000
  {
  }

  lemma ScaleOverflows(sample: int, fracbits: nat)
    requires 16 <= fracbits <= 30 && IsInt32(sample) && !IsInt32(sample + Pow2(fracbits - 16))
    ensures Scale(sample, fracbits) == INT16_MIN
    ensures sample > INT16_MAX * Pow2(fracbits - 15)
  {
    Weights(fracbits);
    Pow2Monotone(fracbits - 16, 14);
    Pow2Monotone(fracbits, 30);
    Pow2Bounds();
    var half, step, one := Pow2(fracbits - 16), Pow2(fracbits - 15), Pow2(fracbits);
    Int32Wraps(sample + half);
    assert Int32(sample + half) < -one && -one == -0x8000 * step;
    Exact(-0x8000, step);
  }

  /** As long as adding the rounding constant does not overflow, the result is the nearest 16-bit
      value, saturating at both ends; when it overflows, it is not. */
  lemma ScaleNearestIff(sample: int, fracbits: nat)
    requires 16 <= fracbits <= 30 && IsInt32(sample)
    ensures Nearest(sample, Pow2(fracbits - 15), Scale(sample, fracbits))
            <==> IsInt32(sample + Pow2(fracbits - 16))
  {
    var step := Pow2(fracbits - 15);
    Weights(fracbits);
    if IsInt32(sample + Pow2(fracbits - 16)) {
      ScaleInRange(sample, fracbits);
      ScaleBounds(sample, step, Pow2(fracbits - 16), Scale(sample, fracbits));
    } else {
      ScaleOverflows(sample, fracbits);
      assert IsInt16(INT16_MAX);
      assert Abs(INT16_MAX * step - sample) < Abs(INT16_MIN * step - sample);
    }
  }

  lemma Pow2Bounds()
    ensures Pow2(14) == 0x4000 && Pow2(30) == 0x4000_0000
  {
    Pow2FifteenIs();
    Pow2Add(15, 15);
  }

  lemma QuotientRange(c: int, step: int)
    requires step > 0 && -0x8000 * step <= c < 0x8000 * step
    ensures IsInt16(c / step) && (c / step) * step <= c < (c / step) * step + step
  {
    FloorBounds(c, step);
    MulOrder(0x8000, c / step, step);
    MulOrder(c / step, -0x8001, step);
  }

  lemma ScaleInRange(sample: int, fracbits: nat)
    requires 16 <= fracbits && IsInt32(sample + Pow2(fracbits - 16))
    ensures var r, step := Scale(sample, fracbits), Pow2(fracbits - 15);
            var half := Pow2(fracbits - 16);
            && IsInt16(r)
            && (r == INT16_MAX || sample + half < r * step + step)
            && (r == INT16_MIN || r * step <= sample + half)
  {
    Weights(fracbits);
    var one, step := Pow2(fracbits), Pow2(fracbits - 15);
    var rounded := sample + Pow2(fracbits - 16);
    var r := Scale(sample, fracbits);
    if rounded >= one {
      assert r == (one - 1) / step;
      QuotientRange(one - 1, step);
      MulOrder(r, 0x7FFE, step);
    } else if rounded < -one {
      assert r == (-one) / step;
      QuotientRange(-one, step);
      MulOrder(-0x7FFF, r, step);
    } else {
      assert r == rounded / step;
      QuotientRange(rounded, step);
    }
  }

  lemma ScaleMonotone(a: int, b: int, fracbits: nat)
    requires 16 <= fracbits && a <= b
    requires IsInt32(a + Pow2(fracbits - 16)) && IsInt32(b + Pow2(fracbits - 16))
    ensures Scale(a, fracbits) <= Scale(b, fracbits)
  {
    var half, step := Pow2(fracbits - 16), Pow2(fracbits - 15);
    ScaleInRange(a, fracbits);
    ScaleInRange(b, fracbits);
    MulOrder(Scale(b, fracbits), Scale(a, fracbits), step);
  }

  lemma ScaleIsInt16(sample: int, fracbits: nat)
    requires 16 <= fracbits
    ensures IsInt16(Scale(sample, fracbits))
  {
    Weights(fracbits);
    var r, step := Scale(sample, fracbits), Pow2(fracbits - 15);
    var one, rounded := Pow2(fracbits), Int32(sample + Pow2(fracbits - 16));
    var clipped := if rounded >= one then one - 1 else if rounded < -one then -one else rounded;
    FloorBounds(clipped, step);
    MulOrder(0x8000, r, step);
    MulOrder(r, -0x8001, step);
  }

  // ---------------------------------------------------------------- the output buffer

  function Low(s: int): int {
    s % 256
  }

  function High(s: int): int {
    (s / 256) % 256
  }

  /** The 16-bit little-endian number in two bytes. */
  function Decode(lo: int, hi: int): int {
    Int16(lo + 256 * hi)
  }

  lemma BytesRoundTrip(s: int)
    requires IsInt16(s)
    ensures Decode(Low(s), High(s)) == s
  {
    var q, low := s / 256, s % 256;
    assert s == 256 * q + low && -128 <= q < 128;
    if s < 0 {
      assert High(s) == q + 256;
      Int16Wraps(low + 256 * High(s));
    } else {
      assert High(s) == q;
    }
  }

  lemma Int16Wraps(x: int)
    requires 0x8000 <= x < 0x1_0000
    ensures Int16(x) == x - 0x1_0000
  {
  }

  /** Samples in time order, left before right. */
  function Stereo(left: seq<int>, right: seq<int>): (r: seq<int>)
    requires |left| == |right|
    ensures |r| == 2 * |left|
  {
    if left == [] then []
    else
      var n := |left| - 1;
      Stereo(left[..n], right[..n]) + [left[n], right[n]]
  }

  lemma {:induction false} StereoAt(left: seq<int>, right: seq<int>, k: nat)
    requires k < |left| == |right|
    ensures Stereo(left, right)[2 * k] == left[k] && Stereo(left, right)[2 * k + 1] == right[k]
  {
    var n := |left| - 1;
    if k < n {
      StereoAt(left[..n], right[..n], k);
    }
  }

  /** The numbers in a byte buffer. */
  function Decoded(bytes: seq<int>): seq<int> {
    if |bytes| < 2 then []
    else Decoded(bytes[..|bytes| - 2]) + [Decode(bytes[|bytes| - 2], bytes[|bytes| - 1])]
  }

  function Quantised(samples: seq<int>, fracbits: nat): seq<int>
    requires 16 <= fracbits
  {
    if samples == [] then []
    else Quantised(samples[..|samples| - 1], fracbits) + [Scale(samples[|samples| - 1], fracbits)]
  }

  /** Two bytes stand for the number whose low byte is the first, in two's complement. */
  lemma DecodeIs(lo: int, hi: int)
    requires 0 <= lo < 256 && 0 <= hi < 256
    ensures IsInt16(Decode(lo, hi))
    ensures lo + 256 * hi == if Decode(lo, hi) < 0 then Decode(lo, hi) + 0x1_0000 else Decode(lo, hi)
  {
  }

  lemma {:induction false} DecodedAt(bytes: seq<int>, k: nat)
    requires |bytes| % 2 == 0 && 2 * k < |bytes|
    ensures 2 * |Decoded(bytes)| == |bytes|
    ensures Decoded(bytes)[k] == Decode(bytes[2 * k], bytes[2 * k + 1])
  {
    var before := bytes[..|bytes| - 2];
    if |before| > 0 {
      DecodedAt(before, if 2 * k < |before| then k else 0);
    } else {
      assert Decoded(before) == [];
    }
  }

  lemma {:induction false} QuantisedAt(samples: seq<int>, fracbits: nat, k: nat)
    requires 16 <= fracbits && k < |samples|
    ensures |Quantised(samples, fracbits)| == |samples|
    ensures Quantised(samples, fracbits)[k] == Scale(samples[k], fracbits)
  {
    var before := samples[..|samples| - 1];
    if before != [] {
      QuantisedAt(before, fracbits, if k < |before| then k else 0);
    }
  }

  /** The 16-bit number at the `k`th place of a buffer. */
  function SampleAt(data: seq<int>, k: nat): int
    requires 2 * k + 2 <= |data|
  {
    Decode(data[2 * k], data[2 * k + 1])
  }

  /** The `n`th sample of each channel stands, quantised, in its place. */
  predicate HoldsAt(data: seq<int>, left: seq<int>, right: seq<int>, stereo: bool, fracbits: nat, n: nat)
    requires 16 <= fracbits && (stereo ==> |right| == |left|) && n < |left|
    requires |data| >= if stereo then 4 * |left| else 2 * |left|
  {
    if stereo then
      SampleAt(data, 2 * n) == Scale(left[n], fracbits) && SampleAt(data, 2 * n + 1) == Scale(right[n], fracbits)
    else SampleAt(data, n) == Scale(left[n], fracbits)
  }

  predicate Holds(data: seq<int>, left: seq<int>, right: seq<int>, stereo: bool, fracbits: nat)
    requires 16 <= fracbits && (stereo ==> |right| == |left|)
    requires |data| >= if stereo then 4 * |left| else 2 * |left|
  {
    forall n :: 0 <= n < |left| ==> HoldsAt(data, left, right, stereo, fracbits, n)
  }

  lemma SampleIs(bytes: seq<int>, samples: seq<int>, fracbits: nat, k: nat)
    requires 16 <= fracbits && |bytes| == 2 * |samples| && k < |samples|
    requires Decoded(bytes) == Quantised(samples, fracbits)
    ensures SampleAt(bytes, k) == Scale(samples[k], fracbits)
  {
    DecodedAt(bytes, k);
    QuantisedAt(samples, fracbits, k);
  }

  lemma OutputHolds(data: seq<int>, used: nat, left: seq<int>, right: seq<int>, stereo: bool, fracbits: nat)
    requires 16 <= fracbits && (stereo ==> |right| == |left|) && used <= |data|
    requires used == if stereo then 4 * |left| else 2 * |left|
    requires Decoded(data[..used]) == Quantised(Interleaved(left, right, stereo, |left|), fracbits)
    ensures Holds(data, left, right, stereo, fracbits)
  {
    var bytes, samples := data[..used], Interleaved(left, right, stereo, |left|);
    assert left[..|left|] == left;
    forall n | 0 <= n < |left|
      ensures HoldsAt(data, left, right, stereo, fracbits, n)
    {
      if stereo {
        assert right[..|right|] == right;
        StereoAt(left, right, n);
        SampleIs(bytes, samples, fracbits, 2 * n);
        SampleIs(bytes, samples, fracbits, 2 * n + 1);
      } else {
        SampleIs(bytes, samples, fracbits, n);
      }
    }
  }

  /** Stores one value, low byte first. */
  method PutSample(data: array<int>, at: nat, s: int)
    requires at + 2 <= data.Length && IsInt16(s)
    modifies data
    ensures Decoded(data[..at + 2]) == Decoded(old(data[..at])) + [s]
    ensures forall k :: at + 2 <= k < data.Length ==> data[k] == old(data[k])
  {
    BytesRoundTrip(s);
    data[at] := Low(s);
    data[at + 1] := High(s);
    assert data[..at + 2][..at] == old(data[..at]);
  }

  /** Quantises and stores one sample behind those already stored. */
  method Emit(ghost samples: seq<int>, sample: int, fracbits: nat, data: array<int>, at: nat)
    requires 16 <= fracbits && at + 2 <= data.Length
    requires Decoded(data[..at]) == Quantised(samples, fracbits)
    modifies data
    ensures Decoded(data[..at + 2]) == Quantised(samples + [sample], fracbits)
    ensures forall k :: at + 2 <= k < data.Length ==> data[k] == old(data[k])
  {
    ScaleIsInt16(sample, fracbits);
    PutSample(data, at, Scale(sample, fracbits));
    assert (samples + [sample])[..|samples|] == samples;
  }

  method EmitPair(ghost samples: seq<int>, l: int, r: int, fracbits: nat, data: array<int>, at: nat)
    requires 16 <= fracbits && at + 4 <= data.Length
    requires Decoded(data[..at]) == Quantised(samples, fracbits)
    modifies data
    ensures Decoded(data[..at + 4]) == Quantised(samples + [l, r], fracbits)
    ensures forall k :: at + 4 <= k < data.Length ==> data[k] == old(data[k])
  {
    Emit(samples, l, fracbits, data, at);
    Emit(samples + [l], r, fracbits, data, at + 2);
    assert samples + [l] + [r] == samples + [l, r];
  }

  /** What `n` turns of the sample loop put out. */
  function Interleaved(left: seq<int>, right: seq<int>, stereo: bool, n: nat): seq<int>
    requires n <= |left| && (stereo ==> |right| == |left|)
  {
    if stereo then Stereo(left[..n], right[..n]) else left[..n]
  }

  lemma InterleavedNext(left: seq<int>, right: seq<int>, stereo: bool, n: nat)
    requires n < |left| && (stereo ==> |right| == |left|)
    ensures Interleaved(left, right, stereo, n + 1) ==
            Interleaved(left, right, stereo, n) + (if stereo then [left[n], right[n]] else [left[n]])
    ensures |Interleaved(left, right, stereo, n)| == if stereo then 2 * n else n
  {
    assert left[..n + 1][..n] == left[..n];
    if stereo {
      assert right[..n + 1][..n] == right[..n];
    }
  }

  /** `libmad_output` on a pushed buffer, for one or two channels: exactly `used` bytes are written,
      and they decode to the interleaving of the quantised channels. */
  method Output(left: seq<int>, right: seq<int>, stereo: bool, fracbits: nat, data: array<int>)
    returns (used: nat, ok: bool)
    requires 16 <= fracbits && (stereo ==> |right| == |left|) && 4 * |left| < 0x1_0000
    requires data.Length == DecodeGate.OUTPUT_BUFFER_SIZE
    modifies data
    ensures used == 2 * |Interleaved(left, right, stereo, |left|)|
    ensures ok <==> used <= DecodeGate.OUTPUT_BUFFER_SIZE
    ensures ok ==>
              Decoded(data[..used]) == Quantised(Interleaved(left, right, stereo, |left|), fracbits)
    ensures used == if stereo then 4 * |left| else 2 * |left|
    ensures ok ==> Holds(data[..], left, right, stereo, fracbits)
    ensures forall k :: (if ok then used else 0) <= k < data.Length ==> data[k] == old(data[k])
  {
    used := if stereo then 4 * |left| else 2 * |left|;
    ok := used <= DecodeGate.OUTPUT_BUFFER_SIZE;
    if !ok {
      return;
    }
    var at := 0;
    for n := 0 to |left|
      invariant at == if stereo then 4 * n else 2 * n
      invariant Decoded(data[..at]) == Quantised(Interleaved(left, right, stereo, n), fracbits)
      invariant forall k :: at <= k < data.Length ==> data[k] == old(data[k])
    {
      InterleavedNext(left, right, stereo, n);
      ghost var before := Interleaved(left, right, stereo, n);
      if stereo {
        EmitPair(before, left[n], right[n], fracbits, data, at);
        at := at + 4;
      } else {
        Emit(before, left[n], fracbits, data, at);
        at := at + 2;
      }
    }
    assert data[..][..used] == data[..used];
    OutputHolds(data[..], used, left, right, stereo, fracbits);
  }

  // ---------------------------------------------------------------- volume

  /** One sample of `pcm_apply_volume`. */
  function Volume(s: int, volume: nat): int {
    Int16((s * volume * volume) / 256)
  }

  lemma GainRange(s: int, g: int)
    requires 0 <= g <= 256
    ensures s >= 0 ==> 0 <= (s * g) / 256 <= s
    ensures s <= 0 ==> s <= (s * g) / 256 <= 0
  {
    if s > 0 {
      MulOrder(0, g, s);
      MulOrder(g, 256, s);
    } else if s < 0 {
      MulOrder(0, g, -s);
      MulOrder(g, 256, -s);
      assert g * -s == -(s * g);
    }
  }

  lemma VolumeGain(s: int, volume: nat)
    requires IsInt16(s) && volume <= 16
    ensures var g := volume * volume; 0 <= g <= 256 && Volume(s, volume) == (s * g) / 256
    ensures s >= 0 ==> 0 <= Volume(s, volume) <= s
    ensures s <= 0 ==> s <= Volume(s, volume) <= 0
  {
    var g := volume * volume;
    assert g <= 16 * volume <= 256;
    assert s * volume * volume == s * g;
    GainRange(s, g);
  }

  lemma VolumeMonotone(s: int, t: int, volume: nat)
    requires IsInt16(s) && IsInt16(t) && s <= t && volume <= 16
    ensures Volume(s, volume) <= Volume(t, volume)
  {
    VolumeGain(s, volume);
    VolumeGain(t, volume);
    var g := volume * volume;
    if g > 0 {
      MulOrder(s, t, g);
    }
  }

  /** For every volume the player can set, the pass never leaves 16 bits, never makes a sample
      louder or flips its sign, and keeps the order of samples; full volume changes nothing and
      zero is silence. */
  lemma VolumeLaws(s: int, t: int, volume: nat)
    requires IsInt16(s) && IsInt16(t) && s <= t && volume <= 16
    ensures Volume(s, volume) == (s * volume * volume) / 256
    ensures Abs(Volume(s, volume)) <= Abs(s)
    ensures s >= 0 ==> Volume(s, volume) >= 0
    ensures s <= 0 ==> Volume(s, volume) <= 0
    ensures Volume(s, volume) <= Volume(t, volume)
    ensures Volume(s, 16) == s && Volume(s, 0) == 0
  {
    VolumeGain(s, volume);
    VolumeMonotone(s, t, volume);
    FullVolume(s);
    assert s * volume * volume == s * (volume * volume);
  }

  lemma FullVolume(s: int)
    requires IsInt16(s)
    ensures Volume(s, 16) == s && Volume(s, 0) == 0
  {
    assert s * 16 * 16 == s * 256;
    assert (s * 256) / 256 == s;
  }

  /** Sixteen is the largest volume for which no sample overflows. */
  lemma VolumeSafeIff(volume: nat)
    ensures (forall s: int :: IsInt16(s) ==> Volume(s, volume) == (s * volume * volume) / 256)
            <==> volume <= 16
  {
    if volume <= 16 {
      forall s: int | IsInt16(s)
        ensures Volume(s, volume) == (s * volume * volume) / 256
      {
        VolumeGain(s, volume);
      }
    } else {
      var g := volume * volume;
      assert g >= 17 * volume >= 289;
      var s := INT16_MAX;
      assert s * volume * volume == s * g;
      assert s * g >= INT16_MAX * 289;
      assert IsInt16(s) && Volume(s, volume) != (s * volume * volume) / 256;
    }
  }

  /** `pcm_apply_volume` scales the first `count` samples in place and touches nothing else. */
  method ApplyVolume(samples: array<int>, count: nat, volume: nat)
    requires count <= samples.Length
    modifies samples
    ensures forall k :: 0 <= k < count ==> samples[k] == Volume(old(samples[k]), volume)
    ensures samples[count..] == old(samples[count..])
  {
    for index := 0 to count
      invariant forall k :: 0 <= k < index ==> samples[k] == Volume(old(samples[k]), volume)
      invariant forall k :: index <= k < samples.Length ==> samples[k] == old(samples[k])
    {
      var sample := samples[index];
      samples[index] := Int16((sample * volume * volume) / 256);
    }
  }
}
