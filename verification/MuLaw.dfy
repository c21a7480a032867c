/** The mu-law encoder (pkg/audio/audio.go:230-243 and 277-296) against the decoder of Tables 2a and
    2b of ITU-T G.711, scaled to 16 bits. Shifts and masks are written as arithmetic: for a power
    of two, shifting right is division towards minus infinity and masking is the remainder. */
module MuLaw {
  import opened Common

  const Bias := 0x84
  const Clip := 32635
  const MaxPCM16Bytes := 0x200_0000
  const MinInt64 := -0x8000_0000_0000_0000
  const MaxInt64 := 0x7FFF_FFFF_FFFF_FFFF

  type int64 = x: int | MinInt64 <= x <= MaxInt64

  /** Powers of two for the eight segments. */
  function Pow(e: nat): int
    requires e <= 7
  {
    if e == 0 then 1 else if e == 1 then 2 else if e == 2 then 4 else if e == 3 then 8
    else if e == 4 then 16 else if e == 5 then 32 else if e == 6 then 64 else 128
  }

  // ----- the encoder -----

  /** Negation in 64 bits: the smallest number has no positive counterpart. */
  function Negate(x: int64): int64 { if x == MinInt64 then x else -x }

  /** The clipped magnitude with its bias, as the code computes it. */
  function Biased(sample: int64): int {
    var magnitude := if sample < 0 then Negate(sample) else sample;
    (if magnitude > Clip then Clip else magnitude) + Bias
  }

  /** Segment `e` holds the biased magnitudes whose highest bit is bit `e + 7`. */
  predicate InSegment(m: int, e: nat) { e <= 7 && 128 * Pow(e) <= m < 256 * Pow(e) }

  /** A code word holds the complement of sign, exponent and mantissa. */
  function Compose(negative: bool, e: nat, q: nat): (b: byte)
    requires e <= 7 && q <= 15
    ensures Sign(b) == negative && Exponent(b) == e && Mantissa(b) == q
  {
    255 - ((if negative then 128 else 0) + 16 * e + q)
  }

  function Sign(b: byte): bool { b < 128 }

  function Low(b: byte): (x: nat) ensures x < 128 { if b < 128 then 127 - b else 255 - b }

  function Exponent(b: byte): (e: nat) ensures e <= 7 { Low(b) / 16 }

  function Mantissa(b: byte): (q: nat) ensures q <= 15 { Low(b) % 16 }

  /** The exponent loop: it stops at the highest bit of the biased magnitude. */
  method FindExponent(m: int) returns (exponent: nat)
    ensures exponent <= 7
    ensures 132 <= m < 0x8000 ==> InSegment(m, exponent)
    ensures m == MinInt64 + Bias ==> exponent == 0
  {
    exponent := 7;
    var mask := 0x4000;
    while exponent > 0 && m / mask % 2 == 0
      invariant 0 <= exponent <= 7 && mask == 128 * Pow(exponent)
      invariant 132 <= m < 0x8000 ==> m < 2 * mask
    {
      if 132 <= m < 0x8000 { TopBit(m, mask); }
      exponent, mask := exponent - 1, mask / 2;
    }
    if 132 <= m < 0x8000 { TopBit(m, mask); }
    if m == MinInt64 + Bias { LowestSample(exponent); }
  }

  lemma TopBit(m: int, mask: int)
    requires 0 <= m < 2 * mask
    ensures m / mask % 2 == 0 <==> m < mask
  {
    if m < mask { DivBounds(m, mask, 0, 1); } else { DivBounds(m, mask, 1, 2); }
  }

  lemma DivBounds(m: int, s: int, low: int, high: int)
    requires s > 0 && low * s <= m < high * s
    ensures low <= m / s < high
  {
    var t, r := m / s, m % s;
    assert m == t * s + r;
    if t < low { Times(t + 1, low, s); }
    if t >= high { Times(high, t, s); }
  }

  lemma Times(a: int, b: int, s: int)
    requires a <= b && s > 0
    ensures a * s <= b * s
  {
    assert (b - a) * s >= 0;
    assert b * s == a * s + (b - a) * s;
  }

  /** Of the smallest sample, no bit of the seven upper segments is set. */
  lemma LowestSample(e: nat)
    requires e <= 7
    ensures e > 0 ==> (MinInt64 + Bias) / (128 * Pow(e)) % 2 == 0
    ensures (MinInt64 + Bias) / 8 % 16 == 0
  {
    assert e == 1 ==> (MinInt64 + Bias) / 256 % 2 == 0;
    assert e == 2 ==> (MinInt64 + Bias) / 512 % 2 == 0;
    assert e == 3 ==> (MinInt64 + Bias) / 1024 % 2 == 0;
    assert e == 4 ==> (MinInt64 + Bias) / 2048 % 2 == 0;
    assert e == 5 ==> (MinInt64 + Bias) / 4096 % 2 == 0;
    assert e == 6 ==> (MinInt64 + Bias) / 8192 % 2 == 0;
    assert e == 7 ==> (MinInt64 + Bias) / 16384 % 2 == 0;
  }

  /** pcm16SampleToULaw. The exponent is that of the highest bit, the mantissa the four below. */
  method EncodeSample(sample: int64) returns (b: byte)
    ensures sample != MinInt64 ==>
              && (Sign(b) <==> sample < 0) && InSegment(Biased(sample), Exponent(b))
              && Mantissa(b) == Biased(sample) / (8 * Pow(Exponent(b))) - 16
    ensures b == Encode(sample)
  {
    var sign, x := false, sample;
    if x < 0 { sign, x := true, Negate(x); }
    if x > Clip { x := Clip; }
    var m: int := x + Bias;
    assert m == Biased(sample);
    var exponent := FindExponent(m);
    var mantissa := m / (8 * Pow(exponent)) % 16;
    b := Compose(sign, exponent, mantissa);
    if sample != MinInt64 { EncodeIs(sample, exponent); } else { LowestSample(0); }
  }

  /** The code word: the only one with the sign, segment and four bits of the sample. */
  function Encode(sample: int64): byte {
    if sample == MinInt64 then 0x7F
    else
      var m := Biased(sample);
      var e := Segment(m);
      StepOf(m, e);
      Compose(sample < 0, e, m / (8 * Pow(e)) - 16)
  }

  function Segment(m: int): (e: nat)
    requires 132 <= m < 0x8000
    ensures InSegment(m, e)
  {
    if m < 256 then 0 else if m < 512 then 1 else if m < 1024 then 2 else if m < 2048 then 3
    else if m < 4096 then 4 else if m < 8192 then 5 else if m < 16384 then 6 else 7
  }

  lemma StepOf(m: int, e: nat)
    requires InSegment(m, e)
    ensures 16 <= m / (8 * Pow(e)) < 32
  {
    DivBounds(m, 8 * Pow(e), 16, 32);
  }

  lemma EncodeIs(sample: int64, e: nat)
    requires sample != MinInt64 && InSegment(Biased(sample), e)
    ensures Segment(Biased(sample)) == e
    ensures 16 <= Biased(sample) / (8 * Pow(e)) < 32
    ensures Encode(sample) == Compose(sample < 0, e, Biased(sample) / (8 * Pow(e)) - 16)
  {
    StepOf(Biased(sample), e);
    OneSegment(Biased(sample), e);
  }

  lemma OneSegment(m: int, e: nat)
    requires 132 <= m < 0x8000 && InSegment(m, e)
    ensures Segment(m) == e
  {
  }

  // ----- the decoder of G.711 -----

  function Level(e: nat, q: nat): int
    requires e <= 7
  {
    (8 * q + 132) * Pow(e) - 132
  }

  function Decode(b: byte): int {
    var level := Level(Exponent(b), Mantissa(b));
    if Sign(b) then -level else level
  }

  function Clipped(sample: int64): int {
    if sample > Clip then Clip else if sample < -Clip then -Clip else sample
  }

  function Abs(x: int): nat { if x < 0 then -x else x }

  predicate Accurate(sample: int64) { 32 * Abs(Decode(Encode(sample)) - Clipped(sample)) <= Abs(Clipped(sample)) + 132 }

  /** A level is the middle of its step, and a step is at most a sixteenth of the magnitude. */
  lemma LevelError(m: int, e: nat, q: nat)
    requires InSegment(m, e) && q == m / (8 * Pow(e)) - 16
    ensures 32 * Abs(Level(e, q) + 132 - m) <= m
  {
    var p := Pow(e);
    var t, r := m / (8 * p), m % (8 * p);
    assert m == t * (8 * p) + r;
    assert (8 * q + 132) * p == t * (8 * p) + 4 * p;
  }

  lemma {:induction false} AccurateBelow(sample: int64)
    requires sample != MinInt64
    ensures Accurate(sample)
  {
    var m := Biased(sample);
    var e := Segment(m);
    DecodeIs(sample);
    StepOf(m, e);
    LevelError(m, e, m / (8 * Pow(e)) - 16);
  }

  /** The smallest 64-bit sample is encoded as silence; it is the only inaccurate one. */
  lemma {:induction false} AccurateExactly(sample: int64)
    ensures Accurate(sample) <==> sample != MinInt64
  {
    if sample != MinInt64 {
      AccurateBelow(sample);
    } else {
      LowestIsSilence();
    }
  }

  lemma LowestIsSilence()
    ensures Decode(Encode(MinInt64)) == 0 && Clipped(MinInt64) == -Clip
  {
    assert Low(0x7F) == 0;
  }

  /** What a biased magnitude decodes to. */
  function LevelOf(m: int): int
    requires 132 <= m < 0x8000
  {
    var e := Segment(m);
    StepOf(m, e);
    Level(e, m / (8 * Pow(e)) - 16)
  }

  lemma LevelBounds(e: nat, t: int)
    requires e <= 7 && 16 <= t < 32
    ensures Level(e, t - 16) + 132 == (8 * t + 4) * Pow(e)
    ensures 132 * Pow(e) <= (8 * t + 4) * Pow(e) < 256 * Pow(e)
  {
    Times(132, 8 * t + 4, Pow(e));
    Times(8 * t + 4, 252, Pow(e));
  }

  lemma PowGrows(d: nat, e: nat)
    requires d < e <= 7
    ensures 2 * Pow(d) <= Pow(e)
  {
  }

  lemma DivMonotone(m: int, n: int, s: int)
    requires 0 < s && m <= n
    ensures m / s <= n / s
  {
    var t := m / s;
    assert m == t * s + m % s;
    assert n == n / s * s + n % s;
    if n / s < t { Times(n / s + 1, t, s); }
  }

  /** Larger biased magnitudes decode to no smaller levels. */
  lemma LevelMonotone(m: int, n: int)
    requires 132 <= m <= n < 0x8000
    ensures 0 <= LevelOf(m) <= LevelOf(n)
  {
    var d, e := Segment(m), Segment(n);
    var t, u := m / (8 * Pow(d)), n / (8 * Pow(e));
    StepOf(m, d);
    StepOf(n, e);
    LevelBounds(d, t);
    LevelBounds(e, u);
    if d == e {
      DivMonotone(m, n, 8 * Pow(d));
      Times(8 * t + 4, 8 * u + 4, Pow(d));
    } else {
      SegmentsGrow(m, n);
      PowGrows(d, e);
    }
  }

  lemma SegmentsGrow(m: int, n: int)
    requires 132 <= m <= n < 0x8000
    ensures Segment(m) <= Segment(n)
  {
  }

  lemma DecodeIs(sample: int64)
    requires sample != MinInt64
    ensures Decode(Encode(sample)) == if sample < 0 then -LevelOf(Biased(sample)) else LevelOf(Biased(sample))
  {
    EncodeIs(sample, Segment(Biased(sample)));
  }

  lemma {:induction false} OrderAboveLowest(a: int64, b: int64)
    requires MinInt64 < a <= b
    ensures Decode(Encode(a)) <= Decode(Encode(b))
  {
    var m, n := Biased(a), Biased(b);
    DecodeIs(a);
    DecodeIs(b);
    if m <= n { LevelMonotone(m, n); } else { LevelMonotone(n, m); }
  }

  /** The samples of the first step are silence. */
  lemma LevelZero(m: int)
    requires 132 <= m < 0x8000
    ensures LevelOf(m) == 0 <==> m < 136
    ensures LevelOf(m) >= 0
  {
    assert LevelOf(136) == 8;
    if m >= 136 { LevelMonotone(136, m); } else { LevelMonotone(m, m); }
  }

  /** Larger samples decode to no smaller values, except that the smallest 64-bit sample, being
      silence, lies above every sample below -3. */
  lemma {:induction false} DecodeMonotone(a: int64, b: int64)
    requires a <= b
    ensures Decode(Encode(a)) <= Decode(Encode(b)) <==> a != MinInt64 || b == MinInt64 || b >= -3
  {
    if a != MinInt64 {
      OrderAboveLowest(a, b);
    } else if b != MinInt64 {
      LowestIsSilence();
      DecodeIs(b);
      LevelZero(Biased(b));
    }
  }

  lemma LowestBreaksOrder()
    ensures Decode(Encode(MinInt64)) == 0 && Decode(Encode(-1000)) < 0
  {
    LowestIsSilence();
    DecodeIs(-1000);
    LevelZero(Biased(-1000));
  }

  lemma LevelBack(e: nat, q: nat)
    requires e <= 7 && q <= 15
    ensures var m := Level(e, q) + 132; InSegment(m, e) && m / (8 * Pow(e)) == q + 16 && 0 <= m - 132 <= Clip
    ensures Level(e, q) == 0 <==> e == 0 && q == 0
  {
    if e == 0 {} else if e == 1 {} else if e == 2 {} else if e == 3 {} else if e == 4 {} else if e == 5 {} else if e == 6 {} else {}
  }

  lemma DecodedSample(b: byte)
    ensures var e, q, v := Exponent(b), Mantissa(b), Decode(b);
            && -Clip <= v <= Clip && Biased(v) == Level(e, q) + 132
            && (v < 0 <==> Sign(b) && !(e == 0 && q == 0))
  {
    var e, q, v := Exponent(b), Mantissa(b), Decode(b);
    LevelBack(e, q);
    assert v == if Sign(b) then -Level(e, q) else Level(e, q);
  }

  lemma Parts(b: byte)
    ensures b == 255 - ((if Sign(b) then 128 else 0) + 16 * Exponent(b) + Mantissa(b))
  {
  }

  lemma LevelEncodes(v: int64, e: nat, q: nat)
    requires e <= 7 && q <= 15 && v != MinInt64 && Biased(v) == Level(e, q) + 132
    ensures Encode(v) == Compose(v < 0, e, q)
  {
    LevelBack(e, q);
    EncodeIs(v, e);
  }

  lemma DecodedEncodes(b: byte)
    ensures Encode(Decode(b)) == Compose(Decode(b) < 0, Exponent(b), Mantissa(b))
  {
    DecodedSample(b);
    LevelEncodes(Decode(b), Exponent(b), Mantissa(b));
  }

  lemma ComposeIs(b: byte, negative: bool)
    ensures Compose(negative, Exponent(b), Mantissa(b)) == b <==> negative == Sign(b)
  {
    Parts(b);
  }

  lemma NegativeZero(b: byte)
    ensures b == 0x7F <==> Sign(b) && Exponent(b) == 0 && Mantissa(b) == 0
  {
  }

  /** Decoding and encoding again gives the same word, except for negative zero. */
  lemma {:induction false} DecodeEncode(b: byte)
    ensures Encode(Decode(b)) == b <==> b != 0x7F
  {
    DecodedEncodes(b);
    DecodedSample(b);
    ComposeIs(b, Decode(b) < 0);
    NegativeZero(b);
  }

  // ----- whole buffers -----

  /** Sample `i` of a little-endian buffer. */
  function SampleAt(pcm: seq<byte>, i: nat): (v: int64)
    requires 2 * i + 1 < |pcm|
    ensures -0x8000 <= v < 0x8000
  {
    var low: int, high: int := pcm[2 * i], pcm[2 * i + 1];
    var u := low + 256 * high;
    if u >= 0x8000 then u - 0x1_0000 else u
  }

  datatype Encoded = Encoded(words: seq<byte>) | OddLength | TooLong

  /** pcm16ToG711ULaw: every sample becomes its code word. */
  method EncodeBuffer(pcm: seq<byte>) returns (r: Encoded)
    ensures r.OddLength? <==> |pcm| % 2 != 0
    ensures r.TooLong? <==> |pcm| % 2 == 0 && |pcm| > 32 * 1024 * 1024
    ensures r.Encoded? ==> |r.words| == |pcm| / 2 && forall i :: 0 <= i < |r.words| ==> r.words[i] == Encode(SampleAt(pcm, i))
  {
    if |pcm| % 2 != 0 { return OddLength; }
    if |pcm| > MaxPCM16Bytes { return TooLong; }
    var output := new byte[|pcm| / 2];
    for index := 0 to output.Length
      invariant forall i :: 0 <= i < index ==> output[i] == Encode(SampleAt(pcm, i))
    {
      output[index] := EncodeSample(SampleAt(pcm, index));
    }
    r := Encoded(output[..]);
  }

  predicate WordsOf(pcm: seq<byte>, words: seq<byte>) {
    |pcm| == 2 * |words| && forall i :: 0 <= i < |words| ==> words[i] == Encode(SampleAt(pcm, i))
  }

  /** An encoded buffer decodes to the clipped samples within the bound, in the same order. */
  lemma {:induction false} BufferIsAccurate(pcm: seq<byte>, words: seq<byte>, i: nat, j: nat)
    requires WordsOf(pcm, words) && i < |words| && j < |words|
    ensures 32 * Abs(Decode(words[i]) - Clipped(SampleAt(pcm, i))) <= Abs(Clipped(SampleAt(pcm, i))) + 132
    ensures SampleAt(pcm, i) <= SampleAt(pcm, j) ==> Decode(words[i]) <= Decode(words[j])
  {
    AccurateBelow(SampleAt(pcm, i));
    if SampleAt(pcm, i) <= SampleAt(pcm, j) { OrderAboveLowest(SampleAt(pcm, i), SampleAt(pcm, j)); }
  }

  /** The lowest level of each segment in the tables of G.711, in steps of 14 bits. */
  function TableLevel(e: nat): int {
    match e
    case 0 => 0 case 1 => 33 case 2 => 99 case 3 => 231
    case 4 => 495 case 5 => 1023 case 6 => 2079 case _ => 4191
  }

  /** The levels of the decoder are those of the tables, times four: each segment starts at the table's
      level and goes up in equal steps, of two in the first and twice as wide in each next one. */
  lemma LevelsAreTheTables(e: nat, q: nat)
    requires e <= 7 && q < 15
    ensures Level(e, 0) == 4 * TableLevel(e)
    ensures e == 0 ==> Level(e, q + 1) - Level(e, q) == 4 * 2
    ensures e > 0 ==> Level(e, q + 1) - Level(e, q) == 2 * (Level(e - 1, q + 1) - Level(e - 1, q))
  {
    assert Level(e, q + 1) - Level(e, q) == 8 * Pow(e);
    assert e > 0 ==> Level(e - 1, q + 1) - Level(e - 1, q) == 8 * Pow(e - 1);
  }

  /** Samples of 16 bits, low byte first. */
  function Pcm16(samples: seq<int>): seq<byte>
    requires forall i :: 0 <= i < |samples| ==> -0x8000 <= samples[i] < 0x8000
  {
    if samples == [] then []
    else
      var n := |samples| - 1;
      var u := if samples[n] < 0 then samples[n] + 0x1_0000 else samples[n];
      Pcm16(samples[..n]) + [u % 256, u / 256]
  }

  /** A buffer gives back the samples it was written from. */
  lemma {:induction false} SamplesReadBack(samples: seq<int>, i: nat)
    requires i < |samples| && forall k :: 0 <= k < |samples| ==> -0x8000 <= samples[k] < 0x8000
    ensures |Pcm16(samples)| == 2 * |samples| && SampleAt(Pcm16(samples), i) == samples[i]
  {
    var n := |samples| - 1;
    if n > 0 { SamplesReadBack(samples[..n], if i < n then i else 0); }
    assert n == 0 ==> samples[..n] == [];
  }
}
