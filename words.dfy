/** Little-endian fixed-width integer words, the byte form numpy's `tobytes` and
    `frombuffer` give integer arrays on the platforms the geometry code targets. */
module Words {

  type Byte = b: int | 0 <= b < 256

  /** 256^w: the number of distinct w-byte words. */
  function Pow256(w: nat): (p: nat)
    ensures p >= 1
  {
    if w == 0 then 1 else 256 * Pow256(w - 1)
  }

  /** 2^(8w-1): the first value a signed w-byte word cannot hold. */
  function HalfRange(w: nat): (h: int)
    requires w > 0
    ensures h > 0 && 2 * h == Pow256(w)
  {
    128 * Pow256(w - 1)
  }

  /** The w bytes, least significant first, of `v` modulo 256^w (two's complement
      for negative values). */
  function WordBytes(v: int, w: nat): (bs: seq<Byte>)
    ensures |bs| == w
    decreases w
  {
    if w == 0 then [] else [v % 256] + WordBytes(v / 256, w - 1)
  }

  /** A word read as an unsigned integer. */
  function UnsignedValue(bs: seq<Byte>): (u: nat)
    ensures u < Pow256(|bs|)
  {
    if |bs| == 0 then 0
    else
      var rest := UnsignedValue(bs[1..]);
      assert rest <= Pow256(|bs| - 1) - 1;
      bs[0] + 256 * rest
  }

  /** A word read as a two's complement signed integer. */
  function SignedValue(bs: seq<Byte>): (v: int)
    requires |bs| > 0
    ensures -HalfRange(|bs|) <= v < HalfRange(|bs|)
    ensures v >= 0 <==> UnsignedValue(bs) < HalfRange(|bs|)
  {
    var u := UnsignedValue(bs);
    if u >= HalfRange(|bs|) then u - Pow256(|bs|) else u
  }

  /** Whether `v` is representable as a signed w-byte integer. */
  predicate FitsSigned(v: int, w: nat)
  {
    w > 0 && -HalfRange(w) <= v < HalfRange(w)
  }

  lemma ShiftByWord(v: int, k: int)
    ensures (v + 256 * k) / 256 == v / 256 + k
    ensures (v + 256 * k) % 256 == v % 256
  {
    var q, r := v / 256, v % 256;
    var q2, r2 := (v + 256 * k) / 256, (v + 256 * k) % 256;
    assert 256 * (q2 - q - k) == r - r2;
  }

  /** Adding 256^w to a value does not change its w-byte word. */
  lemma {:induction false} WordBytesPeriodic(v: int, w: nat)
    ensures WordBytes(v + Pow256(w), w) == WordBytes(v, w)
    decreases w
  {
    if w > 0 {
      ShiftByWord(v, Pow256(w - 1));
      WordBytesPeriodic(v / 256, w - 1);
    }
  }

  /** Reading back the word of an in-range unsigned value gives the value. */
  lemma {:induction false} UnsignedRoundTrip(v: int, w: nat)
    requires 0 <= v < Pow256(w)
    ensures UnsignedValue(WordBytes(v, w)) == v
  {
    if w > 0 {
      UnsignedRoundTrip(v / 256, w - 1);
      assert WordBytes(v, w)[1..] == WordBytes(v / 256, w - 1);
    }
  }

  /** Reading back the word of an in-range signed value, as signed, gives the value. */
  lemma SignedRoundTrip(v: int, w: nat)
    requires FitsSigned(v, w)
    ensures SignedValue(WordBytes(v, w)) == v
  {
    if v >= 0 {
      UnsignedRoundTrip(v, w);
    } else {
      WordBytesPeriodic(v, w);
      UnsignedRoundTrip(v + Pow256(w), w);
    }
  }
}
