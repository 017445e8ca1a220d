/** 24-bit little-endian samples: packing, saturation, and the rounding used when interpolating. */
module Samples24 {

  type Byte = x: int | 0 <= x < 256

  const MIN24: int := -8388608
  const MAX24: int := 8388607

  predicate InRange24(v: int) { MIN24 <= v <= MAX24 }

  /** The low three bytes of a two's-complement integer; `>>` on a negative value rounds down. */
  function Pack24(sample: int): (b: seq<Byte>)
    ensures |b| == 3
  {
    [sample % 256, sample / 256 % 256, sample / 65536 % 256]
  }

  function Unpack24(b: seq<Byte>): (v: int)
    requires |b| == 3
    ensures InRange24(v)
  {
    var low: int, middle: int, high: int := b[0], b[1], b[2];
    low + 256 * middle + 65536 * (if high < 128 then high else high - 256)
  }

  lemma UnpackOfPack(v: int)
    requires InRange24(v)
    ensures Unpack24(Pack24(v)) == v
  {
    assert v == v % 256 + 256 * (v / 256 % 256) + 65536 * (v / 65536);
  }

  /** The low byte comes first, and negative samples are in two's complement. */
  lemma LowByteFirst(v: int)
    requires InRange24(v)
    ensures var b := Pack24(v);
            b[0] as int + 0x100 * b[1] as int + 0x1_0000 * b[2] as int == if v >= 0 then v else v + 0x100_0000
  {
    assert v == v % 256 + 256 * (v / 256 % 256) + 65536 * (v / 65536);
  }

  lemma PackOfUnpack(b: seq<Byte>)
    requires |b| == 3
    ensures Pack24(Unpack24(b)) == b
  {
    var low: int, middle: int, high: int := b[0], b[1], b[2];
    var top := if high < 128 then high else high - 256;
    var v := Unpack24(b);
    assert v == 256 * (256 * top + middle) + low;
    assert v % 256 == low && v / 256 == 256 * top + middle;
    assert v == 65536 * top + (256 * middle + low);
    assert v / 65536 == top && top % 256 == high;
  }

  function Saturate24(v: int): (r: int)
    ensures InRange24(r) && (InRange24(v) ==> r == v)
    ensures (v > 8388607 ==> r == 8388607) && (v < -8388608 ==> r == -8388608)
  {
    if v > MAX24 then MAX24 else if v < MIN24 then MIN24 else v
  }

  /** Two more samples saturate onto a third in either order exactly when they pull the same way or nothing clips. */
  lemma SaturatingOrderIrrelevantIff(s: int, a: int, b: int)
    requires InRange24(s) && InRange24(a) && InRange24(b)
    ensures Saturate24(Saturate24(s + a) + b) == Saturate24(Saturate24(s + b) + a)
            <==> ((a >= 0 && b >= 0) || (a <= 0 && b <= 0) || (InRange24(s + a) && InRange24(s + b)))
  {
  }

  /** Round to nearest, ties to even: lrint in the default rounding mode. */
  function RoundEven(x: real): (r: int)
    ensures -0.5 <= x - r as real <= 0.5
    ensures x - r as real == 0.5 || x - r as real == -0.5 ==> r % 2 == 0
  {
    var f := x.Floor;
    var d := x - f as real;
    if d < 0.5 || (d == 0.5 && f % 2 == 0) then f else f + 1
  }

  /** Round to nearest, ties away from zero: llround. */
  function RoundAway(x: real): (r: int)
    ensures -0.5 <= x - r as real <= 0.5
    ensures (x - r as real == 0.5 ==> x < 0.0) && (x - r as real == -0.5 ==> x > 0.0)
  {
    if x >= 0.0 then (x + 0.5).Floor else -((0.5 - x).Floor)
  }

  /** Rounding never leaves an interval with whole ends. */
  lemma RoundStaysBetween(x: real, lo: int, hi: int)
    requires lo as real <= x <= hi as real
    ensures lo <= RoundEven(x) <= hi
  {
  }
}
