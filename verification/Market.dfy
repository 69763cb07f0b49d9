/** Types shared by every script: the candle record of `fvgEngine`, and an
    optional value for fields that may be absent. */
module Market {

  datatype Option<+T> = None | Some(value: T)

  /** One kline. Times are milliseconds, prices and volumes are reals. */
  datatype Candle = Candle(
    t: int,
    o: real,
    h: real,
    l: real,
    c: real,
    v: real,
    takerBuyVol: real,
    takerSellVol: real,
    isClosed: bool
  )

  function Abs(x: real): real { if x < 0.0 then -x else x }

  function Max(x: real, y: real): real { if x < y then y else x }

  function Min(x: real, y: real): real { if y < x then y else x }

  function MinInt(x: int, y: int): int { if y < x then y else x }

  function MaxInt(x: int, y: int): int { if x < y then y else x }

  /** One bar seen from an open trade: the furthest price in its favour and the
      furthest against it, both measured from the entry in the trade's direction. */
  datatype Leg = Leg(best: real, worst: real)

  function ToLeg(c: Candle, entry: real, isLong: bool): Leg {
    if isLong then Leg(c.h - entry, c.l - entry) else Leg(entry - c.l, entry - c.h)
  }

  /** The candle seen with prices negated: highs become lows and buyers become sellers. */
  function MirrorCandle(c: Candle): Candle {
    Candle(c.t, -c.o, -c.l, -c.h, -c.c, c.v, c.takerSellVol, c.takerBuyVol, c.isClosed)
  }

  function MirrorCandles(cs: seq<Candle>): (r: seq<Candle>)
    ensures |r| == |cs|
  {
    seq(|cs|, i requires 0 <= i < |cs| => MirrorCandle(cs[i]))
  }
}

/** Decimal rounding as done by `parseFloat(x.toFixed(d))`, on exact reals:
    round to the nearest multiple of 10^-d, a tie going away from zero. */
module Decimal {

  /** The rounded number of hundredths. */
  function Cents(x: real): int {
    if x < 0.0 then -(-x * 100.0 + 0.5).Floor else (x * 100.0 + 0.5).Floor
  }

  function Fixed2(x: real): real { Cents(x) as real / 100.0 }

  function Fixed3(x: real): real {
    if x < 0.0 then -((-x * 1000.0 + 0.5).Floor as real) / 1000.0
    else (x * 1000.0 + 0.5).Floor as real / 1000.0
  }

  lemma {:induction false} FloorMonotone(x: real, y: real)
    requires x <= y
    ensures x.Floor <= y.Floor
  {
    assert x.Floor as real <= x <= y < y.Floor as real + 1.0;
  }

  /** Rounding keeps order, so rounded prices keep the shape of the candle. */
  lemma {:induction false} CentsMonotone(x: real, y: real)
    requires x <= y
    ensures Cents(x) <= Cents(y)
  {
    if x >= 0.0 {
      FloorMonotone(x * 100.0 + 0.5, y * 100.0 + 0.5);
    } else if y < 0.0 {
      FloorMonotone(-y * 100.0 + 0.5, -x * 100.0 + 0.5);
    }
  }

  /** Rounding goes to the nearest hundredth, a tie away from zero. */
  lemma {:induction false} Fixed2IsNearest(x: real) returns (n: int)
    ensures Fixed2(x) == n as real / 100.0
    ensures -0.005 <= Fixed2(x) - x <= 0.005
    ensures (x >= 0.0 ==> Fixed2(x) - x > -0.005) && (x <= 0.0 ==> Fixed2(x) - x < 0.005)
  {
    n := Cents(x);
  }

  lemma {:induction false} Fixed3IsNearest(x: real) returns (n: int)
    ensures Fixed3(x) == n as real / 1000.0
    ensures -0.0005 <= Fixed3(x) - x <= 0.0005
    ensures (x >= 0.0 ==> Fixed3(x) - x > -0.0005) && (x <= 0.0 ==> Fixed3(x) - x < 0.0005)
  {
    n := if x < 0.0 then -((-x * 1000.0 + 0.5).Floor) else (x * 1000.0 + 0.5).Floor;
  }

  /** A whole number of cents passes through rounding, also when added to a value. */
  lemma {:induction false} CentsShift(x: real, n: int)
    requires 0.0 <= x && 0.0 <= x + n as real / 100.0
    ensures Cents(x + n as real / 100.0) == Cents(x) + n
  {
    assert (x + n as real / 100.0) * 100.0 + 0.5 == (x * 100.0 + 0.5) + n as real;
  }

  /** Rounding commutes with negation, which is what makes mirrored runs round alike. */
  lemma {:induction false} Fixed2Odd(x: real)
    ensures Fixed2(-x) == -Fixed2(x)
  {
  }
}
