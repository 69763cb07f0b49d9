/** `generateDeterministicCandles` of scripts/audit_quant_lab_parity.ts, the synthetic
    series behind the parity audit, with its linear congruential generator. */
module CandleGenerator {
  import opened Market
  import opened Decimal
  import opened Ordering

  /** timeframeToMs of src/lib/quantEngine/structuralBootstrap.ts: 15 minutes unless known. */
  function TimeframeToMs(tf: string): (ms: int)
    ensures ms > 0 && ms % 60000 == 0
  {
    if tf == "1m" then 60000
    else if tf == "5m" then 300000
    else if tf == "15m" then 900000
    else if tf == "1h" then 3600000
    else if tf == "4h" then 14400000
    else if tf == "1d" then 86400000
    else 900000
  }

  // ----------------------------------------------------------------- generator

  const MODULUS := 233280

  predicate IsSeed(seed: int) { 0 <= seed < MODULUS }

  function NextSeed(seed: int): int { (seed * 9301 + 49297) % MODULUS }

  /** The number drawn when the seed has become `seed`. */
  function Draw(seed: int): real { seed as real / 233280.0 }

  /** One candle's share of the walk: its exact values before rounding. */
  datatype Raw = Raw(o: real, h: real, l: real, c: real, v: real)

  function SeedAfter(seed: int, draws: nat): int {
    if draws == 0 then seed else NextSeed(SeedAfter(seed, draws - 1))
  }

  function RawCandle(seed: int, price: real): Raw {
    var o := price;
    var c := o + (Draw(SeedAfter(seed, 1)) - 0.49) * 12.0;
    Raw(o, Max(o, c) + Draw(SeedAfter(seed, 2)) * 6.0, Min(o, c) - Draw(SeedAfter(seed, 3)) * 6.0, c,
        800.0 + Draw(SeedAfter(seed, 4)) * 1400.0)
  }

  /** Share of the range below the close, kept within [0, 1]. */
  function Conviction(r: Raw): real { Min(1.0, Max(0.0, (r.c - r.l) / Max(0.0001, r.h - r.l))) }

  function Share(v: real, share: real): real { v * share }

  function Rounded(t: int, r: Raw): Candle {
    var buy := Fixed2(Share(r.v, Conviction(r)));
    Candle(t, Fixed2(r.o), Fixed2(r.h), Fixed2(r.l), Fixed2(r.c), Fixed2(r.v), buy, Fixed2(Max(0.0, r.v - buy)), true)
  }

  /** The candles from time t on. */
  function CandlesFrom(t: int, endMs: int, intervalMs: int, seed: int, price: real): seq<Candle>
    requires intervalMs > 0
    decreases endMs - t
  {
    if t > endMs then []
    else
      var raw := RawCandle(seed, price);
      [Rounded(t, raw)] + CandlesFrom(t + intervalMs, endMs, intervalMs, SeedAfter(seed, 4), raw.c)
  }

  function AlignedStart(startMs: int, intervalMs: int): int
    requires intervalMs > 0
  {
    startMs / intervalMs * intervalMs
  }

  function Series(startMs: int, endMs: int, intervalMs: int): seq<Candle>
    requires intervalMs > 0
  {
    CandlesFrom(AlignedStart(startMs, intervalMs), endMs, intervalMs, 1337, 3000.0)
  }

  method GenerateDeterministicCandles(startMs: int, endMs: int, interval: string) returns (candles: seq<Candle>)
    ensures candles == Series(startMs, endMs, TimeframeToMs(interval))
  {
    hide RawCandle, Rounded, SeedAfter;
    var intervalMs := TimeframeToMs(interval);
    candles := [];
    var currentPrice := 3000.0;
    var t := startMs / intervalMs * intervalMs;
    var seed := 1337;
    ghost var all := Series(startMs, endMs, intervalMs);
    while t <= endMs
      invariant all == candles + CandlesFrom(t, endMs, intervalMs, seed, currentPrice)
      decreases endMs - t
    {
      var candle;
      ghost var seedBefore, raw := seed, RawCandle(seed, currentPrice);
      candle, seed, currentPrice := NextCandle(t, seed, currentPrice);
      assert all == candles + ([Rounded(t, raw)] + CandlesFrom(t + intervalMs, endMs, intervalMs, SeedAfter(seedBefore, 4), raw.c));
      candles := candles + [candle];
      t := t + intervalMs;
    }
  }

  /** The loop body: four draws, one candle. */
  method NextCandle(t: int, seed: int, price: real) returns (candle: Candle, next: int, close: real)
    ensures candle == Rounded(t, RawCandle(seed, price)) && next == SeedAfter(seed, 4) && close == RawCandle(seed, price).c
  {
    hide NextSeed, Draw, Cents, Share;
    assert SeedAfter(seed, 0) == seed;
    next := NextSeed(seed);
    assert next == SeedAfter(seed, 1);
    var delta := (Draw(next) - 0.49) * 12.0;
    var o := price;
    var c := o + delta;
    next := NextSeed(next);
    assert next == SeedAfter(seed, 2);
    var h := Max(o, c) + Draw(next) * 6.0;
    next := NextSeed(next);
    assert next == SeedAfter(seed, 3);
    var l := Min(o, c) - Draw(next) * 6.0;
    next := NextSeed(next);
    assert next == SeedAfter(seed, 4);
    var v := 800.0 + Draw(next) * 1400.0;
    var range := Max(0.0001, h - l);
    var conviction := Min(1.0, Max(0.0, (c - l) / range));
    var takerBuyVol := Fixed2(Share(v, conviction));
    var takerSellVol := Fixed2(Max(0.0, v - takerBuyVol));
    ghost var raw := RawCandle(seed, price);
    assert raw == Raw(o, h, l, c, v);
    assert conviction == Conviction(raw);
    candle := Candle(t, Fixed2(o), Fixed2(h), Fixed2(l), Fixed2(c), Fixed2(v), takerBuyVol, takerSellVol, true);
    close := c;
  }

  // ----------------------------------------------------- the generator's cycle

  /** The inverse of 9301 modulo 233280. */
  const INVERSE := 123901

  /** The step backwards. */
  function PreviousSeed(seed: int): int { ((seed - 49297) * INVERSE) % MODULUS }

  lemma {:induction false} Residue(x: int, k: int, y: int)
    requires x == y + k * MODULUS && 0 <= y < MODULUS
    ensures x % MODULUS == y
  {
  }

  /** Seeds stay in range and stepping permutes them, so no two seeds ever merge. */
  lemma {:induction false} SeedStepIsBijective(seed: int)
    requires IsSeed(seed)
    ensures IsSeed(NextSeed(seed)) && IsSeed(PreviousSeed(seed))
    ensures PreviousSeed(NextSeed(seed)) == seed && NextSeed(PreviousSeed(seed)) == seed
  {
    assert 9301 * INVERSE == 1 + 4940 * MODULUS;
    var q, r := (seed * 9301 + 49297) / MODULUS, NextSeed(seed);
    assert (r - 49297) * INVERSE == seed + (4940 * seed - q * INVERSE) * MODULUS;
    Residue((r - 49297) * INVERSE, 4940 * seed - q * INVERSE, seed);
    var p, u := PreviousSeed(seed), (seed - 49297) * INVERSE / MODULUS;
    assert p * 9301 + 49297 == seed + (4940 * (seed - 49297) - 9301 * u) * MODULUS;
    Residue(p * 9301 + 49297, 4940 * (seed - 49297) - 9301 * u, seed);
  }

  lemma {:induction false} SeedStaysInRange(seed: int, draws: nat)
    requires IsSeed(seed)
    ensures IsSeed(SeedAfter(seed, draws)) && 0.0 <= Draw(SeedAfter(seed, draws)) < 1.0
  {
    if draws > 0 {
      SeedStaysInRange(seed, draws - 1);
    }
  }

  /** However many numbers are drawn, different seeds lead to different seeds. */
  lemma {:induction false} SeedsNeverMerge(a: int, b: int, draws: nat)
    requires IsSeed(a) && IsSeed(b) && SeedAfter(a, draws) == SeedAfter(b, draws)
    ensures a == b
  {
    if draws > 0 {
      SeedStaysInRange(a, draws - 1);
      SeedStaysInRange(b, draws - 1);
      SeedStepIsBijective(SeedAfter(a, draws - 1));
      SeedStepIsBijective(SeedAfter(b, draws - 1));
      SeedsNeverMerge(a, b, draws - 1);
    }
  }

  // ---------------------------------------------------------------- the candles

  /** A well-shaped candle whose two taker volumes make up its volume exactly. */
  ghost predicate WellShaped(c: Candle) {
    && c.l <= Min(c.o, c.c) && Max(c.o, c.c) <= c.h
    && 0.0 <= c.takerBuyVol && 0.0 <= c.takerSellVol && c.takerBuyVol + c.takerSellVol == c.v && c.v >= 800.0
  }

  lemma {:induction false} CentsOfCents(n: int)
    ensures Cents(n as real / 100.0) == n
  {
  }

  /** Splitting a volume into its rounded buy side and the rounded rest loses nothing. */
  lemma {:induction false} SplitIsExact(v: real, share: real)
    requires v >= 0.0 && 0.0 <= share <= 1.0
    ensures var buy := Fixed2(Share(v, share));
      0.0 <= buy && 0.0 <= Fixed2(Max(0.0, v - buy)) && buy + Fixed2(Max(0.0, v - buy)) == Fixed2(v)
  {
    assert 0.0 <= v * share && 0.0 <= v * (1.0 - share);
    assert v * share == v - v * (1.0 - share);
    var n := Cents(v * share);
    CentsMonotone(0.0, v * share);
    CentsMonotone(v * share, v);
    var buy := n as real / 100.0;
    if v - buy >= 0.0 {
      CentsShift(v - buy, n);
      assert v - buy + n as real / 100.0 == v;
      CentsMonotone(0.0, v - buy);
    } else {
      CentsMonotone(v, buy);
      CentsOfCents(n);
    }
  }

  lemma {:induction false} ConvictionIsShare(r: Raw)
    ensures 0.0 <= Conviction(r) <= 1.0
  {
  }

  lemma {:induction false} RoundedIsWellShaped(t: int, seed: int, price: real)
    requires IsSeed(seed)
    ensures WellShaped(Rounded(t, RawCandle(seed, price)))
  {
    var r := RawCandle(seed, price);
    SeedStaysInRange(seed, 2);
    SeedStaysInRange(seed, 3);
    SeedStaysInRange(seed, 4);
    RawShape(r, Draw(SeedAfter(seed, 2)), Draw(SeedAfter(seed, 3)), Draw(SeedAfter(seed, 4)));
    RoundingKeepsShape(t, r);
  }

  lemma {:induction false} RawShape(r: Raw, up: real, down: real, volume: real)
    requires 0.0 <= up && 0.0 <= down && 0.0 <= volume
    requires r.h == Max(r.o, r.c) + up * 6.0 && r.l == Min(r.o, r.c) - down * 6.0 && r.v == 800.0 + volume * 1400.0
    ensures r.l <= Min(r.o, r.c) && Max(r.o, r.c) <= r.h && r.v >= 800.0
  {
  }

  lemma {:induction false} RoundingKeepsShape(t: int, r: Raw)
    requires r.l <= Min(r.o, r.c) && Max(r.o, r.c) <= r.h && r.v >= 800.0
    ensures WellShaped(Rounded(t, r))
  {
    hide Cents, Conviction, Share;
    CentsMonotone(r.l, r.o);
    CentsMonotone(r.l, r.c);
    CentsMonotone(r.o, r.h);
    CentsMonotone(r.c, r.h);
    CentsMonotone(800.0, r.v);
    assert 80000 as real / 100.0 == 800.0;
    CentsOfCents(80000);
    ConvictionIsShare(r);
    SplitIsExact(r.v, Conviction(r));
    assert Fixed2(r.l) <= Fixed2(r.o) && Fixed2(r.l) <= Fixed2(r.c) && Fixed2(r.o) <= Fixed2(r.h) && Fixed2(r.c) <= Fixed2(r.h);
    assert Fixed2(r.v) >= 800.0;
  }

  /** Every candle of every series: well shaped, on its own interval, and opening where
      the one before it closed. */
  lemma {:induction false} CandlesAreSound(t: int, endMs: int, intervalMs: int, seed: int, price: real, k: nat)
    requires intervalMs > 0 && IsSeed(seed) && k < |CandlesFrom(t, endMs, intervalMs, seed, price)|
    ensures var cs := CandlesFrom(t, endMs, intervalMs, seed, price);
      && WellShaped(cs[k]) && cs[k].t == t + k * intervalMs && cs[k].t <= endMs
      && cs[k].o == (if k == 0 then Fixed2(price) else cs[k - 1].c)
    decreases k
  {
    hide RawCandle, WellShaped, Cents;
    RoundedIsWellShaped(t, seed, price);
    SeedStaysInRange(seed, 4);
    if k > 0 {
      CandlesAreSound(t + intervalMs, endMs, intervalMs, SeedAfter(seed, 4), RawCandle(seed, price).c, k - 1);
    } else {
      assert Rounded(t, RawCandle(seed, price)).o == Fixed2(price) by { RawOpen(seed, price); }
    }
  }

  lemma {:induction false} RawOpen(seed: int, price: real)
    ensures RawCandle(seed, price).o == price
  {
  }

  /** The series does not stop before its end. */
  lemma {:induction false} CandlesReachEnd(t: int, endMs: int, intervalMs: int, seed: int, price: real)
    requires intervalMs > 0
    ensures var n := |CandlesFrom(t, endMs, intervalMs, seed, price)|;
      t + n * intervalMs > endMs && (n > 0 ==> t + (n - 1) * intervalMs <= endMs)
    decreases endMs - t
  {
    hide RawCandle, Rounded, SeedAfter;
    if t <= endMs {
      var raw := RawCandle(seed, price);
      CandlesReachEnd(t + intervalMs, endMs, intervalMs, SeedAfter(seed, 4), raw.c);
      var m := |CandlesFrom(t + intervalMs, endMs, intervalMs, SeedAfter(seed, 4), raw.c)|;
      assert (m + 1) * intervalMs == m * intervalMs + intervalMs;
    }
  }

  ghost predicate InPlace(cs: seq<Candle>, k: int, from: int, endMs: int, intervalMs: int)
    requires 0 <= k < |cs|
  {
    && WellShaped(cs[k]) && cs[k].t == from + k * intervalMs && from <= cs[k].t <= endMs
    && (k > 0 ==> cs[k].o == cs[k - 1].c)
  }

  lemma {:induction false} CandleInPlace(startMs: int, endMs: int, intervalMs: int, k: nat)
    requires intervalMs > 0 && k < |Series(startMs, endMs, intervalMs)|
    ensures InPlace(Series(startMs, endMs, intervalMs), k, AlignedStart(startMs, intervalMs), endMs, intervalMs)
  {
    hide WellShaped, CandlesFrom;
    CandlesAreSound(AlignedStart(startMs, intervalMs), endMs, intervalMs, 1337, 3000.0, k);
    NonNegativeProduct(k, intervalMs);
  }

  lemma {:induction false} MultipleHasCandle(startMs: int, endMs: int, intervalMs: int, m: int)
    requires intervalMs > 0 && AlignedStart(startMs, intervalMs) <= m * intervalMs <= endMs
    ensures var k := m - startMs / intervalMs;
      0 <= k < |Series(startMs, endMs, intervalMs)| && Series(startMs, endMs, intervalMs)[k].t == m * intervalMs
  {
    hide WellShaped, CandlesFrom;
    var cs, from, k := Series(startMs, endMs, intervalMs), AlignedStart(startMs, intervalMs), m - startMs / intervalMs;
    CandlesReachEnd(from, endMs, intervalMs, 1337, 3000.0);
    assert k * intervalMs == m * intervalMs - from;
    BetweenMultiples(k, |cs|, intervalMs);
    CandleInPlace(startMs, endMs, intervalMs, k);
  }

  lemma {:induction false} AlignedBelow(startMs: int, intervalMs: int)
    requires intervalMs > 0
    ensures AlignedStart(startMs, intervalMs) <= startMs < AlignedStart(startMs, intervalMs) + intervalMs
  {
  }

  /** For every start, end and timeframe: the candles stand exactly at the multiples of the
      interval from the aligned start to the end, each well shaped and opening where the
      one before it closed. */
  lemma {:induction false} SeriesIsSound(startMs: int, endMs: int, intervalMs: int)
    requires intervalMs > 0
    ensures var cs, from := Series(startMs, endMs, intervalMs), AlignedStart(startMs, intervalMs);
      && from <= startMs < from + intervalMs
      && (forall k :: 0 <= k < |cs| ==> InPlace(cs, k, from, endMs, intervalMs))
      && (forall m: int :: from <= m * intervalMs <= endMs ==> exists k :: 0 <= k < |cs| && cs[k].t == m * intervalMs)
  {
    hide InPlace, AlignedStart, Series;
    var cs, from := Series(startMs, endMs, intervalMs), AlignedStart(startMs, intervalMs);
    AlignedBelow(startMs, intervalMs);
    forall k | 0 <= k < |cs| ensures InPlace(cs, k, from, endMs, intervalMs) {
      CandleInPlace(startMs, endMs, intervalMs, k);
    }
    forall m: int | from <= m * intervalMs <= endMs ensures exists k :: 0 <= k < |cs| && cs[k].t == m * intervalMs {
      MultipleHasCandle(startMs, endMs, intervalMs, m);
    }
  }

  lemma {:induction false} NonNegativeProduct(k: nat, intervalMs: int)
    requires intervalMs > 0
    ensures 0 <= k * intervalMs
  {
  }

  lemma {:induction false} BetweenMultiples(k: int, n: int, intervalMs: int)
    requires intervalMs > 0 && 0 <= k * intervalMs < n * intervalMs
    ensures 0 <= k < n
  {
    Scale(0, k, intervalMs);
    Scale(n, k, intervalMs);
  }

  /** Extending the end only appends candles. */
  lemma {:induction false} LongerSeriesExtends(t: int, endMs: int, later: int, intervalMs: int, seed: int, price: real)
    requires intervalMs > 0 && endMs <= later
    ensures CandlesFrom(t, endMs, intervalMs, seed, price) <= CandlesFrom(t, later, intervalMs, seed, price)
    decreases endMs - t
  {
    hide RawCandle, Rounded, SeedAfter;
    if t <= endMs {
      LongerSeriesExtends(t + intervalMs, endMs, later, intervalMs, SeedAfter(seed, 4), RawCandle(seed, price).c);
    }
  }

  lemma {:induction false} ExtendingOnlyAppends(startMs: int, endMs: int, later: int, intervalMs: int)
    requires intervalMs > 0 && endMs <= later
    ensures Series(startMs, endMs, intervalMs) <= Series(startMs, later, intervalMs)
  {
    LongerSeriesExtends(AlignedStart(startMs, intervalMs), endMs, later, intervalMs, 1337, 3000.0);
  }

  /** Candles are numbered from the start, not from the clock: a shifted start gives the
      same candles at shifted times, so series with different starts disagree about the
      same minute (which is why the audit slices one master series). */
  lemma {:induction false} CandlesShift(t: int, endMs: int, shift: int, intervalMs: int, seed: int, price: real, k: nat)
    requires intervalMs > 0 && k < |CandlesFrom(t, endMs, intervalMs, seed, price)|
    ensures |CandlesFrom(t + shift, endMs + shift, intervalMs, seed, price)| == |CandlesFrom(t, endMs, intervalMs, seed, price)|
    ensures var c := CandlesFrom(t, endMs, intervalMs, seed, price)[k];
      CandlesFrom(t + shift, endMs + shift, intervalMs, seed, price)[k] == c.(t := c.t + shift)
    decreases endMs - t
  {
    hide RawCandle, SeedAfter, Cents, Conviction;
    if k > 0 {
      CandlesShift(t + intervalMs, endMs, shift, intervalMs, SeedAfter(seed, 4), RawCandle(seed, price).c, k - 1);
      assert t + intervalMs + shift == t + shift + intervalMs;
    } else {
      SameLength(t, endMs, shift, intervalMs, seed, price);
      var raw := RawCandle(seed, price);
      assert Rounded(t + shift, raw) == Rounded(t, raw).(t := t + shift);
    }
  }

  lemma {:induction false} SameLength(t: int, endMs: int, shift: int, intervalMs: int, seed: int, price: real)
    requires intervalMs > 0
    ensures |CandlesFrom(t + shift, endMs + shift, intervalMs, seed, price)| == |CandlesFrom(t, endMs, intervalMs, seed, price)|
    decreases endMs - t
  {
    hide RawCandle, Rounded, SeedAfter;
    if t <= endMs {
      SameLength(t + intervalMs, endMs, shift, intervalMs, SeedAfter(seed, 4), RawCandle(seed, price).c);
      assert t + intervalMs + shift == t + shift + intervalMs;
    }
  }

  // -------------------------------------------------- candle k in closed form

  lemma {:induction false} DrawsAddUp(seed: int, m: nat, n: nat)
    ensures SeedAfter(SeedAfter(seed, m), n) == SeedAfter(seed, m + n)
  {
    if n > 0 {
      DrawsAddUp(seed, m, n - 1);
    }
  }

  /** The exact price before candle k: the start and the moves of the candles before, each
      made from the first of its four draws. */
  ghost function PriceBefore(seed: int, price: real, k: nat): real {
    if k == 0 then price
    else PriceBefore(seed, price, k - 1) + 12.0 * (SeedAfter(seed, 4 * k - 3) as real / 233280.0 - 0.49)
  }

  lemma {:induction false} PricesAddUp(seed: int, price: real, k: nat)
    requires k > 0
    ensures PriceBefore(seed, price, k) == PriceBefore(SeedAfter(seed, 4), PriceBefore(seed, price, 1), k - 1)
  {
    if k > 1 {
      PricesAddUp(seed, price, k - 1);
      DrawsAddUp(seed, 4, 4 * (k - 1) - 3);
    }
  }

  /** The buyers' share of a bar: the close's place in the range, cut to [0, 1]. */
  ghost predicate IsBuyShare(share: real, h: real, l: real, c: real) {
    var range := if h - l > 0.0001 then h - l else 0.0001;
    && 0.0 <= share <= 1.0
    && (if c - l <= 0.0 then share == 0.0 else if c - l >= range then share == 1.0 else share * range == c - l)
  }

  /** A candle from its exact prices and volume: everything rounded to cents, the sellers
      getting what the rounded buyers leave. */
  ghost predicate IsCandle(candle: Candle, t: int, o: real, h: real, l: real, c: real, v: real) {
    exists share: real :: IsBuyShare(share, h, l, c)
      && var buy := Fixed2(v * share);
         candle == Candle(t, Fixed2(o), Fixed2(h), Fixed2(l), Fixed2(c), Fixed2(v), buy, Fixed2(if v > buy then v - buy else 0.0), true)
  }

  lemma {:induction false} Clamped(x: real, range: real)
    requires range > 0.0
    ensures var share := Min(1.0, Max(0.0, x / range));
      && 0.0 <= share <= 1.0
      && (if x <= 0.0 then share == 0.0 else if x >= range then share == 1.0 else share * range == x)
  {
    QuotientOrder(x, range, 0.0);
    QuotientOrder(x, range, 1.0);
    assert x / range * range == x;
  }

  lemma {:induction false} QuotientOrder(x: real, range: real, y: real)
    requires range > 0.0
    ensures x / range > y <==> x > y * range
    ensures x / range < y <==> x < y * range
  {
    var q := x / range;
    assert q * range == x;
    assert (q - y) * range == x - y * range;
  }

  lemma {:induction false} ConvictionIsBuyShare(r: Raw)
    ensures IsBuyShare(Conviction(r), r.h, r.l, r.c)
  {
    Clamped(r.c - r.l, Max(0.0001, r.h - r.l));
  }

  lemma {:induction false} RoundedIsCandle(t: int, r: Raw)
    ensures IsCandle(Rounded(t, r), t, r.o, r.h, r.l, r.c, r.v)
  {
    hide Fixed2, Conviction, IsBuyShare;
    ConvictionIsBuyShare(r);
    var share := Conviction(r);
    assert Share(r.v, share) == r.v * share;
  }

  /** Candle k of a series takes draws 4k + 1 to 4k + 4 of one sequence: a move of up to 12
      about the price before it, wicks of up to 6 on either side, and a volume from 800. */
  ghost predicate IsCandleK(candle: Candle, t: int, seed: int, price: real, k: nat) {
    var o, c := PriceBefore(seed, price, k), PriceBefore(seed, price, k + 1);
    var up, down := 6.0 * (SeedAfter(seed, 4 * k + 2) as real / 233280.0), 6.0 * (SeedAfter(seed, 4 * k + 3) as real / 233280.0);
    IsCandle(candle, t, o, (if o < c then c else o) + up, (if o < c then o else c) - down, c,
             800.0 + 1400.0 * (SeedAfter(seed, 4 * k + 4) as real / 233280.0))
  }

  lemma {:induction false} FirstCandle(t: int, seed: int, price: real)
    ensures IsCandleK(Rounded(t, RawCandle(seed, price)), t, seed, price, 0)
    ensures RawCandle(seed, price).c == PriceBefore(seed, price, 1)
  {
    hide SeedAfter, Rounded, IsCandle;
    var r := RawCandle(seed, price);
    RoundedIsCandle(t, r);
    assert PriceBefore(seed, price, 0) == price;
    assert r.c == PriceBefore(seed, price, 1);
    assert r.v == 800.0 + 1400.0 * (SeedAfter(seed, 4) as real / 233280.0);
    assert r.h == (if r.o < r.c then r.c else r.o) + 6.0 * (SeedAfter(seed, 2) as real / 233280.0);
    assert r.l == (if r.o < r.c then r.o else r.c) - 6.0 * (SeedAfter(seed, 3) as real / 233280.0);
  }

  lemma {:induction false} LaterCandle(candle: Candle, t: int, seed: int, price: real, k: nat)
    requires k > 0 && IsCandleK(candle, t, SeedAfter(seed, 4), PriceBefore(seed, price, 1), k - 1)
    ensures IsCandleK(candle, t, seed, price, k)
  {
    hide SeedAfter, IsCandle, PriceBefore;
    PricesAddUp(seed, price, k);
    PricesAddUp(seed, price, k + 1);
    DrawsAddUp(seed, 4, 4 * (k - 1) + 2);
    DrawsAddUp(seed, 4, 4 * (k - 1) + 3);
    DrawsAddUp(seed, 4, 4 * (k - 1) + 4);
  }

  lemma {:induction false} CandleInClosedForm(t: int, endMs: int, intervalMs: int, seed: int, price: real, k: nat)
    requires intervalMs > 0 && k < |CandlesFrom(t, endMs, intervalMs, seed, price)|
    ensures IsCandleK(CandlesFrom(t, endMs, intervalMs, seed, price)[k], t + k * intervalMs, seed, price, k)
    decreases k
  {
    hide RawCandle, Rounded, IsCandleK, PriceBefore;
    FirstCandle(t, seed, price);
    if k > 0 {
      CandleInClosedForm(t + intervalMs, endMs, intervalMs, SeedAfter(seed, 4), RawCandle(seed, price).c, k - 1);
      assert t + intervalMs + (k - 1) * intervalMs == t + k * intervalMs;
      LaterCandle(CandlesFrom(t, endMs, intervalMs, seed, price)[k], t + k * intervalMs, seed, price, k);
    }
  }

  /** Every candle of every series, in closed form: seed 1337, price 3000. */
  lemma {:induction false} SeriesInClosedForm(startMs: int, endMs: int, intervalMs: int, k: nat)
    requires intervalMs > 0 && k < |Series(startMs, endMs, intervalMs)|
    ensures var from := startMs / intervalMs * intervalMs;
      IsCandleK(Series(startMs, endMs, intervalMs)[k], from + k * intervalMs, 1337, 3000.0, k)
  {
    CandleInClosedForm(AlignedStart(startMs, intervalMs), endMs, intervalMs, 1337, 3000.0, k);
  }

  /** The known timeframes in minutes; any other counts as fifteen. */
  lemma {:induction false} TimeframeTable(tf: string)
    ensures TimeframeToMs(tf) == 60_000 *
      match tf
      case "1m" => 1
      case "5m" => 5
      case "1h" => 60
      case "4h" => 240
      case "1d" => 1440
      case _ => 15
  {
  }
}
