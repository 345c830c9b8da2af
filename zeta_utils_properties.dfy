/** What the margin engine, the oracle arithmetic and the market index promise. */
module ZetaUtilsProperties {
  import opened Errors
  import opened FixedPoint
  import opened ZetaUtils

  // ---------------------------------------------------------------------------
  // OTM amount

  /** A call is further out of the money the higher its strike and the lower spot;
      a put the other way round. */
  lemma OtmAmountMonotone(spot1: U64, spot2: U64, strike1: U64, strike2: U64)
    ensures strike1 <= strike2 && spot2 <= spot1 ==>
              OtmAmount(spot1, strike1, Call).value <= OtmAmount(spot2, strike2, Call).value
    ensures strike2 <= strike1 && spot1 <= spot2 ==>
              OtmAmount(spot1, strike1, Put).value <= OtmAmount(spot2, strike2, Put).value
  {
  }

  // ---------------------------------------------------------------------------
  // Percentage legs

  /** A leg of two u64 values never fails. */
  lemma LegValue(x: U64, pct: U64)
    ensures Leg(x, pct) == Ok(x * pct / NATIVE_PRECISION_DENOMINATOR)
  {
    MulDivU64(x, pct, NATIVE_PRECISION_DENOMINATOR);
  }

  lemma LegMono(x1: U64, x2: U64, pct1: U64, pct2: U64)
    requires x1 <= x2 && pct1 <= pct2
    ensures Leg(x1, pct1).Ok? && Leg(x1, pct1).value <= Leg(x2, pct2).value
  {
    LegValue(x1, pct1);
    LegValue(x2, pct2);
    MulMono(x1, x2, pct1);
    MulMono(pct1, pct2, x2);
    assert pct1 * x2 == x2 * pct1 && pct2 * x2 == x2 * pct2;
    DivMono(x1 * pct1, x2 * pct2, NATIVE_PRECISION_DENOMINATOR);
  }

  // ---------------------------------------------------------------------------
  // Futures and long options

  /** The initial margin of a future is `spot * future_margin_initial / DENOM` on every side. */
  lemma InitialFutureMargin(spot: U64, strike: U64, mark: U64, side: Side, p: MarginParameters)
    ensures InitialMarginPerLot(spot, strike, mark, Future, side, p) ==
              NarrowU64(spot * p.futureMarginInitial / NATIVE_PRECISION_DENOMINATOR)
  {
    LegValue(spot, p.futureMarginInitial);
  }

  /** The maintenance margin of a future is `spot * future_margin_maintenance / DENOM`. */
  lemma MaintenanceFutureMargin(spot: U64, strike: U64, mark: U64, long: bool, p: MarginParameters)
    ensures MaintenanceMarginPerLot(spot, strike, mark, Future, long, p) ==
              NarrowU64(spot * p.futureMarginMaintenance / NATIVE_PRECISION_DENOMINATOR)
  {
    LegValue(spot, p.futureMarginMaintenance);
  }

  /** A long option's margin is the smaller of its spot leg and its mark leg, so it is at
      most either leg; it fails only when that minimum does not fit in a u64. */
  lemma LongOptionMarginValue(spot: U64, mark: U64, spotPct: U64, markPct: U64)
    ensures LongOptionMargin(spot, mark, spotPct, markPct) ==
              Ok(Min(spot * spotPct / NATIVE_PRECISION_DENOMINATOR, mark * markPct / NATIVE_PRECISION_DENOMINATOR))
  {
    LegValue(spot, spotPct);
    LegValue(mark, markPct);
  }

  lemma InitialLongOption(spot: U64, strike: U64, mark: U64, product: Kind, p: MarginParameters)
    requires IsOption(product)
    ensures var r := InitialMarginPerLot(spot, strike, mark, product, Bid, p);
            var spotLeg := spot * p.optionSpotPercentageLongInitial / NATIVE_PRECISION_DENOMINATOR;
            var markLeg := mark * p.optionMarkPercentageLongInitial / NATIVE_PRECISION_DENOMINATOR;
            r == NarrowU64(Min(spotLeg, markLeg)) && (r.Ok? ==> r.value <= spotLeg && r.value <= markLeg)
  {
    LongOptionMarginValue(spot, mark, p.optionSpotPercentageLongInitial, p.optionMarkPercentageLongInitial);
  }

  lemma MaintenanceLongOption(spot: U64, strike: U64, mark: U64, product: Kind, p: MarginParameters)
    requires IsOption(product)
    ensures var r := MaintenanceMarginPerLot(spot, strike, mark, product, true, p);
            var spotLeg := spot * p.optionSpotPercentageLongMaintenance / NATIVE_PRECISION_DENOMINATOR;
            var markLeg := mark * p.optionMarkPercentageLongMaintenance / NATIVE_PRECISION_DENOMINATOR;
            r == NarrowU64(Min(spotLeg, markLeg)) && (r.Ok? ==> r.value <= spotLeg && r.value <= markLeg)
  {
    LongOptionMarginValue(spot, mark, p.optionSpotPercentageLongMaintenance, p.optionMarkPercentageLongMaintenance);
  }

  // ---------------------------------------------------------------------------
  // Short options

  /** The short-option percentage: the dynamic one less the OTM percentage (clamped at
      zero), never below the static floor. */
  function ShortMarginPct(spot: U64, otm: U64, dynamicPct: U64, staticPct: U64): U64
    requires spot > 0
  {
    var otmAmountScaled: nat := otm * NATIVE_PRECISION_DENOMINATOR;
    var otmPct: nat := otmAmountScaled / spot;
    Max(if dynamicPct >= otmPct then dynamicPct - otmPct else 0, staticPct)
  }

  /** DynamicShortMargin fails exactly when spot is zero (division by zero) or the OTM
      percentage overflows u128, and is otherwise `max(dynamic ∸ otm%, static) * spot / DENOM`. */
  lemma DynamicShortMarginValue(spot: U64, otm: U64, dynamicPct: U64, staticPct: U64)
    ensures var r := DynamicShortMargin(spot, otm, dynamicPct, staticPct);
            (r.Ok? <==> spot > 0 && otm * NATIVE_PRECISION_DENOMINATOR < U128_LIMIT) &&
            (spot == 0 ==> r == Err(ArithmeticError)) &&
            (r.Ok? ==> r.value == ShortMarginPct(spot, otm, dynamicPct, staticPct) * spot / NATIVE_PRECISION_DENOMINATOR)
  {
    if spot > 0 && otm * NATIVE_PRECISION_DENOMINATOR < U128_LIMIT {
      U64Product(ShortMarginPct(spot, otm, dynamicPct, staticPct), spot);
    }
  }

  /** The short margin never falls below the static floor `static * spot / DENOM`. */
  lemma DynamicShortMarginFloor(spot: U64, otm: U64, dynamicPct: U64, staticPct: U64)
    requires DynamicShortMargin(spot, otm, dynamicPct, staticPct).Ok?
    ensures DynamicShortMargin(spot, otm, dynamicPct, staticPct).value >=
              staticPct * spot / NATIVE_PRECISION_DENOMINATOR
  {
    DynamicShortMarginValue(spot, otm, dynamicPct, staticPct);
    var pct := ShortMarginPct(spot, otm, dynamicPct, staticPct);
    MulMono(staticPct, pct, spot);
    DivMono(staticPct * spot, pct * spot, NATIVE_PRECISION_DENOMINATOR);
  }

  /** Once the OTM percentage reaches the dynamic percentage, the margin is the floor. */
  lemma DynamicShortMarginDeepOtm(spot: U64, otm: U64, dynamicPct: U64, staticPct: U64)
    requires DynamicShortMargin(spot, otm, dynamicPct, staticPct).Ok?
    requires otm * NATIVE_PRECISION_DENOMINATOR / spot >= dynamicPct
    ensures DynamicShortMargin(spot, otm, dynamicPct, staticPct).value ==
              staticPct * spot / NATIVE_PRECISION_DENOMINATOR
  {
    DynamicShortMarginValue(spot, otm, dynamicPct, staticPct);
  }

  /** The further out of the money, the smaller (or equal) the short margin. */
  lemma DynamicShortMarginAntitone(spot: U64, otm1: U64, otm2: U64, dynamicPct: U64, staticPct: U64)
    requires otm1 <= otm2
    requires DynamicShortMargin(spot, otm2, dynamicPct, staticPct).Ok?
    ensures DynamicShortMargin(spot, otm1, dynamicPct, staticPct).Ok?
    ensures DynamicShortMargin(spot, otm2, dynamicPct, staticPct).value <=
              DynamicShortMargin(spot, otm1, dynamicPct, staticPct).value
  {
    DynamicShortMarginValue(spot, otm2, dynamicPct, staticPct);
    MulMono(otm1, otm2, NATIVE_PRECISION_DENOMINATOR);
    DynamicShortMarginValue(spot, otm1, dynamicPct, staticPct);
    DivMono(otm1 * NATIVE_PRECISION_DENOMINATOR, otm2 * NATIVE_PRECISION_DENOMINATOR, spot);
    var pct1 := ShortMarginPct(spot, otm1, dynamicPct, staticPct);
    var pct2 := ShortMarginPct(spot, otm2, dynamicPct, staticPct);
    assert pct2 <= pct1;
    MulMono(pct2, pct1, spot);
    DivMono(pct2 * spot, pct1 * spot, NATIVE_PRECISION_DENOMINATOR);
  }

  /** The short margin grows (weakly) with both percentages. */
  lemma DynamicShortMarginMonoInPct(spot: U64, otm: U64, dyn1: U64, dyn2: U64, stat1: U64, stat2: U64)
    requires dyn1 <= dyn2 && stat1 <= stat2
    requires DynamicShortMargin(spot, otm, dyn2, stat2).Ok?
    ensures DynamicShortMargin(spot, otm, dyn1, stat1).Ok?
    ensures DynamicShortMargin(spot, otm, dyn1, stat1).value <= DynamicShortMargin(spot, otm, dyn2, stat2).value
  {
    DynamicShortMarginValue(spot, otm, dyn2, stat2);
    DynamicShortMarginValue(spot, otm, dyn1, stat1);
    var pct1 := ShortMarginPct(spot, otm, dyn1, stat1);
    var pct2 := ShortMarginPct(spot, otm, dyn2, stat2);
    MulMono(pct1, pct2, spot);
    DivMono(pct1 * spot, pct2 * spot, NATIVE_PRECISION_DENOMINATOR);
  }

  /** A short option with a zero spot price fails: the OTM percentage divides by spot. */
  lemma ShortOptionZeroSpot(strike: U64, mark: U64, product: Kind, p: MarginParameters)
    requires IsOption(product)
    ensures InitialMarginPerLot(0, strike, mark, product, Ask, p) == Err(ArithmeticError)
    ensures MaintenanceMarginPerLot(0, strike, mark, product, false, p) == Err(ArithmeticError)
  {
    DynamicShortMarginValue(0, OtmAmount(0, strike, product).value,
                            p.optionDynamicPercentageShortInitial, p.optionSpotPercentageShortInitial);
    DynamicShortMarginValue(0, OtmAmount(0, strike, product).value,
                            p.optionDynamicPercentageShortMaintenance, p.optionSpotPercentageShortMaintenance);
  }

  /** A short call pays the dynamic short margin of its OTM amount, uncapped, and so
      never less than the static floor. */
  lemma InitialShortCall(spot: U64, strike: U64, mark: U64, p: MarginParameters)
    ensures var raw := DynamicShortMargin(spot, Max(strike - spot, 0),
                                          p.optionDynamicPercentageShortInitial, p.optionSpotPercentageShortInitial);
            var r := InitialMarginPerLot(spot, strike, mark, Call, Ask, p);
            (r.Ok? <==> raw.Ok? && raw.value < U64_LIMIT) &&
            (r.Ok? ==> r.value == raw.value &&
                       r.value >= p.optionSpotPercentageShortInitial * spot / NATIVE_PRECISION_DENOMINATOR)
  {
    var raw := DynamicShortMargin(spot, Max(strike - spot, 0),
                                  p.optionDynamicPercentageShortInitial, p.optionSpotPercentageShortInitial);
    if raw.Ok? {
      DynamicShortMarginFloor(spot, Max(strike - spot, 0),
                              p.optionDynamicPercentageShortInitial, p.optionSpotPercentageShortInitial);
    }
  }

  /** A short put pays the smaller of the dynamic short margin and the cap
      `strike * option_short_put_cap_percentage / DENOM`. */
  lemma InitialShortPut(spot: U64, strike: U64, mark: U64, p: MarginParameters)
    ensures var raw := DynamicShortMargin(spot, Max(spot - strike, 0),
                                          p.optionDynamicPercentageShortInitial, p.optionSpotPercentageShortInitial);
            var cap := strike * p.optionShortPutCapPercentage / NATIVE_PRECISION_DENOMINATOR;
            var r := InitialMarginPerLot(spot, strike, mark, Put, Ask, p);
            (raw.Err? ==> r == Err(raw.error)) &&
            (raw.Ok? ==> r == NarrowU64(Min(raw.value, cap)))
  {
    LegValue(strike, p.optionShortPutCapPercentage);
  }

  /** The put cap applies to short puts only: for every other kind and side the cap
      percentage does not affect the initial margin. */
  lemma InitialCapOnlyForShortPut(spot: U64, strike: U64, mark: U64, product: Kind, side: Side,
                                  p: MarginParameters, otherCap: U64)
    requires !(product == Put && side == Ask)
    ensures InitialMarginPerLot(spot, strike, mark, product, side, p) ==
            InitialMarginPerLot(spot, strike, mark, product, side, p.(optionShortPutCapPercentage := otherCap))
  {
  }

  /** The maintenance counterpart: the put cap applies only when a put is held short. */
  lemma MaintenanceCapOnlyForShortPut(spot: U64, strike: U64, mark: U64, product: Kind, long: bool,
                                      p: MarginParameters, otherCap: U64)
    requires !(product == Put && !long)
    ensures MaintenanceMarginPerLot(spot, strike, mark, product, long, p) ==
            MaintenanceMarginPerLot(spot, strike, mark, product, long, p.(optionShortPutCapPercentage := otherCap))
  {
  }

  /** Moving a short call's strike further out of the money never raises its margin. */
  lemma ShortCallAntitoneInStrike(spot: U64, strike1: U64, strike2: U64, mark: U64, p: MarginParameters)
    requires strike1 <= strike2
    requires InitialMarginPerLot(spot, strike1, mark, Call, Ask, p).Ok?
    requires InitialMarginPerLot(spot, strike2, mark, Call, Ask, p).Ok?
    ensures InitialMarginPerLot(spot, strike2, mark, Call, Ask, p).value <=
              InitialMarginPerLot(spot, strike1, mark, Call, Ask, p).value
  {
    InitialShortCall(spot, strike1, mark, p);
    InitialShortCall(spot, strike2, mark, p);
    DynamicShortMarginAntitone(spot, Max(strike1 - spot, 0), Max(strike2 - spot, 0),
                               p.optionDynamicPercentageShortInitial, p.optionSpotPercentageShortInitial);
  }

  /** Moving a short put's strike further out of the money (lower) never raises its
      margin: both the dynamic margin and the cap shrink. */
  lemma ShortPutAntitoneInStrike(spot: U64, strike1: U64, strike2: U64, mark: U64, p: MarginParameters)
    requires strike1 <= strike2
    requires InitialMarginPerLot(spot, strike1, mark, Put, Ask, p).Ok?
    requires InitialMarginPerLot(spot, strike2, mark, Put, Ask, p).Ok?
    ensures InitialMarginPerLot(spot, strike1, mark, Put, Ask, p).value <=
              InitialMarginPerLot(spot, strike2, mark, Put, Ask, p).value
  {
    InitialShortPut(spot, strike1, mark, p);
    InitialShortPut(spot, strike2, mark, p);
    var dyn, stat := p.optionDynamicPercentageShortInitial, p.optionSpotPercentageShortInitial;
    DynamicShortMarginAntitone(spot, Max(spot - strike2, 0), Max(spot - strike1, 0), dyn, stat);
    LegMono(strike1, strike2, p.optionShortPutCapPercentage, p.optionShortPutCapPercentage);
    LegValue(strike1, p.optionShortPutCapPercentage);
    LegValue(strike2, p.optionShortPutCapPercentage);
  }

  /** A short put with spot 100, strike 90 (six decimals), a 50%
      dynamic, 10% static and 20% cap percentage. The put is 10 out of the money (10% of
      spot), so the dynamic percentage drops to 40% and the raw margin is 40; the cap of
      20% of the strike, 18, is the margin per lot. */
  lemma ShortPutScenario(mark: U64, p: MarginParameters)
    requires NATIVE_PRECISION_DENOMINATOR == 1_000000
    requires p.optionDynamicPercentageShortInitial == 500000
    requires p.optionSpotPercentageShortInitial == 100000
    requires p.optionShortPutCapPercentage == 200000
    ensures OtmAmount(100_000000, 90_000000, Put) == Ok(10_000000)
    ensures DynamicShortMargin(100_000000, 10_000000, 500000, 100000) == Ok(40_000000)
    ensures SellPutCapMargin(90_000000, 200000) == Ok(18_000000)
    ensures InitialMarginPerLot(100_000000, 90_000000, mark, Put, Ask, p) == Ok(18_000000)
  {
    DynamicShortMarginValue(100_000000, 10_000000, 500000, 100000);
    LegValue(90_000000, 200000);
    InitialShortPut(100_000000, 90_000000, mark, p);
  }

  // ---------------------------------------------------------------------------
  // Maintenance against initial

  /** The parameters with every initial field replaced by its maintenance counterpart. */
  function AsInitialParameters(p: MarginParameters): MarginParameters {
    p.(futureMarginInitial := p.futureMarginMaintenance,
       optionMarkPercentageLongInitial := p.optionMarkPercentageLongMaintenance,
       optionSpotPercentageLongInitial := p.optionSpotPercentageLongMaintenance,
       optionSpotPercentageShortInitial := p.optionSpotPercentageShortMaintenance,
       optionDynamicPercentageShortInitial := p.optionDynamicPercentageShortMaintenance)
  }

  /** Maintenance margin is initial margin on the maintenance percentages, with
      `long` in the place of Side::Bid and `!long` in the place of Side::Ask. */
  lemma MaintenanceIsInitialShape(spot: U64, strike: U64, mark: U64, product: Kind, long: bool,
                                  p: MarginParameters)
    ensures MaintenanceMarginPerLot(spot, strike, mark, product, long, p) ==
            InitialMarginPerLot(spot, strike, mark, product, if long then Bid else Ask, AsInitialParameters(p))
  {
  }

  /** Every initial percentage of `q` is at most that of `p`, with the same put cap. */
  predicate InitialAtMost(q: MarginParameters, p: MarginParameters) {
    && q.futureMarginInitial <= p.futureMarginInitial
    && q.optionMarkPercentageLongInitial <= p.optionMarkPercentageLongInitial
    && q.optionSpotPercentageLongInitial <= p.optionSpotPercentageLongInitial
    && q.optionSpotPercentageShortInitial <= p.optionSpotPercentageShortInitial
    && q.optionDynamicPercentageShortInitial <= p.optionDynamicPercentageShortInitial
    && q.optionShortPutCapPercentage == p.optionShortPutCapPercentage
  }

  /** Lower percentages never give a higher initial margin, nor make it fail. */
  lemma InitialMonotoneInParameters(spot: U64, strike: U64, mark: U64, product: Kind, side: Side,
                                    q: MarginParameters, p: MarginParameters)
    requires InitialAtMost(q, p)
    requires InitialMarginPerLot(spot, strike, mark, product, side, p).Ok?
    ensures InitialMarginPerLot(spot, strike, mark, product, side, q).Ok?
    ensures InitialMarginPerLot(spot, strike, mark, product, side, q).value <=
              InitialMarginPerLot(spot, strike, mark, product, side, p).value
  {
    var rawQ := InitialMarginRaw(spot, strike, mark, product, side, q);
    var rawP := InitialMarginRaw(spot, strike, mark, product, side, p);
    match product
    case Future =>
      LegMono(spot, spot, q.futureMarginInitial, p.futureMarginInitial);
    case Call | Put =>
      match side
      case Bid =>
        LegMono(spot, spot, q.optionSpotPercentageLongInitial, p.optionSpotPercentageLongInitial);
        LegMono(mark, mark, q.optionMarkPercentageLongInitial, p.optionMarkPercentageLongInitial);
      case Ask =>
        var otm := OtmAmount(spot, strike, product).value;
        DynamicShortMarginMonoInPct(spot, otm,
                                    q.optionDynamicPercentageShortInitial, p.optionDynamicPercentageShortInitial,
                                    q.optionSpotPercentageShortInitial, p.optionSpotPercentageShortInitial);
        assert rawQ.Ok? && rawQ.value <= rawP.value;
    case Uninitialized =>
  }

  /** When each maintenance percentage is at most its initial counterpart, the
      maintenance margin of a position is at most its initial margin. */
  predicate MaintenanceAtMostInitial(p: MarginParameters) {
    InitialAtMost(AsInitialParameters(p), p)
  }

  lemma MaintenanceBelowInitial(spot: U64, strike: U64, mark: U64, product: Kind, side: Side,
                                p: MarginParameters)
    requires side != Side.Uninitialized
    requires MaintenanceAtMostInitial(p)
    requires InitialMarginPerLot(spot, strike, mark, product, side, p).Ok?
    ensures MaintenanceMarginPerLot(spot, strike, mark, product, side == Bid, p).Ok?
    ensures MaintenanceMarginPerLot(spot, strike, mark, product, side == Bid, p).value <=
              InitialMarginPerLot(spot, strike, mark, product, side, p).value
  {
    MaintenanceIsInitialShape(spot, strike, mark, product, side == Bid, p);
    InitialMonotoneInParameters(spot, strike, mark, product, side, AsInitialParameters(p), p);
  }

  // ---------------------------------------------------------------------------
  // Oracle price

  /** The normalised price is `mantissa * 10^precision / 10^(-expo)`; it fails when the
      exponent is positive, when its negation overflows i32, or when a power of ten or
      the product overflows u128. */
  lemma ScaleOraclePriceValue(price: I64, expo: I32, precision: U32)
    ensures var r := ScaleOraclePrice(price, expo, precision);
            (r.Ok? <==> && Pow10(precision) < U128_LIMIT
                        && MantissaAsU128(price) * Pow10(precision) < U128_LIMIT
                        && -(expo as int) < I32_LIMIT && expo <= 0
                        && Pow10(-expo) < U128_LIMIT) &&
            (expo > 0 ==> r == Err(ArithmeticError)) &&
            (r.Ok? ==> r.value == MantissaAsU128(price) * Pow10(precision) / Pow10(-expo))
  {
  }

  /** When the target precision has at least as many decimals as the feed, nothing is
      truncated: the result is the mantissa times `10^(precision + expo)`. */
  lemma ScaleOraclePriceExact(price: I64, expo: I32, precision: U32)
    requires price >= 0 && expo <= 0 && precision >= -(expo as int)
    requires ScaleOraclePrice(price, expo, precision).Ok?
    ensures ScaleOraclePrice(price, expo, precision).value == price * Pow10(precision + expo)
  {
    ScaleOraclePriceValue(price, expo, precision);
    var k: nat := precision + expo;
    var n: nat := -(expo as int);
    Pow10Add(k, n);
    ExactQuotient(price, Pow10(k), Pow10(n));
  }

  lemma ExactQuotient(x: nat, s: nat, d: nat)
    requires d > 0
    ensures x * (s * d) / d == x * s
  {
    assert x * (s * d) == (x * s) * d;
    DivUnique(x * (s * d), d, x * s, 0);
  }

  /** Normalising to the feed's own number of decimals returns the mantissa. */
  lemma ScaleOraclePriceIdentity(price: I64, expo: I32)
    requires price >= 0 && expo <= 0 && -(expo as int) < U32_LIMIT
    requires ScaleOraclePrice(price, expo, -(expo as int)).Ok?
    ensures ScaleOraclePrice(price, expo, -(expo as int)) == Ok(price)
  {
    ScaleOraclePriceExact(price, expo, -(expo as int));
  }

  /** A negative mantissa, read as a huge u128, always overflows once scaled by ten or more. */
  lemma NegativeMantissaFails(price: I64, expo: I32, precision: U32)
    requires price < 0 && precision >= 1
    ensures ScaleOraclePrice(price, expo, precision) == Err(ArithmeticError)
  {
    ScaleOraclePriceValue(price, expo, precision);
    Pow10Add(1, precision - 1);
    MulMono(10, Pow10(precision), MantissaAsU128(price));
    assert MantissaAsU128(price) * 10 >= U128_LIMIT;
    assert Pow10(precision) * MantissaAsU128(price) == MantissaAsU128(price) * Pow10(precision);
  }

  // ---------------------------------------------------------------------------
  // Market table index

  /** Dividing a market index by NUM_PRODUCTS_PER_SERIES recovers the expiry series and
      the product within it. */
  lemma MarketIndexRoundTrip(expiryIndex: U64, productIndex: U64)
    requires productIndex < NUM_PRODUCTS_PER_SERIES
    requires ProductsSliceMarketIndex(expiryIndex, productIndex).Ok?
    ensures ProductsSliceMarketIndex(expiryIndex, productIndex).value / NUM_PRODUCTS_PER_SERIES == expiryIndex
    ensures ProductsSliceMarketIndex(expiryIndex, productIndex).value % NUM_PRODUCTS_PER_SERIES == productIndex
  {
    DivUnique(ProductsSliceMarketIndex(expiryIndex, productIndex).value, NUM_PRODUCTS_PER_SERIES,
              expiryIndex, productIndex);
  }

  /** Distinct (series, product) pairs get distinct market indices. */
  lemma MarketIndexInjective(e1: U64, p1: U64, e2: U64, p2: U64)
    requires p1 < NUM_PRODUCTS_PER_SERIES && p2 < NUM_PRODUCTS_PER_SERIES
    requires ProductsSliceMarketIndex(e1, p1).Ok? && ProductsSliceMarketIndex(e2, p2).Ok?
    requires ProductsSliceMarketIndex(e1, p1) == ProductsSliceMarketIndex(e2, p2)
    ensures e1 == e2 && p1 == p2
  {
    MarketIndexRoundTrip(e1, p1);
    MarketIndexRoundTrip(e2, p2);
  }
}
