/** The margin engine of the Zeta integration: how far an option is out of the money,
    the initial and maintenance collateral required per lot for futures, calls and
    puts, the normalisation of an oracle price, and the index of a product in the
    flattened market table. Every function is total: panics of the source (an
    `unwrap` on a checked operation, `unreachable!()`) are `Err` results. */
module ZetaUtils {
  import opened Errors
  import opened FixedPoint

  type Denominator = x: int | 0 < x < U128_LIMIT witness 1
  type PositiveUsize = x: int | 0 < x < U64_LIMIT witness 1

  /** Fixed-point scale of prices and percentages (a u128 constant of the Zeta program).
      Its value is left open: the model only relies on it being a positive u128. */
  const NATIVE_PRECISION_DENOMINATOR: Denominator

  /** Number of products in one expiry series (a positive usize constant, value left open). */
  const NUM_PRODUCTS_PER_SERIES: PositiveUsize

  /** Decimal places of a native price (value left open). */
  const PLATFORM_PRECISION: U32

  datatype Kind = Uninitialized | Call | Put | Future

  datatype Side = Uninitialized | Bid | Ask

  /** The percentages (fixed point, scale NATIVE_PRECISION_DENOMINATOR) the margin
      formulas read. */
  datatype MarginParameters = MarginParameters(
    futureMarginInitial: U64,
    futureMarginMaintenance: U64,
    optionMarkPercentageLongInitial: U64,
    optionSpotPercentageLongInitial: U64,
    optionSpotPercentageShortInitial: U64,
    optionDynamicPercentageShortInitial: U64,
    optionMarkPercentageLongMaintenance: U64,
    optionSpotPercentageLongMaintenance: U64,
    optionSpotPercentageShortMaintenance: U64,
    optionDynamicPercentageShortMaintenance: U64,
    optionShortPutCapPercentage: U64)

  predicate IsOption(product: Kind) {
    product == Call || product == Put
  }

  /** `.unwrap().max(0).try_into().unwrap()` applied to a checked i128 difference. */
  function ClampToU64(d: Result<I128>): Result<U64> {
    match d
    case Err(e) => Err(e)
    case Ok(v) => NarrowU64(Max(v, 0))
  }

  /** `get_otm_amount`: the distance between spot and strike in the direction that makes
      the option worthless, computed in i128 and clamped at zero; only calls and puts. */
  function OtmAmount(spot: U64, strike: U64, product: Kind): (r: Result<U64>)
    ensures product == Call ==> r == Ok(Max(strike - spot, 0))
    ensures product == Put ==> r == Ok(Max(spot - strike, 0))
    ensures !IsOption(product) ==> r == Err(UnsupportedKind)
  {
    match product
    case Call => ClampToU64(CheckedSubI128(strike, spot))
    case Put => ClampToU64(CheckedSubI128(spot, strike))
    case _ => Err(UnsupportedKind)
  }

  /** `x * pct / NATIVE_PRECISION_DENOMINATOR` in u128: one percentage leg of a margin. */
  function Leg(x: U64, pct: U64): Result<U128> {
    MulDiv(x, pct, NATIVE_PRECISION_DENOMINATOR)
  }

  /** Margin of a long option: the smaller of a spot leg and a mark leg. */
  function LongOptionMargin(spot: U64, mark: U64, spotPct: U64, markPct: U64): Result<U128> {
    var spotLeg :- Leg(spot, spotPct);
    var markLeg :- Leg(mark, markPct);
    Ok(Min(spotLeg, markLeg))
  }

  /** Margin of a short option whose OTM amount is `otm`: the dynamic percentage falls by
      the OTM percentage of spot (saturating at zero) and is floored by the static one. */
  function DynamicShortMargin(spot: U64, otm: U64, dynamicPct: U64, staticPct: U64): Result<U128> {
    var otmPct :- MulDiv(otm, NATIVE_PRECISION_DENOMINATOR, spot);
    var dynamicMarginPct := SaturatingSub(dynamicPct, otmPct);
    var marginPct := Max(dynamicMarginPct, staticPct);
    MulDiv(marginPct, spot, NATIVE_PRECISION_DENOMINATOR)
  }

  /** Margin of a short option: its OTM amount fed to DynamicShortMargin. */
  function ShortOptionMargin(spot: U64, strike: U64, product: Kind, dynamicPct: U64, staticPct: U64): Result<U128> {
    var otm :- OtmAmount(spot, strike, product);
    DynamicShortMargin(spot, otm, dynamicPct, staticPct)
  }

  /** The ceiling on a short put's margin: a percentage of its strike. */
  function SellPutCapMargin(strike: U64, capPct: U64): Result<U128> {
    Leg(strike, capPct)
  }

  /** The u128 `initial_margin` of `get_initial_margin_per_lot`, before the put cap. */
  function InitialMarginRaw(spot: U64, strike: U64, mark: U64, product: Kind, side: Side,
                            p: MarginParameters): Result<U128>
  {
    match product
    case Future => Leg(spot, p.futureMarginInitial)
    case Call | Put =>
      (match side
       case Bid =>
         LongOptionMargin(spot, mark, p.optionSpotPercentageLongInitial, p.optionMarkPercentageLongInitial)
       case Ask =>
         ShortOptionMargin(spot, strike, product,
                           p.optionDynamicPercentageShortInitial, p.optionSpotPercentageShortInitial)
       case Uninitialized => Err(Unreachable))
    case Uninitialized => Err(UnsupportedKind)
  }

  /** `get_initial_margin_per_lot`. */
  function InitialMarginPerLot(spot: U64, strike: U64, mark: U64, product: Kind, side: Side,
                               p: MarginParameters): (r: Result<U64>)
    ensures product == Kind.Uninitialized ==> r == Err(UnsupportedKind)
    ensures IsOption(product) && side == Side.Uninitialized ==> r == Err(Unreachable)
    ensures product == Put && side == Ask && r.Ok? ==>
              r.value <= strike * p.optionShortPutCapPercentage / NATIVE_PRECISION_DENOMINATOR
  {
    var initialMargin :- InitialMarginRaw(spot, strike, mark, product, side, p);
    if product == Put && side == Ask then
      var cap :- SellPutCapMargin(strike, p.optionShortPutCapPercentage);
      NarrowU64(Min(initialMargin, cap))
    else
      NarrowU64(initialMargin)
  }

  /** The u128 `maintenance_margin` of `get_maintenance_margin_per_lot`, before the put cap. */
  function MaintenanceMarginRaw(spot: U64, strike: U64, mark: U64, product: Kind, long: bool,
                                p: MarginParameters): Result<U128>
  {
    match product
    case Future => Leg(spot, p.futureMarginMaintenance)
    case Call | Put =>
      if long then
        LongOptionMargin(spot, mark, p.optionSpotPercentageLongMaintenance,
                         p.optionMarkPercentageLongMaintenance)
      else
        ShortOptionMargin(spot, strike, product, p.optionDynamicPercentageShortMaintenance,
                          p.optionSpotPercentageShortMaintenance)
    case Uninitialized => Err(UnsupportedKind)
  }

  /** `get_maintenance_margin_per_lot`. */
  function MaintenanceMarginPerLot(spot: U64, strike: U64, mark: U64, product: Kind, long: bool,
                                   p: MarginParameters): (r: Result<U64>)
    ensures product == Kind.Uninitialized ==> r == Err(UnsupportedKind)
    ensures product == Put && !long && r.Ok? ==>
              r.value <= strike * p.optionShortPutCapPercentage / NATIVE_PRECISION_DENOMINATOR
  {
    var maintenanceMargin :- MaintenanceMarginRaw(spot, strike, mark, product, long, p);
    if product == Put && !long then
      var cap :- SellPutCapMargin(strike, p.optionShortPutCapPercentage);
      NarrowU64(Min(maintenanceMargin, cap))
    else
      NarrowU64(maintenanceMargin)
  }

  // ---------------------------------------------------------------------------
  // Oracle price normalisation

  /** `price as u128` for an i64 mantissa: a negative one is reinterpreted in two's complement. */
  function MantissaAsU128(price: I64): U128 {
    if price >= 0 then price else U128_LIMIT + price
  }

  /** The arithmetic shared by `get_native_oracle_price` and `get_oracle_price`:
      `price * 10^precision / 10^(-expo)` in u128, on an already loaded (price, expo) pair. */
  function ScaleOraclePrice(price: I64, expo: I32, precision: U32): Result<U128> {
    var scale :- CheckedPow10(precision);
    var scaled :- CheckedMul(MantissaAsU128(price), scale);
    var negatedExpo :- CheckedNegI32(expo);
    var shift :- NarrowU32(negatedExpo);
    var divisor :- CheckedPow10(shift);
    CheckedDiv(scaled, divisor)
  }

  /** `get_native_oracle_price`: the price at PLATFORM_PRECISION decimals, as a u64. */
  function NativeOraclePrice(price: I64, expo: I32): (r: Result<U64>)
    ensures var scaled := ScaleOraclePrice(price, expo, PLATFORM_PRECISION);
            r.Ok? <==> scaled.Ok? && scaled.value < U64_LIMIT
    ensures r.Ok? ==> ScaleOraclePrice(price, expo, PLATFORM_PRECISION) == Ok(r.value)
  {
    var v :- ScaleOraclePrice(price, expo, PLATFORM_PRECISION);
    NarrowU64(v)
  }

  /** `get_oracle_price`: the price at `precision` decimals, as an i128. */
  function OraclePrice(price: I64, expo: I32, precision: U32): (r: Result<I128>)
    ensures var scaled := ScaleOraclePrice(price, expo, precision);
            r.Ok? <==> scaled.Ok? && scaled.value < I128_LIMIT
    ensures r.Ok? ==> r.value >= 0 && ScaleOraclePrice(price, expo, precision) == Ok(r.value)
  {
    var v :- ScaleOraclePrice(price, expo, precision);
    NarrowI128(v)
  }

  // ---------------------------------------------------------------------------
  // Market table index

  /** `get_products_slice_market_index`: the position of product `productIndex` of expiry
      series `expiryIndex` in the flattened market table, with checked usize arithmetic. */
  function ProductsSliceMarketIndex(expiryIndex: U64, productIndex: U64): (r: Result<U64>)
    ensures r.Ok? <==> expiryIndex * NUM_PRODUCTS_PER_SERIES + productIndex < U64_LIMIT
    ensures r.Ok? ==> r.value == expiryIndex * NUM_PRODUCTS_PER_SERIES + productIndex
  {
    var m :- CheckedMulU64(expiryIndex, NUM_PRODUCTS_PER_SERIES);
    CheckedAddU64(m, productIndex)
  }
}
