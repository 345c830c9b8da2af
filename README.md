# Margin engine and vault deposit of vault-zeta, in Dafny

This project models two calculations of the `vault-zeta` Solana program.

- **The Zeta margin engine** (`zeta_utils.rs`). It covers:
  - the out-of-the-money (OTM) amount of an option;
  - the initial and maintenance collateral per lot for futures, calls and puts. Long options, short options with their "dynamic" percentage and static floor, and the cap on short puts are all covered;
  - the normalisation of an oracle price;
  - the index of a product in the flattened market table.
- **The vault deposit instruction** (`deposit.rs`). It covers:
  - the deposit-cap check;
  - the conversion of a deposit into vault shares (`get_shares`);
  - the fixed order of the steps of `deposit`: approve, lending-market deposit, share computation, mint, update of the vault's total.

Rust's fixed-width integers are modelled as ranges of Dafny integers (`U64`, `U128`, `I128`, …).
Each checked operation that the program `unwrap`s returns `Err(ArithmeticError)` on failure, where the program panics.
`unreachable!()` returns `Err(Unreachable)`, and `UnsupportedKind` is an `Err` as in the program.
Every function is total, and no requires clause stands in for an error path.

Files:

- `errors.dfy`: the error kinds, `Option`, `Result` (usable with `:-`) and `Outcome`.
- `fixed_point.dfy`: integer ranges, checked operations, the multiply-then-divide primitive, and the nonlinear-arithmetic lemmas the proofs need.
- `zeta_utils.dfy`: the margin engine, oracle scaling and market index.
- `zeta_utils_properties.dfy`: what they promise.
- `deposit.dfy`: `get_shares`, the `Vault` class with its `Deposit` method, the function that specifies that method, and their properties.

Assumptions of the model:

- `NATIVE_PRECISION_DENOMINATOR`, `NUM_PRODUCTS_PER_SERIES` and `PLATFORM_PRECISION` are constants whose values are left open. Only their ranges are used: a positive u128, a positive usize, and a u32.
- `usize` is 64 bits wide.
- The program is built with overflow checks on, so an overflowing `+`, `-` or `pow` panics.
- Three helpers are not part of this model, and the model assumes what they do:
  - `ratio!(a, s, v)` is `a * s / v` in u128, truncating. It fails when `v` is zero or the quotient does not fit in a u64.
  - `Vault::after_deposit(amount)` adds `amount` to `total_deposit` with a checked addition.
  - `Vault::for_underlying` is an input function. It may fail, and `get_shares` then panics on its `unwrap`.
- The external calls `approve`, `deposit_liquidity` and `mint_to` are input functions that either pass or fail.
- The share supply and the collateral balance are inputs. They are the values loaded when the instruction starts; Anchor does not reload them after the external calls.

Three consequences of the code that are easy to misread:

- A put's out-of-the-money amount is `spot - strike` (zeta_utils.rs:58-63). A short put with spot 100 and strike 90 is therefore 10 out of the money, or 10% of spot. With a 50% dynamic, 10% static and 20% cap percentage, the dynamic percentage drops to 40% and the raw margin is 40. The cap, 20% of the strike or 18, is the margin per lot (`ShortPutScenario`).
- The short-option percentage subtracts the OTM percentage from the *dynamic* percentage (`option_dynamic_percentage_short_*`, zeta_utils.rs:104-107). The static percentage `option_spot_percentage_short_*` is only the floor (zeta_utils.rs:109-113).
- The cap check `total_deposit + amount > deposit_limit` (deposit.rs:66) uses a plain `+`. When that sum overflows a u64 it panics (`ArithmeticError`) rather than returning `VaultIsFull`. Either way the deposit fails before any external call.

## Model

| member | source | states |
|---|---|---|
| `FixedPoint.MulDiv` | programs/vault-zeta/src/cpi_calls/zeta/zeta_utils.rs:78-82 | `checked_mul(..).unwrap().checked_div(..).unwrap()` on u128: succeeds exactly when the product fits in u128 and the divisor is non-zero; the result is the truncated quotient, `r*d <= a*b < (r+1)*d` |
| `FixedPoint.CheckedPow10` | programs/vault-zeta/src/cpi_calls/zeta/zeta_utils.rs:224-226 | `10u128.pow(k)` succeeds exactly when `k <= 38` (10^38 < 2^128 <= 10^39), and is then `10^k`; so an oracle precision or `-expo` above 38 panics |
| `FixedPoint.MulDivU64` | programs/vault-zeta/src/cpi_calls/zeta/zeta_utils.rs:84-95 | a u64 times a u64 divided by a positive denominator never fails: the `unwrap`s on the percentage legs cannot panic |
| `ZetaUtils.OtmAmount` | programs/vault-zeta/src/cpi_calls/zeta/zeta_utils.rs:50-66 | Call gives `max(strike - spot, 0)`, Put gives `max(spot - strike, 0)`; the i128 subtraction and u64 narrowing never fail; any other kind fails with `UnsupportedKind` |
| `ZetaUtils.InitialMarginPerLot` | programs/vault-zeta/src/cpi_calls/zeta/zeta_utils.rs:69-136 | an uninitialised kind fails with `UnsupportedKind`; an option with `Side::Uninitialized` reaches `unreachable!()`; a successful short Put's margin is at most `strike * option_short_put_cap_percentage / DENOM` |
| `ZetaUtils.MaintenanceMarginPerLot` | programs/vault-zeta/src/cpi_calls/zeta/zeta_utils.rs:139-214 | an uninitialised kind fails with `UnsupportedKind`; a successful short Put's (`!long`) maintenance margin is at most the strike cap |
| `ZetaUtils.NativeOraclePrice` | programs/vault-zeta/src/cpi_calls/zeta/zeta_utils.rs:221-230 | succeeds exactly when the scaled price at `PLATFORM_PRECISION` decimals succeeds and is below 2^64, and then returns that scaled price |
| `ZetaUtils.OraclePrice` | programs/vault-zeta/src/cpi_calls/zeta/zeta_utils.rs:232-241 | succeeds exactly when the scaled price at `precision` decimals succeeds and is below 2^127, and then returns that scaled (non-negative) price |
| `ZetaUtils.ProductsSliceMarketIndex` | programs/vault-zeta/src/cpi_calls/zeta/zeta_utils.rs:249-255 | succeeds exactly when `expiry * NUM_PRODUCTS_PER_SERIES + product` fits in usize, and is then that value |
| `ZetaUtilsProperties.OtmAmountMonotone` | programs/vault-zeta/src/cpi_calls/zeta/zeta_utils.rs:50-63 | a call's OTM amount grows with strike and falls with spot; a put's the other way round |
| `ZetaUtilsProperties.LegValue` | programs/vault-zeta/src/cpi_calls/zeta/zeta_utils.rs:78-82 | a percentage leg `x * pct / DENOM` of two u64 values always succeeds with exactly that value |
| `ZetaUtilsProperties.LegMono` | programs/vault-zeta/src/cpi_calls/zeta/zeta_utils.rs:84-95 | a percentage leg is monotone in both the amount and the percentage |
| `ZetaUtilsProperties.InitialFutureMargin` | programs/vault-zeta/src/cpi_calls/zeta/zeta_utils.rs:77-82 | a future's initial margin is `spot * future_margin_initial / DENOM` on every side, including `Side::Uninitialized`, and fails only if that exceeds u64 |
| `ZetaUtilsProperties.MaintenanceFutureMargin` | programs/vault-zeta/src/cpi_calls/zeta/zeta_utils.rs:147-152 | a future's maintenance margin is `spot * future_margin_maintenance / DENOM` whatever `long` is |
| `ZetaUtilsProperties.LongOptionMarginValue` | programs/vault-zeta/src/cpi_calls/zeta/zeta_utils.rs:84-95 | the long-option margin is exactly the minimum of the spot leg and the mark leg |
| `ZetaUtilsProperties.InitialLongOption` | programs/vault-zeta/src/cpi_calls/zeta/zeta_utils.rs:83-95 | a long (Bid) call or put has initial margin `min(spot leg, mark leg)` with no cap, so at most either leg |
| `ZetaUtilsProperties.MaintenanceLongOption` | programs/vault-zeta/src/cpi_calls/zeta/zeta_utils.rs:153-174 | the same for maintenance margin with `long = true` and the maintenance percentages |
| `ZetaUtilsProperties.DynamicShortMarginValue` | programs/vault-zeta/src/cpi_calls/zeta/zeta_utils.rs:96-119 | the short margin fails exactly when spot is 0 (division by zero) or `otm * DENOM` overflows u128; otherwise it is `max(dynamic ∸ otm*DENOM/spot, static) * spot / DENOM` |
| `ZetaUtilsProperties.DynamicShortMarginFloor` | programs/vault-zeta/src/cpi_calls/zeta/zeta_utils.rs:109-118 | the short margin is never below `static * spot / DENOM` |
| `ZetaUtilsProperties.DynamicShortMarginDeepOtm` | programs/vault-zeta/src/cpi_calls/zeta/zeta_utils.rs:104-113 | once the OTM percentage reaches the dynamic percentage, the short margin equals the static floor |
| `ZetaUtilsProperties.DynamicShortMarginAntitone` | programs/vault-zeta/src/cpi_calls/zeta/zeta_utils.rs:97-118 | for fixed spot, a larger OTM amount never gives a larger short margin, and a smaller one succeeds when the larger does |
| `ZetaUtilsProperties.DynamicShortMarginMonoInPct` | programs/vault-zeta/src/cpi_calls/zeta/zeta_utils.rs:104-118 | the short margin is monotone in the dynamic and the static percentage |
| `ZetaUtilsProperties.ShortOptionZeroSpot` | programs/vault-zeta/src/cpi_calls/zeta/zeta_utils.rs:98-102 | a short call or put with spot 0 fails (initial and maintenance) |
| `ZetaUtilsProperties.InitialShortCall` | programs/vault-zeta/src/cpi_calls/zeta/zeta_utils.rs:96-135 | a short call's initial margin is the uncapped short margin of `max(strike - spot, 0)`, failing only when that fails or exceeds u64, and at least the static floor |
| `ZetaUtilsProperties.InitialShortPut` | programs/vault-zeta/src/cpi_calls/zeta/zeta_utils.rs:96-133 | a short put's initial margin is `min(short margin of max(spot - strike, 0), strike * cap / DENOM)`, and fails with the short margin's error |
| `ZetaUtilsProperties.InitialCapOnlyForShortPut` | programs/vault-zeta/src/cpi_calls/zeta/zeta_utils.rs:125-135 | for every kind/side other than Put/Ask the put-cap percentage has no effect on the initial margin |
| `ZetaUtilsProperties.MaintenanceCapOnlyForShortPut` | programs/vault-zeta/src/cpi_calls/zeta/zeta_utils.rs:203-213 | unless a put is held short (`!long`), the put-cap percentage has no effect on the maintenance margin |
| `ZetaUtilsProperties.ShortCallAntitoneInStrike` | programs/vault-zeta/src/cpi_calls/zeta/zeta_utils.rs:96-119 | raising a short call's strike (further out of the money) never raises its initial margin |
| `ZetaUtilsProperties.ShortPutAntitoneInStrike` | programs/vault-zeta/src/cpi_calls/zeta/zeta_utils.rs:96-133 | lowering a short put's strike (further out of the money) never raises its capped initial margin |
| `ZetaUtilsProperties.ShortPutScenario` | programs/vault-zeta/src/cpi_calls/zeta/zeta_utils.rs:96-133 | with DENOM = 10^6, spot 100, strike 90, dynamic 50%, static 10%, cap 20%: OTM 10, raw margin 40, cap 18, margin per lot 18 |
| `ZetaUtilsProperties.MaintenanceIsInitialShape` | programs/vault-zeta/src/cpi_calls/zeta/zeta_utils.rs:139-214 | maintenance margin equals initial margin on the maintenance percentages with `long` as Bid and `!long` as Ask |
| `ZetaUtilsProperties.InitialMonotoneInParameters` | programs/vault-zeta/src/cpi_calls/zeta/zeta_utils.rs:77-135 | lowering initial percentages (same cap) never raises the initial margin nor makes it fail |
| `ZetaUtilsProperties.MaintenanceBelowInitial` | programs/vault-zeta/src/cpi_calls/zeta/zeta_utils.rs:139-214 | if every maintenance percentage is at most its initial counterpart and the side is Bid or Ask, a successful initial margin implies a successful maintenance margin no larger |
| `ZetaUtilsProperties.ScaleOraclePriceValue` | programs/vault-zeta/src/cpi_calls/zeta/zeta_utils.rs:223-229 | the scaled price is `mantissa * 10^precision / 10^(-expo)`; it fails exactly when expo > 0, `-expo` overflows i32, or a power or the product overflows u128 |
| `ZetaUtilsProperties.ScaleOraclePriceExact` | programs/vault-zeta/src/cpi_calls/zeta/zeta_utils.rs:223-229 | for a non-negative mantissa and `precision >= -expo` nothing is truncated: the result is `price * 10^(precision + expo)` |
| `ZetaUtilsProperties.ScaleOraclePriceIdentity` | programs/vault-zeta/src/cpi_calls/zeta/zeta_utils.rs:234-238 | scaling to the feed's own number of decimals returns the mantissa |
| `ZetaUtilsProperties.NegativeMantissaFails` | programs/vault-zeta/src/cpi_calls/zeta/zeta_utils.rs:223-225 | a negative mantissa cast `as u128` overflows the multiplication for any precision of at least 1 |
| `ZetaUtilsProperties.MarketIndexRoundTrip` | programs/vault-zeta/src/cpi_calls/zeta/zeta_utils.rs:243-255 | for a product index below `NUM_PRODUCTS_PER_SERIES`, div and mod by it recover the expiry and product index |
| `ZetaUtilsProperties.MarketIndexInjective` | programs/vault-zeta/src/cpi_calls/zeta/zeta_utils.rs:249-255 | distinct (expiry, product) pairs with product below `NUM_PRODUCTS_PER_SERIES` get distinct indices |
| `Deposit.GetShares` | programs/vault-zeta/src/instructions/deposit.rs:106-119 | a failed `for_underlying` panics; with zero supply the shares are exactly `amount`; otherwise it succeeds exactly when assets > 0 and the quotient fits u64, and the shares are `floor(amount * supply / assets)` |
| `Deposit.GetSharesMonotone` | programs/vault-zeta/src/instructions/deposit.rs:112-117 | a larger deposit never gets fewer shares, nor fails where the smaller succeeds |
| `Deposit.GetSharesDoubling` | programs/vault-zeta/src/instructions/deposit.rs:112-117 | doubling a deposit gives twice the shares, or one more |
| `Deposit.GetSharesNoDilution` | programs/vault-zeta/src/instructions/deposit.rs:112-113 | the depositor's fraction of the new supply never exceeds their fraction of the new assets: `shares * (assets + amount) <= amount * (supply + shares)` |
| `Deposit.GetSharesScenario` | programs/vault-zeta/src/instructions/deposit.rs:112-117 | 1000 into an empty vault mints 1000 shares; 500 against supply 1000 and assets 1500 mints 333 |
| `Deposit.Vault.AfterDeposit` | programs/vault-zeta/src/instructions/deposit.rs:77 | (assumed behaviour) adds the amount to `total_deposit` unless the u64 sum overflows, leaves the limit alone |
| `Deposit.Vault.Deposit` | programs/vault-zeta/src/instructions/deposit.rs:65-79 | the new total, the outcome and the external calls made are those of `DepositEffectOf` on the old total and limit; the limit is unchanged |
| `Deposit.DepositOverLimitRunsNothing` | programs/vault-zeta/src/instructions/deposit.rs:66-68 | a deposit past the limit makes no external call, keeps the total, and fails with `VaultIsFull` (with `ArithmeticError` if the sum overflows u64) |
| `Deposit.DepositExactHeadroom` | programs/vault-zeta/src/instructions/deposit.rs:66-68 | depositing exactly `limit - total` passes the cap check and, if the steps pass, fills the vault to the limit; one unit more fails with `VaultIsFull` |
| `Deposit.DepositSuccess` | programs/vault-zeta/src/instructions/deposit.rs:65-79 | a deposit passes exactly when the cap check, approve, deposit_liquidity, get_shares and mint pass; it then leaves `total + amount <= limit` and has called approve, deposit_liquidity and mint in order, minting the shares priced from the pre-deposit supply and collateral |
| `Deposit.DepositFailureKeepsTotal` | programs/vault-zeta/src/instructions/deposit.rs:73-77 | a failed deposit leaves `total_deposit` unchanged, and its calls are a prefix of approve, deposit_liquidity, mint |

## Left out

- `zeta_client.rs` in full. Each function there only builds a cross-program-invocation context and hands it to the Zeta program, so there is no logic to model.
- Account deserialisation (`deserialize_account_info_zerocopy`, `deserialize_account_info`). It reinterprets raw bytes as program types.
- Loading the Pyth price account. The model starts from the extracted `(mantissa, exponent)` pair.
- The Anchor account constraints, PDA seeds and bumps of `DepositToVault`. The host runtime validates these.
- The bodies of `approve`, `mint` and `deposit_liquidity`. They are token-program and lending-market calls, so each is an input step that passes or fails.
- `ratio!`, `Vault::for_underlying` and `Vault::after_deposit`. They are not part of this model; the assumed behaviour above replaces them.
- The `wrap_error!` logging and the error messages. Only the error kinds are kept.
- Rolling back external effects when a later step fails. The host's transaction atomicity does this. The model records which external calls were made, but does not undo them.
- Concurrency between transactions. The host's per-account write locks handle it.
- Withdrawal and redeeming shares. They are not part of the modelled source.
- `Deposit.DepositOverLimitRunsNothing`: it promises `VaultIsFull` only when `total_deposit + amount` fits in a u64. The program's plain `+` panics on overflow instead.
- The `MarginParameters` padding field and the parameters' owner. Only the percentages the formulas read are modelled.
