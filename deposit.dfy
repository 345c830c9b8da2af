/** The vault deposit instruction: the deposit-cap check, the conversion of a deposit
    into shares, and the order in which `deposit` runs its steps. The token program,
    the lending market and the share mint are external; each is a step that may fail,
    supplied by the caller in a DepositContext. */
module Deposit {
  import opened Errors
  import opened FixedPoint

  /** `ratio!(amount, supply, assets)`. Its definition is not part of this model; it is
      assumed to be `amount * supply / assets` in u128, truncating, and to yield None when
      `assets` is zero or the quotient does not fit in a u64. */
  function Ratio(amount: U64, supply: U64, assets: U64): Option<U64> {
    if assets == 0 then None
    else
      var product: nat := amount * supply;
      var quotient: nat := product / assets;
      if quotient < U64_LIMIT then Some(quotient) else None
  }

  /** `get_shares`: the shares a deposit of `amount` is worth. `assets` is what
      `Vault::for_underlying` made of the vault's collateral balance (None if it failed);
      both of its `unwrap`s panic. The first depositor gets one share per unit; later
      ones get the floor of their proportional part of the supply. */
  function GetShares(amount: U64, supply: U64, assets: Option<U64>): (r: Result<U64>)
    ensures assets.None? ==> r == Err(Panic)
    ensures supply == 0 && assets.Some? ==> r == Ok(amount)
    ensures supply > 0 && assets.Some? ==>
              (r.Ok? <==> assets.value > 0 && amount * supply / assets.value < U64_LIMIT)
    ensures supply > 0 && r.Ok? ==>
              r.value * assets.value <= amount * supply < (r.value + 1) * assets.value
  {
    match assets
    case None => Err(Panic)
    case Some(totalAssets) =>
      if supply > 0 then
        match Ratio(amount, supply, totalAssets)
        case None => Err(Panic)
        case Some(shares) => Ok(shares)
      else
        Ok(amount)
  }

  /** An external call made by `deposit`, with its argument. */
  datatype Step = Approve(amount: U64) | DepositLiquidity(amount: U64) | MintShares(shares: U64)

  /** What one deposit instruction sees of the world outside the vault account: the
      external steps (token `approve`, the lending market's `deposit_liquidity`, token
      `mint_to`), `Vault::for_underlying` against the reserve, and the share supply and
      collateral balance as loaded when the instruction starts (they are not reloaded
      after the external calls). */
  datatype DepositContext = DepositContext(
    approve: U64 -> Outcome,
    depositLiquidity: U64 -> Outcome,
    mint: U64 -> Outcome,
    forUnderlying: U64 -> Option<U64>,
    shareSupply: U64,
    collateralAmount: U64)

  /** The shares `deposit` computes for `amount`. */
  function SharesFor(amount: U64, ctx: DepositContext): Result<U64> {
    GetShares(amount, ctx.shareSupply, ctx.forUnderlying(ctx.collateralAmount))
  }

  /** The outcome of a deposit, the vault's total afterwards and the external calls made. */
  datatype DepositEffect = DepositEffect(outcome: Outcome, totalDeposit: U64, steps: seq<Step>)

  /** `deposit` as a function of the vault's totals: the cap check (its u64 addition panics
      on overflow), then approve, deposit_liquidity, get_shares and mint, each stopping the
      instruction on failure, and last `after_deposit`, assumed to be a checked addition
      of the amount to the total. */
  function DepositEffectOf(total: U64, limit: U64, amount: U64, ctx: DepositContext): DepositEffect {
    if total + amount >= U64_LIMIT then DepositEffect(Fail(ArithmeticError), total, [])
    else if total + amount > limit then DepositEffect(Fail(VaultIsFull), total, [])
    else
      var approved := ctx.approve(amount);
      if approved.Fail? then DepositEffect(approved, total, [Approve(amount)])
      else
        var deposited := ctx.depositLiquidity(amount);
        if deposited.Fail? then DepositEffect(deposited, total, [Approve(amount), DepositLiquidity(amount)])
        else
          match SharesFor(amount, ctx)
          case Err(e) => DepositEffect(Fail(e), total, [Approve(amount), DepositLiquidity(amount)])
          case Ok(shares) =>
            var steps := [Approve(amount), DepositLiquidity(amount), MintShares(shares)];
            var minted := ctx.mint(shares);
            if minted.Fail? then DepositEffect(minted, total, steps)
            else DepositEffect(Pass, total + amount, steps)
  }

  /** The vault account: what has been deposited so far and the cap on it. */
  class Vault {
    var totalDeposit: U64
    var depositLimit: U64

    /** `Vault::after_deposit`, not part of this model: assumed to add `amount` to the
        total with a checked addition. */
    method AfterDeposit(amount: U64) returns (r: Outcome)
      modifies this
      ensures depositLimit == old(depositLimit)
      ensures old(totalDeposit) + amount < U64_LIMIT ==>
                r == Pass && totalDeposit == old(totalDeposit) + amount
      ensures old(totalDeposit) + amount >= U64_LIMIT ==>
                r == Fail(ArithmeticError) && totalDeposit == old(totalDeposit)
    {
      if totalDeposit + amount < U64_LIMIT {
        totalDeposit := totalDeposit + amount;
        r := Pass;
      } else {
        r := Fail(ArithmeticError);
      }
    }

    /** `DepositToVault::deposit`: returns the outcome and the external calls it made. */
    method Deposit(maxAmountIn: U64, ctx: DepositContext) returns (r: Outcome, steps: seq<Step>)
      modifies this
      ensures depositLimit == old(depositLimit)
      ensures DepositEffect(r, totalDeposit, steps) ==
                DepositEffectOf(old(totalDeposit), old(depositLimit), maxAmountIn, ctx)
    {
      steps := [];
      if totalDeposit + maxAmountIn >= U64_LIMIT {
        return Fail(ArithmeticError), steps;
      }
      if totalDeposit + maxAmountIn > depositLimit {
        return Fail(VaultIsFull), steps;
      }
      steps := steps + [Approve(maxAmountIn)];
      r := ctx.approve(maxAmountIn);
      if r.Fail? {
        return;
      }
      steps := steps + [DepositLiquidity(maxAmountIn)];
      r := ctx.depositLiquidity(maxAmountIn);
      if r.Fail? {
        return;
      }
      var shares := GetShares(maxAmountIn, ctx.shareSupply, ctx.forUnderlying(ctx.collateralAmount));
      if shares.Err? {
        return Fail(shares.error), steps;
      }
      steps := steps + [MintShares(shares.value)];
      r := ctx.mint(shares.value);
      if r.Fail? {
        return;
      }
      r := AfterDeposit(maxAmountIn);
    }
  }

  // ---------------------------------------------------------------------------
  // Share accounting

  lemma MulLtCancel(x: nat, y: nat, v: nat)
    requires x * v < y * v
    ensures x < y
  {
    if x >= y {
      MulMono(y, x, v);
    }
  }

  /** A larger deposit never gets fewer shares, nor fails where the smaller one succeeds. */
  lemma GetSharesMonotone(a1: U64, a2: U64, supply: U64, assets: Option<U64>)
    requires a1 <= a2
    requires GetShares(a2, supply, assets).Ok?
    ensures GetShares(a1, supply, assets).Ok?
    ensures GetShares(a1, supply, assets).value <= GetShares(a2, supply, assets).value
  {
    if supply > 0 {
      MulMono(a1, a2, supply);
      DivMono(a1 * supply, a2 * supply, assets.value);
    }
  }

  /** Floors of `x / v` and `2x / v` differ by a factor of two, up to one. */
  lemma FloorOfDouble(x: nat, v: nat, q: nat, q2: nat)
    requires q * v <= x < (q + 1) * v
    requires q2 * v <= 2 * x < (q2 + 1) * v
    ensures 2 * q <= q2 <= 2 * q + 1
  {
    assert (2 * q) * v == 2 * (q * v);
    assert (2 * q + 2) * v == 2 * ((q + 1) * v);
    MulLtCancel(2 * q, q2 + 1, v);
    MulLtCancel(q2, 2 * q + 2, v);
  }

  /** Doubling a deposit doubles its shares, up to one share of truncation. */
  lemma GetSharesDoubling(amount: U64, supply: U64, assets: Option<U64>)
    requires 2 * amount < U64_LIMIT
    requires GetShares(amount, supply, assets).Ok? && GetShares(2 * amount, supply, assets).Ok?
    ensures var r, r2 := GetShares(amount, supply, assets).value, GetShares(2 * amount, supply, assets).value;
            2 * r <= r2 <= 2 * r + 1
  {
    if supply > 0 {
      var r, r2 := GetShares(amount, supply, assets).value, GetShares(2 * amount, supply, assets).value;
      assert (2 * amount) * supply == 2 * (amount * supply);
      FloorOfDouble(amount * supply, assets.value, r, r2);
    }
  }

  /** A later depositor never receives a larger fraction of the new share supply than
      their fraction of the new assets: `shares / (supply + shares) <= amount / (assets + amount)`. */
  lemma GetSharesNoDilution(amount: U64, supply: U64, assets: U64)
    requires supply > 0
    requires GetShares(amount, supply, Some(assets)).Ok?
    ensures var r := GetShares(amount, supply, Some(assets)).value;
            r * (assets + amount) <= amount * (supply + r)
  {
    var r := GetShares(amount, supply, Some(assets)).value;
    assert r * (assets + amount) == r * assets + r * amount;
    assert amount * (supply + r) == amount * supply + amount * r;
  }

  /** Two concrete deposits: 1000 into an empty vault mints 1000 shares; 500 more when 1000
      shares are backed by 1500 mints 333. */
  lemma GetSharesScenario(assets: U64)
    ensures GetShares(1000, 0, Some(assets)) == Ok(1000)
    ensures GetShares(500, 1000, Some(1500)) == Ok(333)
  {
    assert 500 * 1000 / 1500 == 333;
  }

  // ---------------------------------------------------------------------------
  // The deposit instruction

  /** A deposit past the limit fails before any external call and leaves the total alone;
      the error is VaultIsFull unless the addition itself overflows u64. */
  lemma DepositOverLimitRunsNothing(total: U64, limit: U64, amount: U64, ctx: DepositContext)
    requires total + amount > limit
    ensures var e := DepositEffectOf(total, limit, amount, ctx);
            e.steps == [] && e.totalDeposit == total &&
            e.outcome == (if total + amount < U64_LIMIT then Fail(VaultIsFull) else Fail(ArithmeticError))
  {
  }

  /** A full deposit of the remaining headroom passes the cap check and, when the external
      steps succeed, fills the vault exactly; one unit more is refused with VaultIsFull. */
  lemma DepositExactHeadroom(total: U64, limit: U64, ctx: DepositContext)
    requires total <= limit
    ensures DepositEffectOf(total, limit, limit - total, ctx).steps != []
    ensures DepositEffectOf(total, limit, limit - total, ctx).outcome == Pass ==>
              DepositEffectOf(total, limit, limit - total, ctx).totalDeposit == limit
    ensures limit + 1 < U64_LIMIT ==>
              DepositEffectOf(total, limit, limit - total + 1, ctx) == DepositEffect(Fail(VaultIsFull), total, [])
  {
  }

  /** A deposit succeeds exactly when the cap check and every step succeed; it then adds
      the amount to the total, keeps the total within the limit, and has called approve,
      deposit_liquidity and mint in that order, minting the shares priced from the
      supply and collateral loaded before the deposit. */
  lemma DepositSuccess(total: U64, limit: U64, amount: U64, ctx: DepositContext)
    ensures var e := DepositEffectOf(total, limit, amount, ctx);
            var shares := SharesFor(amount, ctx);
            (e.outcome == Pass <==>
               && total + amount <= limit
               && ctx.approve(amount) == Pass
               && ctx.depositLiquidity(amount) == Pass
               && shares.Ok?
               && ctx.mint(shares.value) == Pass) &&
            (e.outcome == Pass ==>
               && e.totalDeposit == total + amount
               && e.totalDeposit <= limit
               && e.steps == [Approve(amount), DepositLiquidity(amount), MintShares(shares.value)])
  {
    var e := DepositEffectOf(total, limit, amount, ctx);
    if e.outcome == Pass {
      assert total + amount <= limit;
      assert ctx.approve(amount) == Pass;
      assert ctx.depositLiquidity(amount) == Pass;
    }
  }

  /** A failed deposit leaves the total unchanged, and the calls it made are a prefix of
      approve, deposit_liquidity, mint. */
  lemma DepositFailureKeepsTotal(total: U64, limit: U64, amount: U64, ctx: DepositContext)
    requires DepositEffectOf(total, limit, amount, ctx).outcome.Fail?
    ensures var e := DepositEffectOf(total, limit, amount, ctx);
            e.totalDeposit == total && |e.steps| <= 3 &&
            (|e.steps| >= 1 ==> e.steps[0] == Approve(amount)) &&
            (|e.steps| >= 2 ==> e.steps[1] == DepositLiquidity(amount)) &&
            (|e.steps| == 3 ==> e.steps[2] == MintShares(SharesFor(amount, ctx).value))
  {
  }
}
