/**
 * Fees and native gas of automatic CCTP transfers (connect/src/routes/cctp/automatic.ts, `normalizeTransferParams`,
 * with `quoteTransfer` in connect/src/protocols/cctp/cctpTransfer.ts and the guard in connect/src/wormhole.ts).
 */
module CctpQuotes {
  import opened Prelude
  import Amounts

  datatype NormalizeError = BelowMinAmount(minAmount: nat) | BadShare

  /**
   * The part of `amount` to swap for gas, so that the fee can still be paid: a share of the most that can be swapped.
   */
  function NativeGas(amount: nat, fee: nat, share: real, maxSwap: nat): Result<nat, NormalizeError> {
    var minAmount := fee * 105 / 100;
    if amount < minAmount then Err(BelowMinAmount(minAmount))
    else if share > 1.0 || share < 0.0 then Err(BadShare)
    else if share == 0.0 then Ok(0)
    else
      var redeemable := amount - fee;
      var gas := (if redeemable < maxSwap then redeemable else maxSwap) * (share * 10000.0).Floor / 10000;
      Ok(if gas == redeemable && gas > 0 then gas - 1 else gas)
  }

  method NormalizeTransferParams(amount: nat, fee: nat, share: Option<real>, maxSwap: nat)
    returns (result: Result<nat, NormalizeError>)
    ensures result == NativeGas(amount, fee, if share.Some? then share.value else 0.0, maxSwap)
  {
    var minAmount := fee * 105 / 100;
    if amount < minAmount { return Err(BelowMinAmount(minAmount)); }
    var redeemableAmount := amount - fee;
    var nativeGasPerc := if share.Some? then share.value else 0.0;
    if nativeGasPerc > 1.0 || nativeGasPerc < 0.0 { return Err(BadShare); }
    var nativeGasAmount := 0;
    if nativeGasPerc > 0.0 {
      var maxSwapAmount := maxSwap;
      if redeemableAmount < maxSwapAmount {
        maxSwapAmount := redeemableAmount;
      }
      var scaledGas := (nativeGasPerc * 10000.0).Floor;
      ShareOf(maxSwapAmount, scaledGas);
      nativeGasAmount := maxSwapAmount * scaledGas / 10000;
      if nativeGasAmount == redeemableAmount && nativeGasAmount > 0 {
        nativeGasAmount := nativeGasAmount - 1;
      }
    }
    return Ok(nativeGasAmount);
  }

  /** The guard of `Wormhole.circleTransfer` on an automatic transfer. */
  predicate TransferGuard(amount: nat, fee: nat, nativeGas: nat) {
    amount >= fee + nativeGas
  }

  lemma ShareOf(most: nat, part: int)
    requires 0 <= part <= 10000
    ensures 0 <= most * part / 10000 <= most
    ensures part == 10000 ==> most * part / 10000 == most
  {
    Amounts.MulNonNegative(most, part);
    Amounts.MulNonNegative(most, 10000 - part);
    assert most * (10000 - part) == 10000 * most - most * part;
    TenThousandth(most * part, most);
  }

  lemma TenThousandth(x: nat, most: nat)
    requires x <= 10000 * most
    ensures 0 <= x / 10000 <= most
    ensures x == 10000 * most ==> x / 10000 == most
  {
  }

  /**
   * Whatever the fee, the swap limit and the share, parameters that pass normalization leave a destination amount
   * that is never negative, is at least one unit whenever the amount is more than the fee, and pass the transfer's
   * own guard; no gas is asked for beyond the swap limit.
   */
  lemma NormalizedLeavesEnough(amount: nat, fee: nat, share: real, maxSwap: nat)
    requires NativeGas(amount, fee, share, maxSwap).Ok?
    ensures var gas := NativeGas(amount, fee, share, maxSwap).value;
            && amount >= fee
            && amount - gas - fee >= 0
            && (amount - gas - fee >= 1 <==> amount > fee)
            && gas <= maxSwap
            && TransferGuard(amount, fee, gas)
  {
    assert fee * 105 / 100 >= fee;
    if share > 0.0 {
      var redeemable := amount - fee;
      ShareOf(if redeemable < maxSwap then redeemable else maxSwap, (share * 10000.0).Floor);
    }
  }

  lemma {:induction false} RealProduct(n: nat, part: int)
    ensures (n * part) as real == n as real * part as real
    decreases n
  {
    if n > 0 {
      RealProduct(n - 1, part);
      assert n * part == (n - 1) * part + part;
      assert n as real * part as real == (n - 1) as real * part as real + part as real;
    }
  }

  lemma TimesLess(n: real, a: real, b: real)
    requires a <= b && n >= 0.0
    ensures n * a <= n * b
  {
  }

  /** A whole number of units next below a share, given in ten-thousandths, of `most`. */
  lemma FloorOfShare(most: nat, share: real, part: int, gas: int)
    requires part == (share * 10000.0).Floor && gas == most * part / 10000
    ensures gas as real <= share * most as real
    ensures gas as real > share * most as real - most as real / 10000.0 - 1.0
  {
    var n, p, x, all := most as real, part as real, share * 10000.0, most * part;
    RealProduct(most, part);
    TimesLess(n, p, x);
    TimesLess(n, x, p + 1.0);
    TenThousandths(share, n);
    Spread(n, p);
    Quotient(all, gas);
    assert all as real == n * p;
  }

  lemma TenThousandths(share: real, n: real)
    ensures n * (share * 10000.0) == (share * n) * 10000.0
  {
  }

  lemma Spread(n: real, p: real)
    ensures n * (p + 1.0) == n * p + n
  {
  }

  lemma Quotient(all: int, gas: int)
    requires gas == all / 10000
    ensures gas as real * 10000.0 <= all as real < gas as real * 10000.0 + 10000.0
  {
    assert gas * 10000 <= all < gas * 10000 + 10000;
  }

  /**
   * What is swapped for gas is the share asked for of all that may be swapped, to the unit and the ten-thousandth
   * below; only if that is all there is after the fee, one unit is left.
   */
  lemma GasIsShare(amount: nat, fee: nat, share: real, maxSwap: nat)
    requires NativeGas(amount, fee, share, maxSwap).Ok?
    ensures amount >= fee
    ensures var gas := NativeGas(amount, fee, share, maxSwap).value;
            var most := if amount - fee < maxSwap then amount - fee else maxSwap;
            && gas as real <= share * most as real
            && (gas as real > share * most as real - most as real / 10000.0 - 1.0 || gas == amount - fee - 1)
  {
    assert fee * 105 / 100 >= fee;
    var most := if amount - fee < maxSwap then amount - fee else maxSwap;
    FloorOfShare(most, share, (share * 10000.0).Floor, most * (share * 10000.0).Floor / 10000);
  }

  /** Asking for everything gives the whole redeemable amount but one unit, when the swap limit allows that. */
  lemma FullShare(amount: nat, fee: nat, maxSwap: nat)
    requires amount >= fee * 105 / 100 && amount > fee && maxSwap >= amount - fee
    ensures NativeGas(amount, fee, 1.0, maxSwap) == Ok(amount - fee - 1)
  {
    ShareOf(amount - fee, 10000);
  }

  datatype Quote = Quote(destination: int, nativeGas: nat, fee: nat)

  /** A route's quote: the parameters are normalized, then gas and fee are taken out of the amount. */
  method QuoteTransfer(amount: nat, fee: nat, share: Option<real>, maxSwap: nat)
    returns (result: Result<Quote, NormalizeError>)
    ensures result.Err? <==> amount < fee * 105 / 100 || (share.Some? && (share.value > 1.0 || share.value < 0.0))
    ensures result.Ok? ==>
              var q := result.value;
              && q.fee == fee && amount == q.destination + q.nativeGas + q.fee
              && q.destination >= 0 && (q.destination >= 1 <==> amount > fee)
              && q.nativeGas <= maxSwap && (q.nativeGas > 0 ==> share.Some? && share.value > 0.0)
              && TransferGuard(amount, fee, q.nativeGas)
  {
    var normalized := NormalizeTransferParams(amount, fee, share, maxSwap);
    if normalized.Err? { return Err(normalized.error); }
    var nativeGas := normalized.value;
    NormalizedLeavesEnough(amount, fee, if share.Some? then share.value else 0.0, maxSwap);
    var dstAmount: int := amount;
    dstAmount := dstAmount - nativeGas;
    dstAmount := dstAmount - fee;
    return Ok(Quote(dstAmount, nativeGas, fee));
  }
}
