/** Slippage in Portico quotes (connect/src/routes/portico/automatic.ts, `fetchSwapQuote` and `quote`). */
module PorticoQuotes {
  import opened Prelude
  import opened Amounts
  import opened TokenQuotes

  const SLIPPAGE_BPS: nat := 15
  const MAX_SLIPPAGE_BPS: nat := 100
  const BPS_PER_HUNDRED_PERCENT: nat := 10000

  datatype PorticoError =
    | SlippageTooHigh
    | StartSlippageTooHigh
    | FinishSlippageTooHigh
    | NegativeDestination
    | SwapFailed

  /** A quoted amount less the slippage allowed for it. */
  function LessSlippage(quote: nat): (r: nat)
    ensures r <= quote && (quote > 0 <==> r > 0)
  {
    quote - quote * SLIPPAGE_BPS / BPS_PER_HUNDRED_PERCENT
  }

  /** The least the second swap must give, each swap quoted on what the one before is sure to give. */
  function MinAmountFinish(amount: nat, start: nat -> Reply<nat>, finish: nat -> Reply<nat>)
    : Result<nat, PorticoError>
  {
    if start(amount).Throws? then Err(SwapFailed)
    else
      var startQuote := start(amount).value;
      if startQuote * SLIPPAGE_BPS / BPS_PER_HUNDRED_PERCENT >= startQuote then Err(StartSlippageTooHigh)
      else if finish(LessSlippage(startQuote)).Throws? then Err(SwapFailed)
      else
        var finishQuote := finish(LessSlippage(startQuote)).value;
        if finishQuote * SLIPPAGE_BPS / BPS_PER_HUNDRED_PERCENT >= finishQuote then Err(FinishSlippageTooHigh)
        else Ok(LessSlippage(finishQuote))
  }

  /** The destination amount of a quote: the two amounts are compared in the decimals of the finer token. */
  function QuoteOf(
    amount: nat, srcDecimals: nat, dstDecimals: nat, start: nat -> Reply<nat>, finish: nat -> Reply<nat>, fee: nat)
    : Result<nat, PorticoError>
  {
    var least := MinAmountFinish(amount, start, finish);
    if least.Err? then Err(least.error)
    else
      var maxDecimals := if srcDecimals > dstDecimals then srcDecimals else dstDecimals;
      var scaledAmount := Scaled(amount, srcDecimals, maxDecimals);
      var scaledLeast := Scaled(least.value, dstDecimals, maxDecimals);
      if scaledAmount.Err? || scaledLeast.Err? then Err(SwapFailed)
      else if
        scaledLeast.value < scaledAmount.value - scaledAmount.value * MAX_SLIPPAGE_BPS / BPS_PER_HUNDRED_PERCENT
      then
        Err(SlippageTooHigh)
      else if least.value - fee < 0 then Err(NegativeDestination)
      else Ok(least.value - fee)
  }

  /** An amount in common decimals. */
  function InDecimals(n: nat, decimals: nat, common: nat): nat
    requires decimals <= common
  {
    MulNonNegative(n, Pow10(common - decimals));
    n * Pow10(common - decimals)
  }

  lemma ScaledUp(n: nat, decimals: nat, common: nat)
    requires decimals <= common
    ensures Scaled(n, decimals, common) == Ok(InDecimals(n, decimals, common))
  {
    ScaledIsExact(n, decimals, common);
    Pow10Add(common - decimals, decimals);
    MulAssoc(n, Pow10(common - decimals), Pow10(decimals));
    Cancel(Scaled(n, decimals, common).value, InDecimals(n, decimals, common), Pow10(decimals));
  }

  /**
   * A quote succeeds exactly when both swaps offer something, what they are sure to give is worth at least the amount
   * less a hundredth of it, and the relay fee can be paid from it; then the destination gets the rest.
   */
  lemma QuoteSucceedsIff(
    amount: nat, srcDecimals: nat, dstDecimals: nat, start: nat -> Reply<nat>, finish: nat -> Reply<nat>, fee: nat)
    ensures var q := QuoteOf(amount, srcDecimals, dstDecimals, start, finish, fee);
            var least := MinAmountFinish(amount, start, finish);
            var common := if srcDecimals > dstDecimals then srcDecimals else dstDecimals;
            var asked := InDecimals(amount, srcDecimals, common);
            && (q.Ok? <==> && least.Ok? && least.value >= fee
                           && InDecimals(least.value, dstDecimals, common) >= asked - asked / 100)
            && (q.Ok? ==> q.value == least.value - fee)
  {
    var least := MinAmountFinish(amount, start, finish);
    var common := if srcDecimals > dstDecimals then srcDecimals else dstDecimals;
    ScaledUp(amount, srcDecimals, common);
    if least.Ok? {
      ScaledUp(least.value, dstDecimals, common);
    }
    Hundredth(InDecimals(amount, srcDecimals, common));
  }

  lemma Hundredth(n: nat)
    ensures n * MAX_SLIPPAGE_BPS / BPS_PER_HUNDRED_PERCENT == n / 100
  {
  }

  lemma SwapsSucceedIff(amount: nat, start: nat -> Reply<nat>, finish: nat -> Reply<nat>)
    ensures MinAmountFinish(amount, start, finish).Ok?
            <==> && start(amount).Answer? && start(amount).value > 0
                 && finish(LessSlippage(start(amount).value)).Answer?
                 && finish(LessSlippage(start(amount).value)).value > 0
  {
  }

  /** What a swap is sure to give is 99.85% of what it offers, rounded up. */
  lemma SureIs(quote: nat)
    ensures 10000 * LessSlippage(quote) >= 9985 * quote
    ensures quote > 0 ==> 10000 * (LessSlippage(quote) - 1) < 9985 * quote
  {
  }

  /**
   * The second swap is asked about what the first is sure to give, and a quote is based on what the second is sure to
   * give; a swap that offers nothing fails as its own leg, and the first one first.
   */
  lemma LeastOfTwoSwaps(amount: nat, start: nat -> Reply<nat>, finish: nat -> Reply<nat>, sure: nat)
    requires start(amount).Answer? && start(amount).value > 0
    requires 10000 * sure >= 9985 * start(amount).value && 10000 * (sure - 1) < 9985 * start(amount).value
    ensures var least := MinAmountFinish(amount, start, finish);
            && (finish(sure).Throws? ==> least == Err(SwapFailed))
            && (finish(sure) == Answer(0) ==> least == Err(FinishSlippageTooHigh))
            && (finish(sure).Answer? && finish(sure).value > 0 ==>
                  && least.Ok? && 10000 * least.value >= 9985 * finish(sure).value
                  && 10000 * (least.value - 1) < 9985 * finish(sure).value)
  {
    SureIs(start(amount).value);
    assert sure == LessSlippage(start(amount).value);
    if finish(sure).Answer? {
      SureIs(finish(sure).value);
    }
  }

  lemma FirstSwapFails(amount: nat, start: nat -> Reply<nat>, finish: nat -> Reply<nat>)
    ensures start(amount).Throws? ==> MinAmountFinish(amount, start, finish) == Err(SwapFailed)
    ensures start(amount) == Answer(0) ==> MinAmountFinish(amount, start, finish) == Err(StartSlippageTooHigh)
  {
  }

  /** Two swaps at par never cost the hundredth that a quote allows for, however small the amount. */
  lemma ParNeverTooHigh(amount: nat)
    ensures LessSlippage(LessSlippage(amount)) >= amount - amount / 100
  {
  }

  lemma ParQuoteSucceeds(amount: nat, decimals: nat, start: nat -> Reply<nat>, finish: nat -> Reply<nat>, fee: nat)
    requires forall n: nat :: start(n) == Answer(n) && finish(n) == Answer(n)
    ensures QuoteOf(amount, decimals, decimals, start, finish, fee).Ok?
            <==> amount >= 1 && fee <= LessSlippage(LessSlippage(amount))
    ensures QuoteOf(amount, decimals, decimals, start, finish, fee) != Err(SlippageTooHigh)
  {
    QuoteSucceedsIff(amount, decimals, decimals, start, finish, fee);
    SwapsSucceedIff(amount, start, finish);
    ParNeverTooHigh(amount);
    ScaledUp(amount, decimals, decimals);
    ScaledUp(LessSlippage(LessSlippage(amount)), decimals, decimals);
  }
}
