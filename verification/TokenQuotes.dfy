/**
 * Amounts in token bridge quotes (connect/src/protocols/tokenBridge/tokenTransfer.ts, `quoteTransfer`,
 * `getExecutorQuote` and `fromIdentifier`, with connect/src/routes/tokenBridge/executor.ts).
 */
module TokenQuotes {
  import opened Prelude
  import opened Amounts

  /** The precision of an amount on the wire. */
  const MAX_DECIMALS: nat := 8

  datatype QuoteError =
    | BadAmount(error: AmountError)
    | NothingRemains
    | NoCapabilities
    | DropOffExceedsLimit
    | NoEstimate

  function Min(a: nat, b: nat): nat {
    if a < b then a else b
  }

  /** The unit that truncation to the wire's precision keeps. */
  function WireUnit(decimals: nat): (u: nat)
    ensures u > 0
  {
    if decimals <= MAX_DECIMALS then 1 else Pow10(decimals - MAX_DECIMALS)
  }

  function UnitsOf(a: Amount): Result<nat, QuoteError> {
    match Units(a)
    case Ok(n) => Ok(n)
    case Err(e) => Err(BadAmount(e))
  }

  /** The amount a request comes down to: in base units, free of what the wire cannot carry. */
  function Truncated(amount: int, decimals: nat): Result<nat, QuoteError> {
    match Truncate(FromBaseUnits(amount, decimals), MAX_DECIMALS)
    case Err(e) => Err(BadAmount(e))
    case Ok(a) => UnitsOf(a)
  }

  function Scaled(n: nat, decimals: nat, toDecimals: nat): Result<nat, QuoteError> {
    match Scale(FromBaseUnits(n, decimals), toDecimals)
    case Err(e) => Err(BadAmount(e))
    case Ok(a) => UnitsOf(a)
  }

  datatype ReferrerFee = ReferrerFee(transferTokenFee: int, nativeTokenFee: int)

  /** What is paid to the referrer, and what is left to bridge. */
  datatype Split = Split(transferTokenFee: nat, nativeTokenFee: int, remaining: nat)

  datatype Quote = Quote(sourceAmount: nat, destinationAmount: nat, split: Option<Split>)

  /** A manual quote: the truncated amount, and the same amount in the destination token's decimals. */
  function ManualQuote(amount: int, srcDecimals: nat, dstDecimals: nat): Result<Quote, QuoteError> {
    var truncated := Truncated(amount, srcDecimals);
    if truncated.Err? then Err(truncated.error)
    else
      var receivable := Scaled(truncated.value, srcDecimals, dstDecimals);
      if receivable.Err? then Err(receivable.error) else Ok(Quote(truncated.value, receivable.value, None))
  }

  function SplitFee(sourceAmount: nat, srcDecimals: nat, fee: ReferrerFee): Result<Split, QuoteError> {
    var truncated := Truncated(fee.transferTokenFee, srcDecimals);
    if truncated.Err? then Err(truncated.error)
    else if sourceAmount - truncated.value <= 0 then Err(NothingRemains)
    else Ok(Split(truncated.value, fee.nativeTokenFee, sourceAmount - truncated.value))
  }

  /** An executor quote takes a referrer fee, when there is one, out of the amount that is bridged. */
  function ExecutorAmounts(amount: int, srcDecimals: nat, dstDecimals: nat, fee: Option<ReferrerFee>)
    : Result<Quote, QuoteError>
  {
    var base := ManualQuote(amount, srcDecimals, dstDecimals);
    if base.Err? || fee.None? || (fee.value.transferTokenFee <= 0 && fee.value.nativeTokenFee <= 0) then base
    else
      var split := SplitFee(base.value.sourceAmount, srcDecimals, fee.value);
      if split.Err? then Err(split.error)
      else
        var destination := Scaled(split.value.remaining, srcDecimals, dstDecimals);
        if destination.Err? then Err(destination.error)
        else Ok(Quote(base.value.sourceAmount, destination.value, Some(split.value)))
  }

  /** The transfer amount `fromIdentifier` rebuilds from the amount on the wire. */
  function FromWire(wire: nat, decimals: nat): Result<nat, QuoteError> {
    Scaled(wire, Min(decimals, MAX_DECIMALS), decimals)
  }

  lemma PrintedDigits(n: nat, decimals: nat)
    ensures Digits(FromBaseUnits(n, decimals).amount) && Value(FromBaseUnits(n, decimals).amount) == n
  {
    PrintValue(n);
  }

  lemma NegativeIsRefused(amount: int, decimals: nat)
    requires amount < 0
    ensures Truncated(amount, decimals) == Err(BadAmount(NotDigits))
  {
    assert !IsDigit(FromBaseUnits(amount, decimals).amount[0]);
  }

  lemma TruncatedIsRoundedDown(amount: nat, decimals: nat)
    ensures Truncated(amount, decimals) == Ok(RoundDown(amount, WireUnit(decimals)))
  {
    PrintedDigits(amount, decimals);
    if decimals > MAX_DECIMALS {
      PrintValue(RoundDown(amount, WireUnit(decimals)));
    } else {
      RoundDownFixed(amount, 1);
    }
  }

  lemma ScaledIsExact(n: nat, decimals: nat, toDecimals: nat)
    ensures Scaled(n, decimals, toDecimals).Ok? <==> Representable(n, decimals, toDecimals)
    ensures Scaled(n, decimals, toDecimals).Ok? ==>
              Scaled(n, decimals, toDecimals).value * Pow10(decimals) == n * Pow10(toDecimals)
  {
    PrintedDigits(n, decimals);
    ScaleIsExact(FromBaseUnits(n, decimals), toDecimals);
  }

  lemma MultipleOfFactor(n: nat, a: nat, b: nat)
    requires n % Pow10(a + b) == 0
    ensures n % Pow10(a) == 0
  {
    var q := n / Pow10(a + b);
    assert n == q * Pow10(a + b);
    Pow10Add(b, a);
    MulAssoc(q, Pow10(b), Pow10(a));
    MulNonNegative(q, Pow10(b));
    DivMod(n, q * Pow10(b), 0, Pow10(a));
  }

  /** Amounts free of sub-wire dust fit every token with as many decimals as the wire carries of them. */
  lemma WireMultiplesFit(n: nat, srcDecimals: nat, dstDecimals: nat)
    requires n % WireUnit(srcDecimals) == 0 && dstDecimals >= Min(srcDecimals, MAX_DECIMALS)
    ensures Representable(n, srcDecimals, dstDecimals)
  {
    if dstDecimals < srcDecimals {
      MultipleOfFactor(n, srcDecimals - dstDecimals, dstDecimals - MAX_DECIMALS);
    }
  }

  /**
   * A quote takes off less than one unit of the wire's precision, nothing at all from a token with no more decimals
   * than that, and promises exactly what is left; it fails just when the destination token cannot express that,
   * which it always can when it has at least the wire's decimals.
   */
  lemma QuotePrecision(amount: nat, srcDecimals: nat, dstDecimals: nat)
    ensures var q := ManualQuote(amount, srcDecimals, dstDecimals);
            var kept := RoundDown(amount, WireUnit(srcDecimals));
            && (q.Ok? <==> Representable(kept, srcDecimals, dstDecimals))
            && (dstDecimals >= Min(srcDecimals, MAX_DECIMALS) ==> q.Ok?)
            && (q.Ok? ==>
                  && q.value.sourceAmount == kept && q.value.split.None?
                  && kept <= amount < kept + WireUnit(srcDecimals)
                  && (srcDecimals <= MAX_DECIMALS ==> kept == amount)
                  && q.value.destinationAmount * Pow10(srcDecimals) == kept * Pow10(dstDecimals))
  {
    TruncatedIsRoundedDown(amount, srcDecimals);
    var kept := RoundDown(amount, WireUnit(srcDecimals));
    ScaledIsExact(kept, srcDecimals, dstDecimals);
    if dstDecimals >= Min(srcDecimals, MAX_DECIMALS) {
      WireMultiplesFit(kept, srcDecimals, dstDecimals);
    }
  }

  /** That precision is eight decimals. */
  lemma EightDecimalsAreKept(amount: nat, srcDecimals: nat)
    ensures Truncated(amount, srcDecimals).Ok?
    ensures var kept := Truncated(amount, srcDecimals).value;
            if srcDecimals <= 8 then kept == amount
            else kept <= amount < kept + Pow10(srcDecimals - 8) && kept % Pow10(srcDecimals - 8) == 0
  {
    TruncatedIsRoundedDown(amount, srcDecimals);
  }

  /** Without a referrer fee, or one that asks for nothing, an executor quote is the manual one. */
  lemma NoFeeIsManual(amount: nat, srcDecimals: nat, dstDecimals: nat, fee: Option<ReferrerFee>)
    requires fee.Some? ==> fee.value.transferTokenFee <= 0 && fee.value.nativeTokenFee <= 0
    ensures var q := ExecutorAmounts(amount, srcDecimals, dstDecimals, fee);
            var kept := RoundDown(amount, WireUnit(srcDecimals));
            && (q.Ok? <==> Representable(kept, srcDecimals, dstDecimals))
            && (q.Ok? ==>
                  && q.value.sourceAmount == kept && q.value.split.None?
                  && q.value.destinationAmount * Pow10(srcDecimals) == kept * Pow10(dstDecimals))
  {
    QuotePrecision(amount, srcDecimals, dstDecimals);
  }

  lemma DistributeOver(p: int, q: int, unit: int)
    ensures (p - q) * unit == p * unit - q * unit
  {
  }

  lemma DifferenceOfMultiples(a: nat, b: nat, unit: nat)
    requires unit > 0 && a % unit == 0 && b % unit == 0 && b <= a
    ensures (a - b) % unit == 0
  {
    var p, q := a / unit, b / unit;
    assert a == p * unit && b == q * unit;
    DistributeOver(p, q, unit);
    MulAway(p - q, unit);
    DivMod(a - b, p - q, 0, unit);
  }

  lemma SplitFeeIs(sourceAmount: nat, srcDecimals: nat, fee: ReferrerFee)
    ensures fee.transferTokenFee < 0 ==> SplitFee(sourceAmount, srcDecimals, fee) == Err(BadAmount(NotDigits))
    ensures fee.transferTokenFee >= 0 ==>
              var paid := RoundDown(fee.transferTokenFee, WireUnit(srcDecimals));
              SplitFee(sourceAmount, srcDecimals, fee) ==
                if sourceAmount <= paid then Err(NothingRemains)
                else Ok(Split(paid, fee.nativeTokenFee, sourceAmount - paid))
  {
    if fee.transferTokenFee < 0 {
      NegativeIsRefused(fee.transferTokenFee, srcDecimals);
    } else {
      TruncatedIsRoundedDown(fee.transferTokenFee, srcDecimals);
    }
  }

  /**
   * The kept amount goes to fee and remainder without loss, and the destination amount is worth the remainder exactly.
   */
  predicate Conserves(q: Quote, kept: nat, paid: nat, srcDecimals: nat, dstDecimals: nat) {
    q.split.Some? &&
    var s := q.split.value;
    && q.sourceAmount == kept && s.transferTokenFee == paid
    && s.remaining + s.transferTokenFee == q.sourceAmount
    && s.remaining > 0 && s.remaining % WireUnit(srcDecimals) == 0
    && q.destinationAmount * Pow10(srcDecimals) == s.remaining * Pow10(dstDecimals)
  }

  lemma RemainderScales(kept: nat, paid: nat, srcDecimals: nat, dstDecimals: nat, native: int)
    requires paid < kept && kept % WireUnit(srcDecimals) == 0 && paid % WireUnit(srcDecimals) == 0
    ensures var d := Scaled(kept - paid, srcDecimals, dstDecimals);
            && (d.Ok? ==> Conserves(Quote(kept, d.value, Some(Split(paid, native, kept - paid))), kept, paid,
                                    srcDecimals, dstDecimals))
            && (dstDecimals >= Min(srcDecimals, MAX_DECIMALS) ==> d.Ok?)
  {
    DifferenceOfMultiples(kept, paid, WireUnit(srcDecimals));
    ScaledIsExact(kept - paid, srcDecimals, dstDecimals);
    if dstDecimals >= Min(srcDecimals, MAX_DECIMALS) {
      WireMultiplesFit(kept - paid, srcDecimals, dstDecimals);
    }
  }

  /** An executor quote with a fee, from the quote without. */
  lemma ExecutorAmountsIs(amount: nat, srcDecimals: nat, dstDecimals: nat, fee: ReferrerFee)
    requires fee.transferTokenFee > 0 || fee.nativeTokenFee > 0
    ensures var base := ManualQuote(amount, srcDecimals, dstDecimals);
            ExecutorAmounts(amount, srcDecimals, dstDecimals, Some(fee)) ==
              if base.Err? then base
              else
                match SplitFee(base.value.sourceAmount, srcDecimals, fee)
                case Err(e) => Err(e)
                case Ok(split) =>
                  match Scaled(split.remaining, srcDecimals, dstDecimals)
                  case Err(e) => Err(e)
                  case Ok(d) => Ok(Quote(base.value.sourceAmount, d, Some(split)))
  {
  }

  /**
   * With a referrer fee the truncated amount is split without loss: fee and remainder add up to it, the remainder is
   * positive and free of dust, and the destination amount is worth exactly the remainder.
   */
  lemma ReferrerFeeConserves(amount: nat, srcDecimals: nat, dstDecimals: nat, fee: ReferrerFee)
    requires var q := ExecutorAmounts(amount, srcDecimals, dstDecimals, Some(fee)); q.Ok? && q.value.split.Some?
    ensures fee.transferTokenFee >= 0
    ensures Conserves(ExecutorAmounts(amount, srcDecimals, dstDecimals, Some(fee)).value,
                      RoundDown(amount, WireUnit(srcDecimals)), RoundDown(fee.transferTokenFee, WireUnit(srcDecimals)),
                      srcDecimals, dstDecimals)
  {
    QuotePrecision(amount, srcDecimals, dstDecimals);
    ExecutorAmountsIs(amount, srcDecimals, dstDecimals, fee);
    var kept := RoundDown(amount, WireUnit(srcDecimals));
    SplitFeeIs(kept, srcDecimals, fee);
    if fee.transferTokenFee >= 0 {
      var paid := RoundDown(fee.transferTokenFee, WireUnit(srcDecimals));
      RemainderScales(kept, paid, srcDecimals, dstDecimals, fee.nativeTokenFee);
    }
  }

  /** To a token with at least the wire's decimals, a fee fails a quote only if it is negative or leaves nothing. */
  lemma ReferrerFeeFailsIff(amount: nat, srcDecimals: nat, dstDecimals: nat, fee: ReferrerFee)
    requires dstDecimals >= Min(srcDecimals, MAX_DECIMALS)
    requires fee.transferTokenFee > 0 || fee.nativeTokenFee > 0
    ensures ExecutorAmounts(amount, srcDecimals, dstDecimals, Some(fee)).Err?
            <==> fee.transferTokenFee < 0
                 || RoundDown(amount, WireUnit(srcDecimals)) <= RoundDown(fee.transferTokenFee, WireUnit(srcDecimals))
  {
    QuotePrecision(amount, srcDecimals, dstDecimals);
    ExecutorAmountsIs(amount, srcDecimals, dstDecimals, fee);
    var kept := RoundDown(amount, WireUnit(srcDecimals));
    SplitFeeIs(kept, srcDecimals, fee);
    if fee.transferTokenFee >= 0 && RoundDown(fee.transferTokenFee, WireUnit(srcDecimals)) < kept {
      var paid := RoundDown(fee.transferTokenFee, WireUnit(srcDecimals));
      RemainderScales(kept, paid, srcDecimals, dstDecimals, fee.nativeTokenFee);
    }
  }

  /** What `fromIdentifier` rebuilds always scales, exactly, and truncating it again changes nothing. */
  lemma FromWireIsExact(wire: nat, decimals: nat)
    ensures FromWire(wire, decimals) == Ok(wire * WireUnit(decimals))
    ensures Truncated(wire * WireUnit(decimals), decimals) == Ok(wire * WireUnit(decimals))
  {
    var low := Min(decimals, MAX_DECIMALS);
    ScaledIsExact(wire, low, decimals);
    var n := FromWire(wire, decimals).value;
    Pow10Add(decimals - low, low);
    assert Pow10(decimals - low) == WireUnit(decimals);
    MulAssoc(wire, WireUnit(decimals), Pow10(low));
    Cancel(n, wire * WireUnit(decimals), Pow10(low));
    MulNonNegative(wire, WireUnit(decimals));
    TruncatedIsRoundedDown(wire * WireUnit(decimals), decimals);
    DivMod(wire * WireUnit(decimals), wire, 0, WireUnit(decimals));
    RoundDownFixed(wire * WireUnit(decimals), WireUnit(decimals));
  }

  lemma Cancel(a: int, b: int, d: nat)
    requires d > 0 && a * d == b * d
    ensures a == b
  {
    assert (a - b) * d == 0;
    MulAway(a - b, d);
  }

  /** So a quoted amount goes over the wire and comes back: its wire form exists, and rebuilds it. */
  lemma WireRoundTrip(amount: nat, decimals: nat)
    ensures var kept := RoundDown(amount, WireUnit(decimals));
            var wire := Scaled(kept, decimals, Min(decimals, MAX_DECIMALS));
            wire.Ok? && FromWire(wire.value, decimals) == Ok(kept)
  {
    var kept, low := RoundDown(amount, WireUnit(decimals)), Min(decimals, MAX_DECIMALS);
    WireMultiplesFit(kept, decimals, low);
    ScaledIsExact(kept, decimals, low);
    var wire := Scaled(kept, decimals, low).value;
    FromWireIsExact(wire, decimals);
    Pow10Add(decimals - low, low);
    assert Pow10(decimals - low) == WireUnit(decimals);
    MulAssoc(wire, WireUnit(decimals), Pow10(low));
    Cancel(wire * WireUnit(decimals), kept, Pow10(low));
  }

  datatype Capabilities = Capabilities(erv1: bool, gasDropOffLimit: int)

  datatype Instruction = GasInstruction(gasLimit: int, msgValue: int) | GasDropOffInstruction(dropOff: int)

  /** The options a route accepts: no share, or one between none and all of the destination's limit. */
  predicate Accepts(nativeGas: Option<real>) {
    nativeGas.Some? ==> nativeGas.value == 0.0 || (nativeGas.value <= 1.0 && nativeGas.value >= 0.0)
  }

  /** The share of the limit, rounded to whole percents. */
  function NativeGas(nativeGas: Option<real>, limit: int): Option<int> {
    if nativeGas.None? then None
    else if limit > 0 then Some(Percent(nativeGas) * limit / 100)
    else Some(0)
  }

  /** `Math.round` of the share in percents. */
  function Percent(nativeGas: Option<real>): int {
    if nativeGas.Some? then (nativeGas.value * 100.0 + 0.5).Floor else 0
  }

  /** The relay instructions of an executor quote. */
  function ExecutorInstructions(
    src: Option<Capabilities>, dst: Option<Capabilities>, gasLimit: int, msgValue: int, nativeGas: Option<int>,
    estimatedCost: Option<nat>)
    : Result<seq<Instruction>, QuoteError>
  {
    var dropOff := if nativeGas.Some? then nativeGas.value else 0;
    if src.None? || dst.None? || !dst.value.erv1 then Err(NoCapabilities)
    else if dropOff > dst.value.gasDropOffLimit then Err(DropOffExceedsLimit)
    else if estimatedCost.None? then Err(NoEstimate)
    else
      Ok([GasInstruction(gasLimit, msgValue)] + if dropOff > 0 then [GasDropOffInstruction(dropOff)] else [])
  }

  lemma WholePercents(share: Option<real>)
    requires Accepts(share)
    ensures 0 <= Percent(share) <= 100
  {
  }

  /** No whole percentage is nearer to the share, and a half goes up. */
  lemma NearestPercent(share: real, p: int)
    ensures Percent(None) == 0
    ensures var q := Percent(Some(share));
            && Distance(q as real, share * 100.0) <= Distance(p as real, share * 100.0)
            && (p != q && Distance(q as real, share * 100.0) == Distance(p as real, share * 100.0) ==> p < q)
  {
  }

  function Distance(x: real, y: real): real {
    if x < y then y - x else x - y
  }

  /** A route accepts any share between none and all, and no other. */
  lemma AcceptsIff(share: Option<real>)
    ensures Accepts(share) <==> share == None || 0.0 <= share.value <= 1.0
  {
  }

  /** For every input: why an executor quote is refused, if it is. */
  lemma ExecutorFailsIff(
    src: Option<Capabilities>, dst: Option<Capabilities>, gasLimit: int, msgValue: int, dropOff: Option<int>,
    cost: Option<nat>)
    ensures var r := ExecutorInstructions(src, dst, gasLimit, msgValue, dropOff, cost);
            var capable := src != None && dst != None && dst.value.erv1;
            var exceeds := capable && (if dropOff == None then 0 else dropOff.value) > dst.value.gasDropOffLimit;
            && (r == Err(NoCapabilities) <==> !capable)
            && (r == Err(DropOffExceedsLimit) <==> exceeds)
            && (r == Err(NoEstimate) <==> capable && !exceeds && cost == None)
            && (r.Ok? <==> capable && !exceeds && cost != None)
  {
  }

  lemma PercentOfLimit(percent: int, limit: int)
    requires 0 <= percent <= 100 && limit > 0
    ensures 0 <= percent * limit / 100 <= limit
    ensures percent * limit / 100 > 0 <==> percent * limit >= 100
  {
    MulNonNegative(percent, limit);
    MulNonNegative(100 - percent, limit);
    assert (100 - percent) * limit == 100 * limit - percent * limit;
    DivBy100(percent * limit, limit);
  }

  lemma DivBy100(x: nat, limit: int)
    requires x <= 100 * limit
    ensures 0 <= x / 100 <= limit && (x / 100 > 0 <==> x >= 100)
  {
  }

  /**
   * With capabilities that do not change in between, accepted options trip the limit exactly when the limit itself is
   * negative; and one gas instruction is followed by a drop-off exactly when the share comes to at least one unit.
   */
  lemma AcceptedDropOffFits(
    share: Option<real>, caps: Capabilities, src: Capabilities, gasLimit: int, msgValue: int, cost: nat)
    requires Accepts(share) && caps.erv1
    ensures var limit := caps.gasDropOffLimit;
            var gas := NativeGas(share, limit);
            var r := ExecutorInstructions(Some(src), Some(caps), gasLimit, msgValue, gas, Some(cost));
            && (r == Err(DropOffExceedsLimit) <==> limit < 0)
            && (limit >= 0 && Percent(share) * limit < 100 ==> r == Ok([GasInstruction(gasLimit, msgValue)]))
            && (limit >= 0 && Percent(share) * limit >= 100 ==>
                  && r == Ok([GasInstruction(gasLimit, msgValue), GasDropOffInstruction(Percent(share) * limit / 100)])
                  && Percent(share) * limit / 100 <= limit)
  {
    var limit := caps.gasDropOffLimit;
    var gas := GasInstruction(gasLimit, msgValue);
    var dropOff := GasDropOffInstruction(Percent(share) * limit / 100);
    assert [gas] + [] == [gas] && [gas] + [dropOff] == [gas, dropOff];
    WholePercents(share);
    if limit > 0 {
      PercentOfLimit(Percent(share), limit);
    } else if limit == 0 {
      assert Percent(share) * limit == 0;
    }
  }
}
