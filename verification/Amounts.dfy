/**
 * Amounts of base units kept as decimal strings (core/base/src/utils/amount.ts). Truncating and scaling work on the
 * digits; the lemmas say what that does to the values.
 */
module Amounts {
  import opened Prelude

  datatype AmountError = NotDigits | WouldAlter

  /** An amount in base units, as a string, and how many of its digits are decimals. */
  datatype Amount = Amount(amount: string, decimals: nat)

  predicate IsDigit(c: char) {
    '0' <= c <= '9'
  }

  predicate Digits(s: string) {
    forall i | 0 <= i < |s| :: IsDigit(s[i])
  }

  function Pow10(k: nat): (p: nat)
    ensures p > 0
  {
    if k == 0 then 1 else 10 * Pow10(k - 1)
  }

  function DigitChar(d: nat): (c: char)
    requires d < 10
    ensures IsDigit(c) && c as int - '0' as int == d
  {
    ('0' as int + d) as char
  }

  /** `BigInt(s)` of a string of digits; the empty string is zero. */
  function Value(s: string): nat
    requires Digits(s)
  {
    if s == [] then 0 else 10 * Value(s[..|s| - 1]) + (s[|s| - 1] as int - '0' as int)
  }

  /** `n.toString()` of a non-negative number. */
  function Print(n: nat): (s: string)
    ensures Digits(s) && s != []
  {
    if n < 10 then [DigitChar(n)] else Print(n / 10) + [DigitChar(n % 10)]
  }

  lemma {:induction false} PrintValue(n: nat)
    ensures Value(Print(n)) == n
    ensures Print(n) == "0" <==> n == 0
  {
    if n >= 10 {
      PrintValue(n / 10);
      assert Print(n)[..|Print(n)| - 1] == Print(n / 10);
    } else {
      assert Print(n)[..0] == [];
    }
  }

  lemma MulNonNegative(x: nat, y: nat)
    ensures x * y >= 0
  {
  }

  lemma MulAway(x: int, d: nat)
    requires d > 0
    ensures x > 0 ==> x * d >= d
    ensures x < 0 ==> x * d <= 0 - d
  {
    if x > 0 {
      assert x * d == (x - 1) * d + d;
      MulNonNegative(x - 1, d);
    } else if x < 0 {
      assert -(x * d) == (-x - 1) * d + d;
      MulNonNegative(-x - 1, d);
    }
  }

  /** A quotient and a remainder that fit are the quotient and the remainder. */
  lemma DivMod(n: nat, q: nat, r: nat, d: nat)
    requires d > 0 && n == q * d + r && r < d
    ensures n / d == q && n % d == r
  {
    var q', r' := n / d, n % d;
    assert n == q' * d + r';
    assert (q' - q) * d == q' * d - q * d == r - r';
    MulAway(q' - q, d);
  }

  /** The greatest multiple of `unit` that is no more than `n`. */
  function RoundDown(n: nat, unit: nat): (r: nat)
    requires unit > 0
    ensures r <= n < r + unit && r % unit == 0
  {
    assert n == n / unit * unit + n % unit;
    MulNonNegative(n / unit, unit);
    DivMod(n / unit * unit, n / unit, 0, unit);
    n / unit * unit
  }

  lemma RoundDownFixed(n: nat, unit: nat)
    requires unit > 0
    ensures n % unit == 0 <==> RoundDown(n, unit) == n
  {
    assert n == n / unit * unit + n % unit;
  }

  lemma MulAssoc(x: int, y: int, z: int)
    ensures x * y * z == x * (y * z)
  {
  }

  function FromBaseUnits(units: int, decimals: nat): Amount {
    Amount(if units < 0 then "-" + Print(-units) else Print(units), decimals)
  }

  function Units(a: Amount): Result<nat, AmountError> {
    if Digits(a.amount) then Ok(Value(a.amount)) else Err(NotDigits)
  }

  /** Zeroes the digits past `maxDecimals`; an amount with no more decimals than that is not even looked at. */
  function Truncate(a: Amount, maxDecimals: nat): Result<Amount, AmountError> {
    if a.decimals <= maxDecimals then Ok(a)
    else if !Digits(a.amount) then Err(NotDigits)
    else
      Ok(Amount(Print(RoundDown(Value(a.amount), Pow10(a.decimals - maxDecimals))), a.decimals))
  }

  /** `String.prototype.substring`: indices out of range are moved into it. */
  function Clamp(s: string, i: int): (j: nat)
    ensures j <= |s|
  {
    if i < 0 then 0 else if i > |s| then |s| else i
  }

  /** Appends zeros to scale up; to scale down, drops trailing digits that are all zero or refuses. */
  function Scale(a: Amount, toDecimals: nat): Result<Amount, AmountError>
    requires Digits(a.amount)
  {
    if a.decimals == toDecimals then Ok(a)
    else if a.amount == "0" then Ok(Amount("0", toDecimals))
    else
      var delta := toDecimals - a.decimals;
      var cut := Clamp(a.amount, |a.amount| + delta);
      if delta > 0 then Ok(Amount(a.amount + Zeros(delta), toDecimals))
      else if Value(a.amount[cut..]) == 0 then Ok(Amount(a.amount[..cut], toDecimals))
      else Err(WouldAlter)
  }

  function Zeros(k: nat): (s: string)
    ensures |s| == k && Digits(s)
  {
    seq(k, _ => '0')
  }

  lemma Shift(v: int, p: int, w: int, d: int)
    ensures 10 * (v * p + w) + d == v * (10 * p) + (10 * w + d)
  {
  }

  lemma {:induction false} ValueSplit(s: string, t: string)
    requires Digits(s) && Digits(t)
    ensures Digits(s + t)
    ensures Value(s + t) == Value(s) * Pow10(|t|) + Value(t)
    ensures Value(t) < Pow10(|t|)
    decreases |t|
  {
    if t == [] {
      assert s + t == s;
    } else {
      var init := t[..|t| - 1];
      ValueSplit(s, init);
      assert (s + t)[..|s + t| - 1] == s + init;
      assert (s + t)[|s + t| - 1] == t[|t| - 1];
      Shift(Value(s), Pow10(|init|), Value(init), t[|t| - 1] as int - '0' as int);
    }
  }

  lemma {:induction false} ZerosValue(k: nat)
    ensures Value(Zeros(k)) == 0
  {
    if k > 0 {
      ZerosValue(k - 1);
      assert Zeros(k)[..k - 1] == Zeros(k - 1);
    }
  }

  lemma {:induction false} Pow10Add(a: nat, b: nat)
    ensures Pow10(a + b) == Pow10(a) * Pow10(b)
  {
    if a > 0 {
      Pow10Add(a - 1, b);
    }
  }

  lemma {:induction false} Pow10Grows(a: nat, b: nat)
    requires a <= b
    ensures Pow10(a) <= Pow10(b)
  {
    Pow10Add(a, b - a);
    assert Pow10(a) * Pow10(b - a) >= Pow10(a);
  }

  /** Truncation rounds down to the unit of `maxDecimals` decimals, and keeps what is already a multiple of it. */
  lemma TruncateRoundsDown(a: Amount, maxDecimals: nat)
    requires Digits(a.amount)
    ensures var t := Truncate(a, maxDecimals);
            && t.Ok? && t.value.decimals == a.decimals && Digits(t.value.amount)
            && (a.decimals <= maxDecimals ==> t.value == a)
            && (a.decimals > maxDecimals ==>
                  var unit := Pow10(a.decimals - maxDecimals);
                  && Value(t.value.amount) <= Value(a.amount) < Value(t.value.amount) + unit
                  && Value(t.value.amount) % unit == 0)
  {
    if a.decimals > maxDecimals {
      PrintValue(RoundDown(Value(a.amount), Pow10(a.decimals - maxDecimals)));
    }
  }

  lemma TruncateTwice(a: Amount, maxDecimals: nat)
    requires Digits(a.amount)
    ensures Truncate(a, maxDecimals).Ok?
    ensures Truncate(Truncate(a, maxDecimals).value, maxDecimals) == Truncate(a, maxDecimals)
  {
    if a.decimals > maxDecimals {
      var unit := Pow10(a.decimals - maxDecimals);
      var r := RoundDown(Value(a.amount), unit);
      PrintValue(r);
      RoundDownFixed(r, unit);
    }
  }

  /** Whether an amount has an exact counterpart with `toDecimals` decimals. */
  predicate Representable(n: nat, decimals: nat, toDecimals: nat) {
    toDecimals >= decimals || n % Pow10(decimals - toDecimals) == 0
  }

  /**
   * Cutting and padding digits is scaling: it succeeds exactly on the amounts that have an exact counterpart, and
   * gives that one.
   */
  lemma ScaleIsExact(a: Amount, toDecimals: nat)
    requires Digits(a.amount)
    ensures Scale(a, toDecimals).Ok? <==> Representable(Value(a.amount), a.decimals, toDecimals)
    ensures Scale(a, toDecimals).Ok? ==>
              var s := Scale(a, toDecimals).value;
              && s.decimals == toDecimals && Digits(s.amount)
              && Value(s.amount) * Pow10(a.decimals) == Value(a.amount) * Pow10(toDecimals)
  {
    var n := Value(a.amount);
    if a.decimals == toDecimals {
    } else if a.amount == "0" {
      ZeroValue();
    } else if toDecimals > a.decimals {
      ScaleUp(a, toDecimals);
    } else {
      ScaleDown(a, toDecimals);
    }
  }

  lemma ZeroValue()
    ensures Value("0") == 0
  {
    assert "0"[..0] == [];
  }

  lemma ScaleUp(a: Amount, toDecimals: nat)
    requires Digits(a.amount) && toDecimals > a.decimals && a.amount != "0"
    ensures Scale(a, toDecimals).Ok?
    ensures var s := Scale(a, toDecimals).value;
            && s.decimals == toDecimals && Digits(s.amount)
            && Value(s.amount) * Pow10(a.decimals) == Value(a.amount) * Pow10(toDecimals)
  {
    var k := toDecimals - a.decimals;
    ValueSplit(a.amount, Zeros(k));
    ZerosValue(k);
    Pow10Add(k, a.decimals);
    MulAssoc(Value(a.amount), Pow10(k), Pow10(a.decimals));
  }

  lemma ScaleDown(a: Amount, toDecimals: nat)
    requires Digits(a.amount) && toDecimals < a.decimals && a.amount != "0"
    ensures Scale(a, toDecimals).Ok? <==> Value(a.amount) % Pow10(a.decimals - toDecimals) == 0
    ensures Scale(a, toDecimals).Ok? ==>
              var s := Scale(a, toDecimals).value;
              && s.decimals == toDecimals && Digits(s.amount)
              && Value(s.amount) * Pow10(a.decimals) == Value(a.amount) * Pow10(toDecimals)
  {
    var k := a.decimals - toDecimals;
    var cut := Clamp(a.amount, |a.amount| - k);
    var head, tail := a.amount[..cut], a.amount[cut..];
    assert head + tail == a.amount;
    ValueSplit(head, tail);
    if |tail| == k {
      ScaleDownValue(Value(a.amount), Value(head), Value(tail), k, toDecimals);
    } else {
      Pow10Grows(|tail|, k);
      assert head == [];
      DivMod(Value(a.amount), 0, Value(tail), Pow10(k));
    }
  }

  lemma ScaleDownValue(n: nat, head: nat, tail: nat, k: nat, toDecimals: nat)
    requires n == head * Pow10(k) + tail && tail < Pow10(k)
    ensures n % Pow10(k) == tail
    ensures tail == 0 ==> head * Pow10(k + toDecimals) == n * Pow10(toDecimals)
  {
    DivMod(n, head, tail, Pow10(k));
    Pow10Add(k, toDecimals);
    MulAssoc(head, Pow10(k), Pow10(toDecimals));
  }
}
