/** The fake provider's money (`FakeLscAssets.cs`): the deposit a payout costs, the rate that
    is advertised, and amounts as text. `decimal` values are exact here. */
module SwapAmounts {
  import opened Text

  datatype Coin = BTC | USDT | USDC | SOL | ETH

  function UsdPerCoin(coin: Coin): real {
    match coin
    case BTC => 100_000.0
    case USDT => 1.0
    case USDC => 1.0
    case SOL => 150.0
    case ETH => 3_000.0
  }

  const MARKUP: real := 1.01

  /** BTC received for one unit at the pure rate: the `out` of the published rates, against
      an `in` of `MARKUP`. */
  function BtcPerUnit(coin: Coin): real { UsdPerCoin(coin) / UsdPerCoin(BTC) }

  function Ceiling(x: real): int { -((-x).Floor) }

  function MarkedUp(coin: Coin, btc: real): real {
    btc * UsdPerCoin(BTC) / UsdPerCoin(coin) * MARKUP
  }

  /** A whole number of 10^-8 units. */
  function Units(n: int): real { n as real / 100_000_000.0 }

  function DepositAmountFor(coin: Coin, btc: real): real {
    Units(Ceiling(MarkedUp(coin, btc) * 100_000_000.0))
  }

  lemma CeilingBounds(x: real)
    ensures x <= Ceiling(x) as real < x + 1.0
  {
  }

  lemma CeilingLeast(x: real, n: int)
    requires x <= n as real
    ensures Ceiling(x) <= n
  {
    CeilingBounds(x);
    assert Ceiling(x) as real < (n + 1) as real;
  }

  lemma UnitsOrdered(m: int, n: int)
    requires m <= n
    ensures Units(m) <= Units(n)
  {
  }

  lemma RoundUp(price: real)
    ensures var up := Units(Ceiling(price * 100_000_000.0));
            price <= up < price + 0.00000001 && forall n: int :: price <= Units(n) ==> up <= Units(n)
  {
    var x := price * 100_000_000.0;
    CeilingBounds(x);
    hide Ceiling;
    forall n: int | price <= Units(n) ensures Units(Ceiling(x)) <= Units(n) {
      assert x <= n as real;
      CeilingLeast(x, n);
      UnitsOrdered(Ceiling(x), n);
    }
  }

  /** The deposit is the least whole number of 10^-8 units that covers the marked-up price. */
  lemma DepositIsLeast(coin: Coin, btc: real)
    ensures var price, deposit := MarkedUp(coin, btc), DepositAmountFor(coin, btc);
            && price <= deposit < price + 0.00000001
            && forall n: int :: price <= Units(n) ==> deposit <= Units(n)
  {
    hide MarkedUp;
    RoundUp(MarkedUp(coin, btc));
  }

  /** Paid at the published rate, the deposit never buys less than was asked for. */
  lemma DepositCoversPayout(coin: Coin, btc: real)
    ensures DepositAmountFor(coin, btc) / MARKUP * BtcPerUnit(coin) >= btc
  {
    DepositIsLeast(coin, btc);
    var deposit := DepositAmountFor(coin, btc);
    match coin
    case BTC => assert MarkedUp(coin, btc) == btc * 1.01;
    case USDT => assert MarkedUp(coin, btc) == btc * 101_000.0;
    case USDC => assert MarkedUp(coin, btc) == btc * 101_000.0;
    case SOL => assert MarkedUp(coin, btc) * 150.0 == btc * 101_000.0;
    case ETH => assert MarkedUp(coin, btc) * 3_000.0 == btc * 101_000.0;
  }

  /** The price in the coin: one BTC is worth 100,000 USD, plus one per cent, at 150 USD for one SOL,
      3,000 for one ETH and one for either stable coin. */
  lemma PriceIs(btc: real)
    ensures MarkedUp(BTC, btc) == 1.01 * btc
    ensures MarkedUp(USDT, btc) == 101_000.0 * btc && MarkedUp(USDC, btc) == 101_000.0 * btc
    ensures MarkedUp(SOL, btc) * 150.0 == 101_000.0 * btc && MarkedUp(ETH, btc) * 3_000.0 == 101_000.0 * btc
    ensures BtcPerUnit(BTC) == 1.0 && BtcPerUnit(USDT) == 0.00001 && BtcPerUnit(USDC) == 0.00001
    ensures BtcPerUnit(SOL) == 0.0015 && BtcPerUnit(ETH) == 0.03
  {
  }

  // ----- amounts as text ------------------------------------------------------------------------

  /** `mantissa` / 10^`scale`; equal values may carry different scales, as in 1.5 and 1.50. */
  datatype Decimal = Decimal(mantissa: nat, scale: nat)

  function Scaled(m: nat, scale: nat): real {
    if scale == 0 then m as real else Scaled(m, scale - 1) / 10.0
  }

  function ValueOf(d: Decimal): real { Scaled(d.mantissa, d.scale) }

  predicate IsDigit(c: char) { '0' <= c <= '9' }

  function Digit(n: nat): (c: char)
    requires n < 10
    ensures IsDigit(c) && c as int - '0' as int == n
  {
    '0' + n as char
  }

  function Digits(n: nat): string {
    if n < 10 then [Digit(n)] else Digits(n / 10) + [Digit(n % 10)]
  }

  /** The last `k` digits, zeros included. */
  function Fixed(n: nat, k: nat): string {
    if k == 0 then "" else Fixed(n / 10, k - 1) + [Digit(n % 10)]
  }

  function Whole(m: nat, scale: nat): nat {
    if scale == 0 then m else Whole(m / 10, scale - 1)
  }

  /** `decimal.ToString` in the invariant culture: every digit of the scale is printed. */
  function ToText(d: Decimal): string {
    if d.scale == 0 then Digits(d.mantissa)
    else Digits(Whole(d.mantissa, d.scale)) + "." + Fixed(d.mantissa, d.scale)
  }

  function TrimEndChar(s: string, c: char): string {
    if s != "" && s[|s| - 1] == c then TrimEndChar(s[..|s| - 1], c) else s
  }

  function FormatAmount(d: Decimal): string {
    var text := ToText(d);
    if '.' in text then TrimEndChar(TrimEndChar(text, '0'), '.') else text
  }

  predicate AllDigits(s: string) { forall i :: 0 <= i < |s| ==> IsDigit(s[i]) }

  function Number(s: string): nat
    requires AllDigits(s)
  {
    if s == "" then 0
    else
      var last := s[|s| - 1];
      assert IsDigit(last);
      Number(s[..|s| - 1]) * 10 + (last as int - '0' as int)
  }

  function DotAt(s: string): (i: nat)
    ensures i <= |s| && (i < |s| ==> s[i] == '.') && '.' !in s[..i]
  {
    if s == "" || s[0] == '.' then 0 else 1 + DotAt(s[1..])
  }

  /** Digits with at most one decimal point, and a positive value. */
  function TryParseAmount(text: string): Option<Decimal> {
    var dot := DotAt(text);
    var whole, fraction := text[..dot], if dot < |text| then text[dot + 1..] else "";
    var all := whole + fraction;
    if all == "" || !AllDigits(all) || Number(all) == 0 then None
    else Some(Decimal(Number(all), |fraction|))
  }

  /** What parses: digits with a point anywhere among them or none at all, as long as the number is not
      zero; the scale is the number of digits after the point. */
  lemma ParsesExactly(text: string)
    ensures forall whole, fraction :: AllDigits(whole) && AllDigits(fraction) && text == whole + "." + fraction ==>
              TryParseAmount(text) == Amount(whole, fraction)
    ensures AllDigits(text) ==> TryParseAmount(text) == Amount(text, "")
    ensures !AllDigits(text) && (forall whole, fraction :: AllDigits(whole) && AllDigits(fraction) ==> text != whole + "." + fraction) ==>
              TryParseAmount(text) == None
  {
    forall whole, fraction | AllDigits(whole) && AllDigits(fraction) && text == whole + "." + fraction
      ensures TryParseAmount(text) == Amount(whole, fraction)
    {
      NoDot(whole);
      DotOf(whole, fraction);
      assert text[..|whole|] == whole && text[|whole| + 1..] == fraction;
    }
    if AllDigits(text) {
      NoDot(text);
      assert text + "" == text && text[..|text|] == text;
    }
    if TryParseAmount(text).Some? { Parsed(text); }
  }

  function Amount(whole: string, fraction: string): Option<Decimal>
    requires AllDigits(whole) && AllDigits(fraction)
  {
    DigitsJoined(whole, fraction);
    if Number(whole + fraction) > 0 then Some(Decimal(Number(whole + fraction), |fraction|)) else None
  }

  lemma DigitsJoined(whole: string, fraction: string)
    ensures AllDigits(whole + fraction) <==> AllDigits(whole) && AllDigits(fraction)
  {
    var all := whole + fraction;
    if AllDigits(all) {
      forall i | 0 <= i < |whole| ensures IsDigit(whole[i]) { assert all[i] == whole[i]; }
      forall i | 0 <= i < |fraction| ensures IsDigit(fraction[i]) { assert all[|whole| + i] == fraction[i]; }
    }
  }

  lemma Parsed(text: string)
    requires TryParseAmount(text).Some?
    ensures AllDigits(text) || exists whole, fraction :: AllDigits(whole) && AllDigits(fraction) && text == whole + "." + fraction
  {
    var dot := DotAt(text);
    if dot < |text| {
      DigitsJoined(text[..dot], text[dot + 1..]);
      assert text == text[..dot] + "." + text[dot + 1..];
    } else {
      assert text[..dot] + "" == text;
    }
  }

  /** A number reads digit by digit. */
  lemma NumberReads(s: string, c: char)
    requires AllDigits(s + [c])
    ensures AllDigits(s) && IsDigit(c) && Number(s + [c]) == 10 * Number(s) + (c as int - '0' as int) && Number("") == 0
  {
    DigitsJoined(s, [c]);
    assert [c][0] == c && (s + [c])[..|s|] == s;
  }

  /** Trailing zeros of the fraction dropped. */
  function Reduced(d: Decimal): Decimal
    decreases d.scale
  {
    if d.scale > 0 && d.mantissa % 10 == 0 then Reduced(Decimal(d.mantissa / 10, d.scale - 1)) else d
  }

  lemma {:induction false} DigitsNumber(n: nat)
    ensures Digits(n) != "" && AllDigits(Digits(n)) && Number(Digits(n)) == n
  {
    if n < 10 {
      assert [Digit(n)][..0] == "";
    } else {
      DigitsNumber(n / 10);
      assert Digits(n)[..|Digits(n)| - 1] == Digits(n / 10);
    }
  }

  /** Whole numbers are printed without leading zeros. */
  lemma {:induction false} NoLeadingZero(n: nat)
    ensures Digits(n) != "" && (Digits(n)[0] == '0' <==> n == 0) && Digits(0) == "0"
  {
    if n >= 10 { NoLeadingZero(n / 10); }
  }

  lemma {:induction false} FixedDigits(n: nat, k: nat)
    ensures |Fixed(n, k)| == k && AllDigits(Fixed(n, k))
  {
    if k > 0 { FixedDigits(n / 10, k - 1); }
  }

  lemma {:induction false} DigitsWhole(m: nat, scale: nat)
    ensures var all := Digits(Whole(m, scale)) + Fixed(m, scale); AllDigits(all) && Number(all) == m
    decreases scale
  {
    var all := Digits(Whole(m, scale)) + Fixed(m, scale);
    if scale == 0 {
      DigitsNumber(m);
      assert all == Digits(m);
    } else {
      DigitsWhole(m / 10, scale - 1);
      assert all[..|all| - 1] == Digits(Whole(m / 10, scale - 1)) + Fixed(m / 10, scale - 1);
    }
  }

  lemma {:induction false} DotOf(whole: string, fraction: string)
    requires '.' !in whole
    ensures DotAt(whole + "." + fraction) == |whole|
  {
    var text := whole + "." + fraction;
    if whole != "" {
      DotOf(whole[1..], fraction);
      assert text[1..] == whole[1..] + "." + fraction;
    }
  }

  lemma NoDot(s: string)
    requires AllDigits(s)
    ensures '.' !in s && DotAt(s) == |s|
  {
  }

  /** Printing with every digit and parsing back is exact, scale included. */
  lemma ParseText(d: Decimal)
    requires d.mantissa > 0
    ensures TryParseAmount(ToText(d)) == Some(d)
  {
    DigitsNumber(Whole(d.mantissa, d.scale));
    NoDot(Digits(Whole(d.mantissa, d.scale)));
    DigitsWhole(d.mantissa, d.scale);
    FixedDigits(d.mantissa, d.scale);
    var whole, fraction := Digits(Whole(d.mantissa, d.scale)), Fixed(d.mantissa, d.scale);
    if d.scale == 0 {
      assert whole + "" == whole;
    } else {
      DotOf(whole, fraction);
      var text := whole + "." + fraction;
      assert text[..|whole|] == whole && text[|whole| + 1..] == fraction;
    }
  }

  /** A text that does not end in a zero of its fraction is kept. */
  lemma KeepText(d: Decimal)
    requires d.scale > 0 ==> d.mantissa % 10 != 0
    ensures FormatAmount(d) == ToText(d)
  {
    DigitsNumber(Whole(d.mantissa, d.scale));
    NoDot(Digits(Whole(d.mantissa, d.scale)));
    if d.scale > 0 { assert ToText(d)[|ToText(d)| - 1] == Digit(d.mantissa % 10); }
  }

  lemma DropZero(d: Decimal)
    requires d.scale > 1 && d.mantissa % 10 == 0
    ensures FormatAmount(d) == FormatAmount(Decimal(d.mantissa / 10, d.scale - 1))
  {
    hide Digits;
    var next := Decimal(d.mantissa / 10, d.scale - 1);
    var whole := Digits(Whole(d.mantissa, d.scale));
    assert ToText(d)[|whole|] == '.' && ToText(next)[|whole|] == '.';
    assert ToText(d)[..|ToText(d)| - 1] == ToText(next);
    assert ToText(d)[|ToText(d)| - 1] == '0';
  }

  lemma {:induction false} FormatIsReduced(d: Decimal)
    ensures FormatAmount(d) == ToText(Reduced(d))
    decreases d.scale
  {
    if d.scale == 0 || d.mantissa % 10 != 0 {
      KeepText(d);
    } else {
      hide FormatAmount, ToText, Digits;
      if d.scale == 1 { TrimPoint(d); } else { DropZero(d); }
      FormatIsReduced(Decimal(d.mantissa / 10, d.scale - 1));
    }
  }

  lemma TrimPoint(d: Decimal)
    requires d.scale == 1 && d.mantissa % 10 == 0
    ensures FormatAmount(d) == Digits(d.mantissa / 10) && FormatAmount(Decimal(d.mantissa / 10, 0)) == Digits(d.mantissa / 10)
  {
    var whole := Digits(d.mantissa / 10);
    DigitsNumber(d.mantissa / 10);
    NoDot(whole);
    assert Whole(d.mantissa, 1) == d.mantissa / 10;
    assert Fixed(d.mantissa, 1) == "0";
    var text := whole + "." + "0";
    assert ToText(d) == text && text[|whole|] == '.';
    assert text[..|text| - 1] == whole + ".";
    assert TrimEndChar(text, '0') == TrimEndChar(whole + ".", '0') == whole + ".";
    assert (whole + ".")[..|whole|] == whole;
    assert TrimEndChar(whole, '.') == whole;
  }

  lemma {:induction false} ScaledTenth(m: nat, scale: nat)
    requires m % 10 == 0 && scale > 0
    ensures Scaled(m / 10, scale - 1) == Scaled(m, scale)
    decreases scale
  {
    if scale > 1 { ScaledTenth(m, scale - 1); }
  }

  lemma {:induction false} ReducedValue(d: Decimal)
    ensures ValueOf(Reduced(d)) == ValueOf(d)
    ensures var r := Reduced(d); (r.scale > 0 ==> r.mantissa % 10 != 0) && (d.mantissa > 0 ==> r.mantissa > 0)
    decreases d.scale
  {
    if d.scale > 0 && d.mantissa % 10 == 0 {
      ScaledTenth(d.mantissa, d.scale);
      ReducedValue(Decimal(d.mantissa / 10, d.scale - 1));
    }
  }

  lemma {:induction false} WholeNumber(m: nat, scale: nat, n: int)
    requires scale > 0 && Scaled(m, scale) == n as real
    ensures m % 10 == 0
    decreases scale
  {
    if scale == 1 {
      assert m as real == (10 * n) as real;
    } else {
      WholeNumber(m, scale - 1, 10 * n);
    }
  }

  /** Without trailing zeros a value has one form. */
  lemma {:induction false} ReducedUnique(a: Decimal, b: Decimal)
    requires (a.scale > 0 ==> a.mantissa % 10 != 0) && (b.scale > 0 ==> b.mantissa % 10 != 0)
    requires ValueOf(a) == ValueOf(b)
    ensures a == b
    decreases a.scale
  {
    if a.scale > 0 && b.scale > 0 {
      ReducedUnique(a.(scale := a.scale - 1), b.(scale := b.scale - 1));
    } else if a.scale > 0 {
      WholeNumber(a.mantissa, a.scale, b.mantissa);
    } else if b.scale > 0 {
      WholeNumber(b.mantissa, b.scale, a.mantissa);
    }
  }

  /** Parsing what was printed returns the amount. */
  lemma FormatParses(d: Decimal)
    requires d.mantissa > 0
    ensures TryParseAmount(FormatAmount(d)) == Some(Reduced(d)) && ValueOf(Reduced(d)) == ValueOf(d)
  {
    FormatIsReduced(d);
    ReducedValue(d);
    ParseText(Reduced(d));
  }

  /** Two amounts print alike exactly when they are equal. */
  lemma FormatInjective(a: Decimal, b: Decimal)
    requires a.mantissa > 0 && b.mantissa > 0
    ensures FormatAmount(a) == FormatAmount(b) <==> ValueOf(a) == ValueOf(b)
  {
    FormatParses(a);
    FormatParses(b);
    ReducedValue(a);
    ReducedValue(b);
    if ValueOf(a) == ValueOf(b) {
      ReducedUnique(Reduced(a), Reduced(b));
      FormatIsReduced(a);
      FormatIsReduced(b);
    }
  }
}
