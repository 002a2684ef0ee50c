/** Token amounts: ethers' `parseUnits` on decimal prices, the fixed SETTLE
    mint rate, and the two places the server turns USDC into SETTLE
    (src/verify.ts:36, :133-134 and :277-278). */
module Units {
  import opened Common

  function Pow10(k: nat): (p: nat)
    ensures p >= 1
  {
    if k == 0 then 1 else 10 * Pow10(k - 1)
  }

  /** USDC has six decimals: one USDC is 10^6 atomic units. */
  const USDC_DECIMALS: nat := 6
  const USDC_SCALE: nat := 1_000_000

  /** `parseUnits('7000', 18)`: 7000 SETTLE (18 decimals) per USDC. */
  const MINT_RATE: nat := 7000 * 1_000_000_000_000_000_000

  predicate AllZeros(s: string) {
    forall i :: 0 <= i < |s| ==> s[i] == '0'
  }

  /** Index of the first '.' in s, or |s| when there is none. */
  function DotIndex(s: string): (k: nat)
    ensures k <= |s|
    ensures forall i :: 0 <= i < k ==> s[i] != '.'
    ensures k < |s| ==> s[k] == '.'
  {
    if s == [] || s[0] == '.' then 0 else 1 + DotIndex(s[1..])
  }

  /** `parseUnits(s, decimals)` as ethers v6 reads a decimal string: an
      optional '-' in front of an unsigned amount. None stands for the thrown
      error. */
  function ParseUnits(s: string, decimals: nat): (r: Option<int>)
    // no digits at all is an error
    ensures s == "" || s == "." || s == "-" ==> r.None?
    // only a leading '-' gives a negative amount
    ensures r.Some? && s[0] != '-' ==> r.value >= 0
  {
    var negative := s != [] && s[0] == '-';
    match UnsignedUnits(if negative then s[1..] else s, decimals)
    case None => None
    case Some(m) => Some(if negative then -(m as int) else m as int)
  }

  /** The unsigned part: digits, an optional '.', digits. */
  function UnsignedUnits(body: string, decimals: nat): Option<nat> {
    var dot := DotIndex(body);
    FixedValue(body[..dot], if dot < |body| then body[dot + 1..] else "", decimals)
  }

  /** The value of whole part `whole` and fraction part `frac`: at least one
      digit in all; fraction digits beyond `decimals` must be zeros; the
      result is the value scaled by 10^decimals. */
  function FixedValue(whole: string, frac: string, decimals: nat): Option<nat> {
    if !AllDigits(whole) || !AllDigits(frac) || |whole| + |frac| == 0 then None
    else if !AllZeros(frac[Min(decimals, |frac|)..]) then None
    else
      var kept := frac[..Min(decimals, |frac|)];
      Some(DigitsValue(whole) * Pow10(decimals) + DigitsValue(kept) * Pow10(decimals - |kept|))
  }

  /** A leading '-' negates the amount and fails exactly when the unsigned
      text fails. */
  lemma ParseUnitsNegated(s: string, decimals: nat)
    requires s == "" || s[0] != '-'
    ensures ParseUnits("-" + s, decimals).Some? <==> ParseUnits(s, decimals).Some?
    ensures ParseUnits("-" + s, decimals).Some? ==>
      ParseUnits("-" + s, decimals).value == -ParseUnits(s, decimals).value
  {
    ParseUnitsMinus(s, decimals);
    ParseUnitsUnsigned(s, decimals);
  }

  /** Text with a leading '-' reads as the negated amount of the rest. */
  lemma ParseUnitsMinus(s: string, decimals: nat)
    ensures ParseUnits("-" + s, decimals).Some? <==> UnsignedUnits(s, decimals).Some?
    ensures ParseUnits("-" + s, decimals).Some? ==>
      ParseUnits("-" + s, decimals).value == -(UnsignedUnits(s, decimals).value as int)
  {
    assert ("-" + s)[0] == '-' && ("-" + s)[1..] == s;
  }

  /** A price "w.f" with at most `decimals` fraction digits is w * 10^decimals
      plus f shifted to the last fraction place it names. */
  lemma ParseUnitsFixedPoint(whole: string, frac: string, decimals: nat)
    requires AllDigits(whole) && AllDigits(frac) && |frac| <= decimals
    requires whole != "" || frac != ""
    ensures ParseUnits(whole + "." + frac, decimals)
         == Some(DigitsValue(whole) * Pow10(decimals) + DigitsValue(frac) * Pow10(decimals - |frac|))
  {
    var s := whole + "." + frac;
    assert s != [] ==> s[0] != '-' by {
      if whole != "" { assert s[0] == whole[0]; } else { assert s[0] == '.'; }
    }
    DotIndexAt(whole, frac);
    assert s[..|whole|] == whole;
    assert s[|whole| + 1..] == frac;
    assert frac[..|frac|] == frac;
  }

  /** Text without a leading '-' reads as its unsigned amount. */
  lemma ParseUnitsUnsigned(s: string, decimals: nat)
    requires s == [] || s[0] != '-'
    ensures ParseUnits(s, decimals).Some? <==> UnsignedUnits(s, decimals).Some?
    ensures ParseUnits(s, decimals).Some? ==> ParseUnits(s, decimals).value == UnsignedUnits(s, decimals).value
  {
  }

  /** A price "w.f" splits at its '.' into w and f. */
  lemma UnsignedAtDot(whole: string, frac: string, decimals: nat)
    requires AllDigits(whole)
    ensures UnsignedUnits(whole + "." + frac, decimals) == FixedValue(whole, frac, decimals)
  {
    var s := whole + "." + frac;
    DotIndexAt(whole, frac);
    assert s[..|whole|] == whole;
    assert s[|whole| + 1..] == frac;
  }

  lemma NoMinusInPrice(whole: string, frac: string)
    requires AllDigits(whole)
    ensures (whole + "." + frac)[0] != '-'
  {
    if whole != "" {
      assert (whole + "." + frac)[0] == whole[0];
    } else {
      assert (whole + "." + frac)[0] == '.';
    }
  }

  /** A price with more fraction digits than `decimals` is never rounded: it
      is refused unless every extra digit is a zero, and then it is the value
      of its first `decimals` fraction digits. */
  lemma ParseUnitsExtraDigits(whole: string, frac: string, decimals: nat)
    requires AllDigits(whole) && AllDigits(frac) && |frac| > decimals
    ensures ParseUnits(whole + "." + frac, decimals)
         == if AllZeros(frac[decimals..])
            then Some(DigitsValue(whole) * Pow10(decimals) + DigitsValue(frac[..decimals]))
            else None
  {
    var s := whole + "." + frac;
    NoMinusInPrice(whole, frac);
    ParseUnitsUnsigned(s, decimals);
    UnsignedAtDot(whole, frac, decimals);
    FixedValueExtraDigits(whole, frac, decimals);
  }

  lemma FixedValueExtraDigits(whole: string, frac: string, decimals: nat)
    requires AllDigits(whole) && AllDigits(frac) && |frac| > decimals
    ensures FixedValue(whole, frac, decimals)
         == if AllZeros(frac[decimals..])
            then Some(DigitsValue(whole) * Pow10(decimals) + DigitsValue(frac[..decimals]))
            else None
  {
    assert Min(decimals, |frac|) == decimals;
    assert Pow10(decimals - |frac[..decimals]|) == 1;
  }

  /** ... which is what the price cut after its first `decimals` fraction
      digits parses to. */
  lemma ParseUnitsDropsZeros(whole: string, frac: string, decimals: nat)
    requires AllDigits(whole) && AllDigits(frac) && |frac| > decimals
    requires AllZeros(frac[decimals..]) && (whole != "" || decimals > 0)
    ensures ParseUnits(whole + "." + frac, decimals) == ParseUnits(whole + "." + frac[..decimals], decimals)
  {
    var kept := frac[..decimals];
    NoMinusInPrice(whole, frac);
    NoMinusInPrice(whole, kept);
    ParseUnitsUnsigned(whole + "." + frac, decimals);
    ParseUnitsUnsigned(whole + "." + kept, decimals);
    UnsignedAtDot(whole, frac, decimals);
    UnsignedAtDot(whole, kept, decimals);
    FixedValueDropsZeros(whole, frac, decimals);
  }

  lemma FixedValueDropsZeros(whole: string, frac: string, decimals: nat)
    requires AllDigits(whole) && AllDigits(frac) && |frac| > decimals
    requires AllZeros(frac[decimals..]) && (whole != "" || decimals > 0)
    ensures FixedValue(whole, frac, decimals) == FixedValue(whole, frac[..decimals], decimals)
  {
    var kept := frac[..decimals];
    FixedValueExtraDigits(whole, frac, decimals);
    assert kept[..decimals] == kept && kept[decimals..] == [];
    assert Pow10(decimals - |kept|) == 1;
  }

  lemma DotIndexAt(whole: string, frac: string)
    requires AllDigits(whole)
    ensures DotIndex(whole + "." + frac) == |whole|
  {
    var s := whole + "." + frac;
    assert forall i :: 0 <= i < |whole| ==> s[i] == whole[i] && IsDigit(s[i]);
    assert s[|whole|] == '.';
  }

  /** A whole number of units with no fraction part. */
  lemma ParseUnitsWhole(whole: string, decimals: nat)
    requires whole != "" && AllDigits(whole)
    ensures ParseUnits(whole, decimals) == Some(DigitsValue(whole) * Pow10(decimals))
  {
    assert whole[0] != '-';
    assert forall i :: 0 <= i < |whole| ==> IsDigit(whole[i]);
    assert whole[..|whole|] == whole;
  }

  /** The prices the routes pass to the payment handler, in atomic USDC. */
  lemma RoutePricesInAtomicUnits()
    ensures ParseUnits("0.001", USDC_DECIMALS) == Some(1000)
    ensures ParseUnits("0.01", USDC_DECIMALS) == Some(10_000)
    ensures ParseUnits("0.1", USDC_DECIMALS) == Some(100_000)
    ensures ParseUnits("1.00", USDC_DECIMALS) == Some(1_000_000)
    ensures ParseUnits("10.00", USDC_DECIMALS) == Some(10_000_000)
    ensures ParseUnits("100.00", USDC_DECIMALS) == Some(100_000_000)
  {
    Price0001();
    Price001();
    Price01();
    Price1();
    Price10();
    Price100();
  }

  lemma Price0001()
    ensures ParseUnits("0.001", USDC_DECIMALS) == Some(1000)
  {
    Pow10Values();
    DigitsValues();
    ParseUnitsFixedPoint("0", "001", 6);
    assert "0" + "." + "001" == "0.001";
  }

  lemma Price001()
    ensures ParseUnits("0.01", USDC_DECIMALS) == Some(10_000)
  {
    Pow10Values();
    DigitsValues();
    ParseUnitsFixedPoint("0", "01", 6);
    assert "0" + "." + "01" == "0.01";
  }

  lemma Price01()
    ensures ParseUnits("0.1", USDC_DECIMALS) == Some(100_000)
  {
    Pow10Values();
    DigitsValues();
    ParseUnitsFixedPoint("0", "1", 6);
    assert "0" + "." + "1" == "0.1";
  }

  lemma Price1()
    ensures ParseUnits("1.00", USDC_DECIMALS) == Some(1_000_000)
  {
    Pow10Values();
    DigitsValues();
    ParseUnitsFixedPoint("1", "00", 6);
    assert "1" + "." + "00" == "1.00";
  }

  lemma Price10()
    ensures ParseUnits("10.00", USDC_DECIMALS) == Some(10_000_000)
  {
    Pow10Values();
    DigitsValues();
    ParseUnitsFixedPoint("10", "00", 6);
    assert "10" + "." + "00" == "10.00";
  }

  lemma Price100()
    ensures ParseUnits("100.00", USDC_DECIMALS) == Some(100_000_000)
  {
    Pow10Values();
    DigitsValues();
    ParseUnitsFixedPoint("100", "00", 6);
    assert "100" + "." + "00" == "100.00";
  }

  lemma DigitsValues()
    ensures DigitsValue("0") == 0 && DigitsValue("1") == 1
    ensures DigitsValue("00") == 0 && DigitsValue("01") == 1 && DigitsValue("001") == 1
    ensures DigitsValue("10") == 10 && DigitsValue("100") == 100
  {
    assert "001"[..2] == "00";
    assert "00"[..1] == "0";
    assert "01"[..1] == "0";
    assert "10"[..1] == "1";
    assert "100"[..2] == "10";
  }

  lemma Pow10Values()
    ensures Pow10(0) == 1 && Pow10(1) == 10 && Pow10(2) == 100 && Pow10(3) == 1000
    ensures Pow10(4) == 10_000 && Pow10(5) == 100_000 && Pow10(6) == USDC_SCALE
  {
  }

  /** The mint rate constant is `parseUnits('7000', 18)`. */
  lemma MintRateIsParsed()
    ensures ParseUnits("7000", 18) == Some(MINT_RATE)
  {
    ParseUnitsWhole("7000", 18);
    DigitsOf7000();
    Pow10Of18();
  }

  lemma DigitsOf7000()
    ensures DigitsValue("7000") == 7000
  {
    assert "7000"[..3] == "700";
    assert "700"[..2] == "70";
    assert "70"[..1] == "7";
  }

  lemma Pow10Of18()
    ensures Pow10(18) == 1_000_000_000_000_000_000
  {
    Pow10Values();
    Pow10Add(6, 6);
    Pow10Add(12, 6);
  }

  lemma {:induction false} Pow10Add(a: nat, b: nat)
    ensures Pow10(a + b) == Pow10(a) * Pow10(b)
  {
    if a > 0 {
      Pow10Add(a - 1, b);
    }
  }

  /** The SETTLE amount recorded for a job that settled `settleAtomic` USDC
      units: `settle * MINT_RATE / 10^6`, integer division. */
  function MintedReward(settleAtomic: nat): (reward: nat)
    ensures reward == settleAtomic * 7000 * 1_000_000_000_000
  {
    assert MINT_RATE == 7000 * 1_000_000_000_000 * USDC_SCALE;
    assert settleAtomic * MINT_RATE == (settleAtomic * 7000 * 1_000_000_000_000) * USDC_SCALE;
    settleAtomic * MINT_RATE / USDC_SCALE
  }

  /** As written: the reward quoted in the payment requirement's description,
      `USDC_tokenValue * MINT_RATE`, with no division by the USDC scale. */
  function AdvertisedReward(usdcAtomic: int): (quote: int)
    ensures usdcAtomic >= 0 ==> quote == MintedReward(usdcAtomic) * USDC_SCALE
  {
    usdcAtomic * MINT_RATE
  }

  /** The quoted reward is 10^6 times what the same amount records: for the
      0.001 USDC price (1000 units) it quotes 7,000,000 SETTLE where the
      entry of its job records 7 SETTLE. */
  lemma AdvertisedRewardOverstates(usdcAtomic: nat)
    ensures AdvertisedReward(usdcAtomic) == MintedReward(usdcAtomic) * USDC_SCALE
    ensures usdcAtomic > 0 ==> AdvertisedReward(usdcAtomic) != MintedReward(usdcAtomic)
  {
  }

  /** Corrected quote: the same scaling the recorded amount uses. */
  function AdvertisedRewardCorrected(usdcAtomic: nat): (reward: nat)
    ensures reward * USDC_SCALE == AdvertisedReward(usdcAtomic)
  {
    usdcAtomic * MINT_RATE / USDC_SCALE
  }

  /** With the corrected quote, a payment at the 0.001 USDC price is quoted
      exactly the 7 SETTLE that the entry of its job records. */
  lemma CorrectedQuoteMatchesRecord()
    ensures ParseUnits("0.001", USDC_DECIMALS) == Some(1000)
    ensures AdvertisedRewardCorrected(1000) == MintedReward(1000) == 7 * 1_000_000_000_000_000_000
  {
    RoutePricesInAtomicUnits();
  }
}
