/**
 * The claim rule shared by both entry forms: the amount claimed for a day is the daily
 * rate times the tier's factor, rounded to an integer with `Math.round`.
 */
module Calculator {
  import opened Wrappers
  import opened Numbers

  /**
   * The factor of a `percentClaimed` text: 1, 0.7 and 0.3 for "100", "70" and "30";
   * 0 for "Nil" and for any other text.
   */
  function Factor(percent: string): real
  {
    if percent == "100" then 1.0
    else if percent == "70" then 0.7
    else if percent == "30" then 0.3
    else 0.0
  }

  /**
   * Every factor is a share of the daily rate between none and all of it; exactly the
   * three claiming tiers give a positive share, and only the full tier gives all of it.
   */
  lemma FactorIsShare(percent: string)
    ensures 0.0 <= Factor(percent) <= 1.0
    ensures Factor(percent) > 0.0 <==> percent == "100" || percent == "70" || percent == "30"
    ensures Factor(percent) == 1.0 <==> percent == "100"
  {
  }

  /** `Math.round(rate * factor)`: the claim, within half a rupee of the exact product. */
  function ClaimAmount(rate: real, percent: string): (amount: int)
    ensures rate * Factor(percent) - 0.5 < amount as real <= rate * Factor(percent) + 0.5
  {
    RoundHalfUp(rate * Factor(percent))
  }

  /** A "Nil" tier, and any text that is not a tier, claims nothing. */
  lemma UnknownTierClaimsNothing(rate: real, percent: string)
    requires percent != "100" && percent != "70" && percent != "30"
    ensures ClaimAmount(rate, percent) == 0
  {
  }

  /** At the full tier a whole-rupee rate is claimed exactly. */
  lemma FullTierClaimsRate(rate: int)
    ensures ClaimAmount(rate as real, "100") == rate
  {
    RoundHalfUpOfInteger(rate);
  }

  /**
   * For a non-negative rate the tiers are ordered: Nil claims 0, and 30% claims no more
   * than 70%, which claims no more than the full rate rounded.
   */
  lemma TierOrder(rate: real)
    requires rate >= 0.0
    ensures ClaimAmount(rate, "Nil") == 0
    ensures 0 <= ClaimAmount(rate, "30") <= ClaimAmount(rate, "70") <= ClaimAmount(rate, "100")
  {
    RoundHalfUpMonotone(0.0, rate * 0.3);
    RoundHalfUpMonotone(rate * 0.3, rate * 0.7);
    RoundHalfUpMonotone(rate * 0.7, rate);
  }

  /** Any tier's claim on a non-negative rate lies between 0 and the rate rounded. */
  lemma ClaimBounds(rate: real, percent: string)
    requires rate >= 0.0
    ensures 0 <= ClaimAmount(rate, percent) <= RoundHalfUp(rate)
  {
    TierOrder(rate);
  }

  /** The numerals of the two claims on a rate of 500, worked out digit by digit. */
  lemma NumeralsOf500And350()
    ensures IntToString(500) == "500" && IntToString(350) == "350"
  {
    assert NatToString(5) == "5" && NatToString(3) == "3";
    assert NatToString(50) == NatToString(5) + [DigitChar(0)];
    assert NatToString(500) == NatToString(50) + [DigitChar(0)];
    assert NatToString(35) == NatToString(3) + [DigitChar(5)];
    assert NatToString(350) == NatToString(35) + [DigitChar(0)];
  }

  /**
   * A daily rate of "500" reads as 500 and is claimed as "500" at the full tier and as
   * "350" at the 70% tier.
   */
  lemma ClaimsOn500()
    ensures ParseFloat("500") == Some(500.0)
    ensures IntToString(ClaimAmount(500.0, "100")) == "500"
    ensures IntToString(ClaimAmount(500.0, "70")) == "350"
  {
    NumeralsOf500And350();
    ParseIntToString(500);
    FullTierClaimsRate(500);
    assert Factor("70") == 0.7;
    RoundHalfUpOfInteger(350);
    assert 500.0 * 0.7 == 350.0;
  }
}
