/**
  The population reference figures for Israel at the end of 2022: the
  national population, the number of people with health insurance, and each
  of the four health funds' (kupot holim) share of the insured.

  The source computes these in IEEE double precision; here they are exact
  reals, so the facts below hold of the intended values.
 */
module Population {

  const IsraelTotalPopulationEnd2022: real := 9662037.0
  const TotalWithHealthInsurance: real := 9420200.0

  const PercInsuredClalit: real := 0.512
  const PercInsuredMaccabi: real := 0.274
  const PercInsuredLeumit: real := 0.138
  const PercInsuredMeuhedet: real := 0.076

  const ClalitTotal2022: real := PercInsuredClalit * TotalWithHealthInsurance
  const MaccabiTotal2022: real := PercInsuredMaccabi * TotalWithHealthInsurance
  const LeumitTotal2022: real := PercInsuredLeumit * TotalWithHealthInsurance
  const MeuhedetTotal2022: real := PercInsuredMeuhedet * TotalWithHealthInsurance

  /** The health funds' names, as they appear in the tables. */
  const Clalit: string := "כללית"
  const Maccabi: string := "מכבי"
  const Leumit: string := "לאומית"
  const Meuhedet: string := "מאוחדת"

  /** Health fund name to its estimated number of insured people in 2022. */
  const KupotTotalInsured: map<string, real> := map[
    Clalit := ClalitTotal2022,
    Maccabi := MaccabiTotal2022,
    Leumit := LeumitTotal2022,
    Meuhedet := MeuhedetTotal2022
  ]

  /** The enrollment share of a health fund, when the name is one of the four. */
  function ShareOf(kupa: string): (r: real)
    requires kupa in KupotTotalInsured
    ensures KupotTotalInsured[kupa] == r * TotalWithHealthInsurance
    ensures 0.0 < r < 1.0
  {
    if kupa == Clalit then PercInsuredClalit
    else if kupa == Maccabi then PercInsuredMaccabi
    else if kupa == Leumit then PercInsuredLeumit
    else PercInsuredMeuhedet
  }

  /** The table names exactly the four health funds. */
  lemma KupotAreTheFourFunds()
    ensures KupotTotalInsured.Keys == {Clalit, Maccabi, Leumit, Meuhedet}
    ensures |KupotTotalInsured| == 4
  {
    assert Clalit != Maccabi && Clalit != Leumit && Clalit != Meuhedet;
    assert Maccabi != Leumit && Maccabi != Meuhedet && Leumit != Meuhedet;
  }

  /** In exact arithmetic the four shares make up the whole insured population. */
  lemma SharesSumToOne()
    ensures PercInsuredClalit + PercInsuredMaccabi + PercInsuredLeumit + PercInsuredMeuhedet == 1.0
  {
  }

  /** Hence the four funds' totals add up to the national insured total. */
  lemma FundTotalsSumToInsured()
    ensures ClalitTotal2022 + MaccabiTotal2022 + LeumitTotal2022 + MeuhedetTotal2022
            == TotalWithHealthInsurance
  {
    SharesSumToOne();
  }

  /** Every fund's total is a usable denominator: positive and below the national total. */
  lemma FundTotalsInRange(kupa: string)
    requires kupa in KupotTotalInsured
    ensures 0.0 < KupotTotalInsured[kupa] < TotalWithHealthInsurance
  {
    var s := ShareOf(kupa);
    assert KupotTotalInsured[kupa] == s * TotalWithHealthInsurance;
  }

  /** Insured people are a part of the population. */
  lemma InsuredWithinPopulation()
    ensures 0.0 < TotalWithHealthInsurance <= IsraelTotalPopulationEnd2022
  {
  }
}
