/** The column typer of `load_data` up to, and not including, the
    conversion to float: each numeric column's text goes through a fixed
    chain of `str.replace` calls, applied one after another. */
module Cleanup {
  import opened PyStrings

  const EmDash: char := '\U{2014}'
  const MinusSign: char := '\U{2212}'
  const NarrowNoBreakSpace: char := '\U{202F}'

  /** "EPS dil growthTTM YoY": em dash to "0", drop '%', minus sign to
      hyphen-minus, drop '+', drop ','. */
  function EpsGrowth(s: string): string {
    Replace(Replace(Replace(Replace(Replace(s, [EmDash], "0"), "%", ""), [MinusSign], "-"), "+", ""), ",", "")
  }

  /** "Market cap": drop "BUSD", drop the narrow no-break space. An ASCII
      space is kept. */
  function MarketCap(s: string): string {
    Replace(Replace(s, "BUSD", ""), [NarrowNoBreakSpace], "")
  }

  /** "Price": drop "INR", drop ','. */
  function Price(s: string): string {
    Replace(Replace(s, "INR", ""), ",", "")
  }

  /** "Change": drop '%', minus sign to hyphen-minus. */
  function Change(s: string): string {
    Replace(Replace(s, "%", ""), [MinusSign], "-")
  }

  /** "Volume", first assignment: drop a narrow no-break space followed by
      'K'. */
  function VolumeThousands(s: string): string {
    Replace(s, [NarrowNoBreakSpace, 'K'], "")
  }

  /** "Volume", second assignment: drop 'M', drop ' '. */
  function VolumeMillions(s: string): string {
    Replace(Replace(s, "M", ""), " ", "")
  }

  /** "Rel Volume" is converted as it is. */
  function RelVolume(s: string): string {
    s
  }

  /** "P/E": em dash to "0". */
  function PriceEarnings(s: string): string {
    Replace(s, [EmDash], "0")
  }

  /** "EPS dilTTM": em dash to "0", drop "USD", minus sign to hyphen-minus. */
  function EpsDiluted(s: string): string {
    Replace(Replace(Replace(s, [EmDash], "0"), "USD", ""), [MinusSign], "-")
  }

  /** "DivyieldTTM": drop '%'. */
  function DivYield(s: string): string {
    Replace(s, "%", "")
  }

  /** The EPS-growth chain ends with none of the characters it removes or
      substitutes: no later step brings an earlier one back. */
  lemma EpsGrowthClean(s: string)
    ensures var r := EpsGrowth(s);
      EmDash !in r && '%' !in r && MinusSign !in r && '+' !in r && ',' !in r
  {
    var s1 := Replace(s, [EmDash], "0");
    SubstituteRemoves(s, EmDash, '0');
    var s2 := Replace(s1, "%", "");
    DeleteChar(s1, '%');
    ReplaceKeepsAbsent(s1, "%", "", EmDash);
    var s3 := Replace(s2, [MinusSign], "-");
    SubstituteRemoves(s2, MinusSign, '-');
    ReplaceKeepsAbsent(s2, [MinusSign], "-", EmDash);
    ReplaceKeepsAbsent(s2, [MinusSign], "-", '%');
    var s4 := Replace(s3, "+", "");
    DeleteChar(s3, '+');
    ReplaceKeepsAbsent(s3, "+", "", EmDash);
    ReplaceKeepsAbsent(s3, "+", "", '%');
    ReplaceKeepsAbsent(s3, "+", "", MinusSign);
    DeleteChar(s4, ',');
    ReplaceKeepsAbsent(s4, ",", "", EmDash);
    ReplaceKeepsAbsent(s4, ",", "", '%');
    ReplaceKeepsAbsent(s4, ",", "", MinusSign);
    ReplaceKeepsAbsent(s4, ",", "", '+');
  }

  /** The Change chain leaves neither '%' nor a minus sign. */
  lemma ChangeClean(s: string)
    ensures '%' !in Change(s) && MinusSign !in Change(s)
  {
    DeleteChar(s, '%');
    var s1 := Replace(s, "%", "");
    SubstituteRemoves(s1, MinusSign, '-');
    ReplaceKeepsAbsent(s1, [MinusSign], "-", '%');
  }

  /** The Price chain leaves no ','. */
  lemma PriceClean(s: string)
    ensures ',' !in Price(s)
  {
    DeleteChar(Replace(s, "INR", ""), ',');
  }

  /** The Market cap chain leaves no narrow no-break space, and keeps every
      ',' (it has no rule for thousands separators) and every ASCII space. */
  lemma MarketCapKeepsCommas(s: string)
    ensures NarrowNoBreakSpace !in MarketCap(s)
    ensures multiset(MarketCap(s))[','] == multiset(s)[',']
    ensures multiset(MarketCap(s))[' '] == multiset(s)[' ']
  {
    var s1 := Replace(s, "BUSD", "");
    DeleteChar(s1, NarrowNoBreakSpace);
    ReplaceKeepsCount(s, "BUSD", "", ',');
    ReplaceKeepsCount(s1, [NarrowNoBreakSpace], "", ',');
    ReplaceKeepsCount(s, "BUSD", "", ' ');
    ReplaceKeepsCount(s1, [NarrowNoBreakSpace], "", ' ');
  }

  /** The Volume chain (both assignments) leaves no 'M' and no ' '. */
  lemma VolumeClean(s: string)
    ensures var r := VolumeMillions(VolumeThousands(s)); 'M' !in r && ' ' !in r
  {
    var s1 := Replace(VolumeThousands(s), "M", "");
    DeleteChar(VolumeThousands(s), 'M');
    DeleteChar(s1, ' ');
    ReplaceKeepsAbsent(s1, " ", "", 'M');
  }

  /** The P/E chain keeps the length, maps an em dash to '0' and keeps every
      other character in place. */
  lemma PriceEarningsAt(s: string)
    ensures |PriceEarnings(s)| == |s|
    ensures forall i :: 0 <= i < |s| ==> PriceEarnings(s)[i] == if s[i] == EmDash then '0' else s[i]
  {
    SubstituteChar(s, EmDash, '0');
  }

  /** The EPS-diluted chain leaves neither an em dash nor a minus sign. */
  lemma EpsDilutedClean(s: string)
    ensures EmDash !in EpsDiluted(s) && MinusSign !in EpsDiluted(s)
  {
    var s1 := Replace(s, [EmDash], "0");
    SubstituteRemoves(s, EmDash, '0');
    var s2 := Replace(s1, "USD", "");
    ReplaceKeepsAbsent(s1, "USD", "", EmDash);
    SubstituteRemoves(s2, MinusSign, '-');
    ReplaceKeepsAbsent(s2, [MinusSign], "-", EmDash);
  }

  /** The dividend-yield chain leaves no '%'. */
  lemma DivYieldClean(s: string)
    ensures '%' !in DivYield(s)
  {
    DeleteChar(s, '%');
  }

  /** The four multi-character patterns the chains delete start over only
      after their last character, so an occurrence at the end of a value is
      found where it is. */
  lemma SuffixesBorderFree()
    ensures BorderFree("BUSD") && BorderFree("INR") && BorderFree("USD") && BorderFree([NarrowNoBreakSpace, 'K'])
  {
    FirstCharBorderFree("BUSD");
    FirstCharBorderFree("INR");
    FirstCharBorderFree("USD");
    FirstCharBorderFree([NarrowNoBreakSpace, 'K']);
  }

  /** A unit suffix is cut off exactly: for a value `v` that does not
      contain it, `(v + suffix).replace(suffix, "")` is `v`. */
  lemma UnitSuffixRemoved(v: string)
    ensures !Occurs(v, "BUSD") ==> Replace(v + "BUSD", "BUSD", "") == v
    ensures !Occurs(v, "INR") ==> Replace(v + "INR", "INR", "") == v
    ensures !Occurs(v, "USD") ==> Replace(v + "USD", "USD", "") == v
    ensures !Occurs(v, [NarrowNoBreakSpace, 'K']) ==> VolumeThousands(v + [NarrowNoBreakSpace, 'K']) == v
  {
    SuffixesBorderFree();
    if !Occurs(v, "BUSD") { DeleteSuffix(v, "BUSD"); }
    if !Occurs(v, "INR") { DeleteSuffix(v, "INR"); }
    if !Occurs(v, "USD") { DeleteSuffix(v, "USD"); }
    if !Occurs(v, [NarrowNoBreakSpace, 'K']) { DeleteSuffix(v, [NarrowNoBreakSpace, 'K']); }
  }

  /** A value without a unit suffix passes the suffix step unchanged. */
  lemma UnitSuffixAbsent(v: string)
    ensures !Occurs(v, "BUSD") ==> Replace(v, "BUSD", "") == v
    ensures !Occurs(v, "INR") ==> Replace(v, "INR", "") == v
    ensures !Occurs(v, "USD") ==> Replace(v, "USD", "") == v
    ensures !Occurs(v, [NarrowNoBreakSpace, 'K']) ==> VolumeThousands(v) == v
  {
    if !Occurs(v, "BUSD") { ReplaceAbsent(v, "BUSD", ""); }
    if !Occurs(v, "INR") { ReplaceAbsent(v, "INR", ""); }
    if !Occurs(v, "USD") { ReplaceAbsent(v, "USD", ""); }
    if !Occurs(v, [NarrowNoBreakSpace, 'K']) { ReplaceAbsent(v, [NarrowNoBreakSpace, 'K'], ""); }
  }

  /** `str.replace` makes one pass: deleting "BUSD" from "BBUSDUSD" removes
      the one occurrence it finds and leaves the "BUSD" that the deletion
      forms. */
  lemma SinglePass()
    ensures Replace("BBUSDUSD", "BUSD", "") == "BUSD"
    ensures Occurs(Replace("BBUSDUSD", "BUSD", ""), "BUSD")
  {
    var s := "BBUSDUSD";
    assert s[..4] != "BUSD" by { assert s[..4][1] == 'B'; }
    assert s[1..] == "BUSDUSD" && s[1..][..4] == "BUSD" && s[1..][4..] == "USD";
    HeadAbsent("USD", "BUSD");
    ReplaceAbsent("USD", "BUSD", "");
    assert StartsWith("BUSD", "BUSD");
  }

  /** One character of a sample value, through a single-character step. */
  lemma CharStep(x: char, c: char, rep: string)
    ensures Replace([x], [c], rep) == if x == c then rep else [x]
  {
    if x == c {
      assert StartsWith([x], [c]);
    } else {
      assert [x][..1] == [x] && [x][0] != [c][0];
    }
  }

  /** A value without the character passes a single-character step
      unchanged. */
  lemma CharAbsent(s: string, c: char, rep: string)
    requires c !in s
    ensures Replace(s, [c], rep) == s
  {
    HeadAbsent(s, [c]);
    ReplaceAbsent(s, [c], rep);
  }

  /** The Market cap chain keeps the thousands separator and the ASCII
      space of "1,234.5 BUSD", so what it hands to the float conversion is
      "1,234.5 "; with a narrow no-break space before the unit it hands on
      "1,234.5". */
  lemma MarketCapSample()
    ensures MarketCap("1,234.5 BUSD") == "1,234.5 "
    ensures MarketCap("1,234.5" + [NarrowNoBreakSpace] + "BUSD") == "1,234.5"
  {
    MarketCapUnitStep();
    CharAbsent("1,234.5 ", NarrowNoBreakSpace, "");
    MarketCapNarrowUnitStep();
    MarketCapSpaceStep();
  }

  lemma MarketCapUnitStep()
    ensures Replace("1,234.5 BUSD", "BUSD", "") == "1,234.5 "
  {
    assert "1,234.5 BUSD" == "1,234.5 " + "BUSD";
    HeadAbsent("1,234.5 ", "BUSD");
    FirstCharBorderFree("BUSD");
    DeleteSuffix("1,234.5 ", "BUSD");
  }

  lemma MarketCapNarrowUnitStep()
    ensures Replace("1,234.5" + [NarrowNoBreakSpace] + "BUSD", "BUSD", "") == "1,234.5" + [NarrowNoBreakSpace]
  {
    HeadAbsent("1,234.5" + [NarrowNoBreakSpace], "BUSD");
    FirstCharBorderFree("BUSD");
    DeleteSuffix("1,234.5" + [NarrowNoBreakSpace], "BUSD");
  }

  lemma MarketCapSpaceStep()
    ensures Replace("1,234.5" + [NarrowNoBreakSpace], [NarrowNoBreakSpace], "") == "1,234.5"
  {
    ReplaceCharConcat("1,234.5", [NarrowNoBreakSpace], NarrowNoBreakSpace, "");
    CharAbsent("1,234.5", NarrowNoBreakSpace, "");
    CharStep(NarrowNoBreakSpace, NarrowNoBreakSpace, "");
  }

  /** "-3.2%" written with a minus sign becomes "-3.2". */
  lemma ChangeSample()
    ensures Change([MinusSign] + "3.2%") == "-3.2"
  {
    ChangePercentStep();
    ChangeMinusStep();
  }

  lemma ChangePercentStep()
    ensures Replace([MinusSign] + "3.2%", "%", "") == [MinusSign] + "3.2"
  {
    assert [MinusSign] + "3.2%" == ([MinusSign] + "3.2") + "%";
    ReplaceCharConcat([MinusSign] + "3.2", "%", '%', "");
    CharAbsent([MinusSign] + "3.2", '%', "");
    CharStep('%', '%', "");
  }

  lemma ChangeMinusStep()
    ensures Replace([MinusSign] + "3.2", [MinusSign], "-") == "-3.2"
  {
    ReplaceCharConcat([MinusSign], "3.2", MinusSign, "-");
    CharStep(MinusSign, MinusSign, "-");
    CharAbsent("3.2", MinusSign, "-");
  }

  /** The em dash placeholder of P/E becomes "0". */
  lemma PriceEarningsSample()
    ensures PriceEarnings([EmDash]) == "0"
  {
    CharStep(EmDash, EmDash, "0");
  }

  /** "12.3 USD" becomes "12.3 " (the float conversion ignores the trailing
      space). */
  lemma EpsDilutedSample()
    ensures EpsDiluted("12.3 USD") == "12.3 "
  {
    CharAbsent("12.3 USD", EmDash, "0");
    EpsDilutedUnitStep();
    CharAbsent("12.3 ", MinusSign, "-");
  }

  lemma EpsDilutedUnitStep()
    ensures Replace("12.3 USD", "USD", "") == "12.3 "
  {
    assert "12.3 USD" == "12.3 " + "USD";
    HeadAbsent("12.3 ", "USD");
    FirstCharBorderFree("USD");
    DeleteSuffix("12.3 ", "USD");
  }
}
