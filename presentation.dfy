/**
 * The per-record display rules of a location card: the style token chosen
 * from the wait category, and the human-readable wait-time label.
 */
module Presentation {
  import opened Wrappers
  import opened Text
  import opened Locations

  const LowToken := "bg-wait-low text-wait-low-foreground"
  const MediumToken := "bg-wait-medium text-wait-medium-foreground"
  const LongToken := "bg-wait-long text-wait-long-foreground"
  const FallbackToken := "bg-gray-500 text-white"

  /**
   * `getWaitTimeColor`: the style token for a wait category given as a
   * string. It never fails: any string other than the three category names
   * gets the fallback token, and only those strings do.
   */
  function WaitTimeColor(category: string): (token: string)
    ensures token != []
    ensures token == FallbackToken <==> category != "low" && category != "medium" && category != "long"
  {
    if category == "low" then LowToken
    else if category == "medium" then MediumToken
    else if category == "long" then LongToken
    else FallbackToken
  }

  /** Each of the three categories has its own token, distinct from the others and from the fallback. */
  lemma CategoryTokensDistinct(c: WaitCategory, d: WaitCategory)
    ensures WaitTimeColor(CategoryName(c)) != FallbackToken
    ensures WaitTimeColor(CategoryName(c)) == WaitTimeColor(CategoryName(d)) <==> c == d
  {
  }

  /**
   * `formatWaitTime`: under an hour, "<m> min"; a whole number of hours,
   * "<h>h"; otherwise "<h>h <r>m", with h = m / 60 and r = m % 60.
   */
  function FormatWaitTime(minutes: nat): (shown: string)
    ensures |shown| >= 2 && IsDigit(shown[0])
    ensures minutes < 60 <==> shown[|shown| - 1] == 'n'
    ensures minutes >= 60 && minutes % 60 == 0 <==> shown[|shown| - 1] == 'h'
  {
    if minutes < 60 then NatToString(minutes) + " min"
    else
      var hours, remaining := minutes / 60, minutes % 60;
      if remaining == 0 then NatToString(hours) + "h"
      else NatToString(hours) + "h " + NatToString(remaining) + "m"
  }

  /** The three shapes of the label and the ranges of the numbers printed in each. */
  lemma FormatWaitTimeCases(minutes: nat)
    ensures minutes < 60 ==> FormatWaitTime(minutes) == NatToString(minutes) + " min"
    ensures minutes >= 60 && minutes % 60 == 0 ==>
              minutes / 60 >= 1 && FormatWaitTime(minutes) == NatToString(minutes / 60) + "h"
    ensures minutes >= 60 && minutes % 60 != 0 ==>
              minutes / 60 >= 1 && 0 < minutes % 60 < 60 &&
              FormatWaitTime(minutes) == NatToString(minutes / 60) + "h " + NatToString(minutes % 60) + "m"
  {
  }

  /**
   * Reads a wait-time label back: the inverse of FormatWaitTime on the
   * labels it produces, None on anything that is not such a label.
   */
  function ParseWaitTime(shown: string): Option<nat> {
    var k := LeadingDigits(shown);
    if k == 0 then None else ParseUnit(DigitsValue(shown[..k]), shown[k..])
  }

  /** What follows the leading number: " min", "h", or "h " and a minute count with "m". */
  function ParseUnit(lead: nat, rest: string): Option<nat> {
    if rest == " min" then
      if lead < 60 then Some(lead) else None
    else if rest == "h" then
      if lead >= 1 then Some(60 * lead) else None
    else if |rest| >= 2 && rest[..2] == "h " then
      match ParseMinutes(rest[2..])
      case Some(mins) => if lead >= 1 && 0 < mins < 60 then Some(60 * lead + mins) else None
      case None => None
    else None
  }

  /** A minute count followed by "m". */
  function ParseMinutes(tail: string): Option<nat> {
    var k := LeadingDigits(tail);
    if k == 0 || tail[k..] != "m" then None else Some(DigitsValue(tail[..k]))
  }

  /** Every label can be read back to the wait time it was made from. */
  lemma FormatWaitTimeRoundTrip(minutes: nat)
    ensures ParseWaitTime(FormatWaitTime(minutes)) == Some(minutes)
  {
    if minutes < 60 {
      RoundTripUnderAnHour(minutes);
    } else if minutes % 60 == 0 {
      RoundTripWholeHours(minutes);
    } else {
      RoundTripHoursAndMinutes(minutes);
    }
  }

  lemma RoundTripUnderAnHour(minutes: nat)
    requires minutes < 60
    ensures ParseWaitTime(FormatWaitTime(minutes)) == Some(minutes)
  {
    var d := NatToString(minutes);
    LeadingDigitsOfRendering(d, " min");
    DigitsValueOfNatToString(minutes);
  }

  lemma RoundTripWholeHours(minutes: nat)
    requires minutes >= 60 && minutes % 60 == 0
    ensures ParseWaitTime(FormatWaitTime(minutes)) == Some(minutes)
  {
    var d := NatToString(minutes / 60);
    DigitsValueOfNatToString(minutes / 60);
    LeadingDigitsOfRendering(d, "h");
  }

  lemma RoundTripHoursAndMinutes(minutes: nat)
    requires minutes >= 60 && minutes % 60 != 0
    ensures ParseWaitTime(FormatWaitTime(minutes)) == Some(minutes)
  {
    var hours, remaining := minutes / 60, minutes % 60;
    HoursAndRemainder(minutes);
    assert FormatWaitTime(minutes) == NatToString(hours) + ("h " + NatToString(remaining) + "m");
    RoundTripHoursAndRemainder(hours, remaining);
  }

  /** The whole hours and the minutes left over make up the wait time. */
  lemma HoursAndRemainder(minutes: nat)
    requires minutes >= 60
    ensures 60 * (minutes / 60) + minutes % 60 == minutes && minutes / 60 >= 1 && minutes % 60 < 60
  {
  }

  /** The "<h>h <r>m" label, written out from its two numbers, reads back to 60 h + r. */
  lemma RoundTripHoursAndRemainder(hours: nat, remaining: nat)
    requires hours >= 1 && 0 < remaining < 60
    ensures ParseWaitTime(NatToString(hours) + ("h " + NatToString(remaining) + "m")) == Some(60 * hours + remaining)
  {
    var d, rest := NatToString(hours), "h " + NatToString(remaining) + "m";
    assert rest[0] == 'h';
    LeadingDigitsOfRendering(d, rest);
    DigitsValueOfNatToString(hours);
    ParseUnitHoursAndMinutes(hours, remaining);
  }

  /** After the hours, "h <r>m" reads back to the minutes it adds. */
  lemma ParseUnitHoursAndMinutes(lead: nat, remaining: nat)
    requires lead >= 1 && 0 < remaining < 60
    ensures ParseUnit(lead, "h " + NatToString(remaining) + "m") == Some(60 * lead + remaining)
  {
    var e := NatToString(remaining);
    var rest := "h " + e + "m";
    assert rest[0] == 'h' && |rest| >= 4;
    assert rest[..2] == "h " && rest[2..] == e + "m";
    RoundTripMinutes(remaining);
  }

  lemma RoundTripMinutes(remaining: nat)
    ensures ParseMinutes(NatToString(remaining) + "m") == Some(remaining)
  {
    LeadingDigitsOfRendering(NatToString(remaining), "m");
    DigitsValueOfNatToString(remaining);
  }

  /** Different wait times never get the same label. */
  lemma FormatWaitTimeInjective(a: nat, b: nat)
    ensures FormatWaitTime(a) == FormatWaitTime(b) <==> a == b
  {
    FormatWaitTimeRoundTrip(a);
    FormatWaitTimeRoundTrip(b);
  }

  /** The labels of the wait times the demonstration data and its examples use, under an hour. */
  lemma FormatMinutesExamples()
    ensures FormatWaitTime(0) == "0 min"
    ensures FormatWaitTime(15) == "15 min"
    ensures FormatWaitTime(45) == "45 min"
  {
  }

  /** The labels of the wait times the demonstration data and its examples use, an hour or more. */
  lemma FormatHoursExamples()
    ensures FormatWaitTime(60) == "1h"
    ensures FormatWaitTime(75) == "1h 15m"
    ensures FormatWaitTime(90) == "1h 30m"
    ensures FormatWaitTime(120) == "2h"
    ensures FormatWaitTime(125) == "2h 5m"
  {
  }
}
