/** The two clock conversions the pages share: a 24-hour hour shown on a 12-hour dial with AM/PM, and
    a 12-hour reading with its period turned back into a 24-hour hour. */
module Clock {

  /** `hour24 % 12 || 12`: the dial hour of a 24-hour hour. */
  function Hour12(hour24: nat): (h: nat)
    ensures 1 <= h <= 12
    ensures h % 12 == hour24 % 12
  {
    if hour24 % 12 == 0 then 12 else hour24 % 12
  }

  /** The period of a 24-hour hour: PM from noon on. */
  predicate IsPm(hour24: nat) {
    hour24 >= 12
  }

  /** PM adds twelve hours except to 12, and 12 AM is hour 0. */
  function Hour24(hour: nat, pm: bool): (h: nat)
    ensures h % 12 == hour % 12
    ensures 1 <= hour <= 12 ==> h < 24 && (IsPm(h) <==> pm)
  {
    if pm && hour != 12 then hour + 12
    else if !pm && hour == 12 then 0
    else hour
  }

  /** Reading the dial back gives the hour that was shown. */
  lemma HourRoundTrip(hour24: nat)
    requires hour24 < 24
    ensures Hour24(Hour12(hour24), IsPm(hour24)) == hour24
  {
    var h := Hour12(hour24);
    if IsPm(hour24) {
      assert h == 12 <==> hour24 == 12;
    } else {
      assert h == 12 <==> hour24 == 0;
    }
  }

  /** Every dial reading comes from exactly one 24-hour hour, the one Hour24 gives. */
  lemma DialRoundTrip(hour: nat, pm: bool)
    requires 1 <= hour <= 12
    ensures Hour12(Hour24(hour, pm)) == hour && IsPm(Hour24(hour, pm)) == pm
  {
    var h := Hour24(hour, pm);
    assert h % 12 == hour % 12;
  }
}
