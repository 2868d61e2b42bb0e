/** The world-clock widget's label for a city's local time: the part of the day its hour
    falls in. */
module TimeZoneWidget {
  import opened Wrappers
  import opened JsString

  datatype Period = Morning | Afternoon | Evening | Night

  /** The badge colours of the four periods. */
  function PeriodColor(p: Period): string
  {
    match p
    case Morning => "bg-yellow-100 text-yellow-800"
    case Afternoon => "bg-orange-100 text-orange-800"
    case Evening => "bg-purple-100 text-purple-800"
    case Night => "bg-blue-100 text-blue-800"
  }

  /** The first hour of each period that starts at a fixed hour of the day. */
  const MorningStart := 6
  const AfternoonStart := 12
  const EveningStart := 18
  const NightStart := 22

  /** The if-chain on the parsed hour. `None` is `NaN`, for which every comparison is
      false, so it falls through to Night. */
  function PeriodOfHour(hour: Option<int>): (p: Period)
    ensures p == Morning <==> hour.Some? && MorningStart <= hour.value < AfternoonStart
    ensures p == Afternoon <==> hour.Some? && AfternoonStart <= hour.value < EveningStart
    ensures p == Evening <==> hour.Some? && EveningStart <= hour.value < NightStart
    ensures p == Night <==> hour.None? || hour.value < MorningStart || hour.value >= NightStart
  {
    if hour.Some? && hour.value >= 6 && hour.value < 12 then Morning
    else if hour.Some? && hour.value >= 12 && hour.value < 18 then Afternoon
    else if hour.Some? && hour.value >= 18 && hour.value < 22 then Evening
    else Night
  }

  /** `time.split(':')[0]`: the text before the first ':', or all of it when there is none. */
  function HourField(time: string): (f: string)
    ensures |f| <= |time| && f == time[..|f|] && ':' !in f
    ensures |f| < |time| ==> time[|f|] == ':'
  {
    Split(time, ':')[0]
  }

  /** `getTimeOfDay`: the period of the integer before the first ':'; text that does not
      start with a number is Night. */
  function TimeOfDay(time: string): (p: Period)
    ensures var hour := ParseInt(HourField(time));
            (p == Morning <==> hour.Some? && MorningStart <= hour.value < AfternoonStart) &&
            (p == Afternoon <==> hour.Some? && AfternoonStart <= hour.value < EveningStart) &&
            (p == Evening <==> hour.Some? && EveningStart <= hour.value < NightStart) &&
            (p == Night <==> hour.None? || hour.value < MorningStart || hour.value >= NightStart)
  {
    PeriodOfHour(ParseInt(HourField(time)))
  }

  /** The position of a period among those of a day that starts at midnight. */
  function PeriodRank(p: Period): nat
  {
    match p
    case Night => 0
    case Morning => 1
    case Afternoon => 2
    case Evening => 3
  }

  /** Going through the hours of a day the label never steps back before the late-evening
      switch to Night: early Night, then Morning, Afternoon and Evening. */
  lemma PeriodsInOrder(h: int, k: int)
    requires 0 <= h <= k < NightStart
    ensures PeriodRank(PeriodOfHour(Some(h))) <= PeriodRank(PeriodOfHour(Some(k)))
  {
  }

  /** The clock text is "HH:MM" with a two-digit hour: its period is that of the number
      the two digits denote. */
  lemma {:induction false} ClockTime(time: string)
    requires |time| >= 3 && AllDigits(time[..2]) && time[2] == ':'
    ensures TimeOfDay(time) == PeriodOfHour(Some(DigitsValue(time[..2], 10)))
  {
    var hh := time[..2];
    assert ':' !in hh by {
      assert forall i :: 0 <= i < |hh| ==> IsDigit(hh[i]);
    }
    SplitAt(time, ':', 2);
    ParseIntDecimal(hh);
  }

  /** The clock text for hour `h` of the day, zero-padded to two digits and followed by
      the minutes, is labelled by the period of `h`. */
  lemma ClockHour(h: nat, minutes: string)
    requires h < 100
    ensures TimeOfDay(Decimal(h, 2) + ":" + minutes) == PeriodOfHour(Some(h))
  {
    ClockText(h, minutes);
    ClockTime(Decimal(h, 2) + ":" + minutes);
    DecimalValue(h, 2);
  }

  /** The padded hour takes the first two characters, and the colon comes right after it. */
  lemma ClockText(h: nat, minutes: string)
    requires h < 100
    ensures var time := Decimal(h, 2) + ":" + minutes;
            |time| >= 3 && time[..2] == Decimal(h, 2) && AllDigits(time[..2]) && time[2] == ':'
  {
    assert Pow10(2) == 100;
    DecimalLength(h, 2);
  }

  /** Some engines print midnight as "24:00" with `hour12: false`; it gets the same label as
      "00:00". */
  lemma MidnightEitherWay(minutes: string)
    ensures TimeOfDay("24:" + minutes) == TimeOfDay("00:" + minutes) == Night
  {
    assert "24:" + minutes == Decimal(24, 2) + ":" + minutes;
    assert "00:" + minutes == Decimal(0, 2) + ":" + minutes;
    ClockHour(24, minutes);
    ClockHour(0, minutes);
  }
}
