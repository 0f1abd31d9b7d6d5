/**
  `HoursDelta` (bblogger.py:43-49): an elapsed time that prints as `H:MM`.
  The duration is held as whole seconds; the logger only ever builds one from
  an hours and a minutes capture, so it is never negative.
 */
module Uptime {
  import opened Decimal

  const SECONDS_PER_MINUTE: nat := 60
  const SECONDS_PER_HOUR: nat := 3600
  const MINUTES_PER_HOUR: nat := 60

  datatype HoursDelta = HoursDelta(seconds: nat) {

    /** `total_seconds // 3600`: the whole hours elapsed. */
    function Hours(): (h: nat)
      ensures h * SECONDS_PER_HOUR <= seconds < h * SECONDS_PER_HOUR + SECONDS_PER_HOUR
    {
      seconds / SECONDS_PER_HOUR
    }

    /** `(total_seconds % 3600) // 60`: always a minute of the hour. */
    function Minutes(): (m: nat)
      ensures m < 60
    {
      (seconds % SECONDS_PER_HOUR) / SECONDS_PER_MINUTE
    }

    /** `"%d:%02d" % (hours, minutes)` */
    function ToString(): string {
      Text(Hours()) + ":" + Pad2(Minutes())
    }
  }

  /**
    The uptime text reads back: the digits before its last colon denote the
    hours, and the two digits after it the minutes.
   */
  lemma ToStringReadsBack(d: HoursDelta)
    ensures |d.ToString()| >= 4 && d.ToString()[|d.ToString()| - 3] == ':'
    ensures IsDigits(d.ToString()[..|d.ToString()| - 3]) && Value(d.ToString()[..|d.ToString()| - 3]) == d.Hours()
    ensures IsDigits(d.ToString()[|d.ToString()| - 2..]) && Value(d.ToString()[|d.ToString()| - 2..]) == d.Minutes()
  {
    var h, m := Text(d.Hours()), Pad2(d.Minutes());
    var s := d.ToString();
    assert s == h + ":" + m;
    assert s[..|h|] == h && s[|h| + 1..] == m;
  }

  /** `HoursDelta(hours=h, minutes=m)`; minutes past 60 simply add up. */
  function FromHoursMinutes(hours: nat, minutes: nat): (d: HoursDelta)
    ensures d.seconds % SECONDS_PER_MINUTE == 0
  {
    HoursDelta(hours * SECONDS_PER_HOUR + minutes * SECONDS_PER_MINUTE)
  }

  /** A duration of h hours and m minutes, m a minute of the hour, reads back as h and m. */
  lemma HoursMinutesOf(h: nat, m: nat)
    requires m < 60
    ensures FromHoursMinutes(h, m).Hours() == h
    ensures FromHoursMinutes(h, m).Minutes() == m
  {
    var s := h * 3600 + m * 60;
    assert 0 <= m * 60 < 3600;
    assert s / 3600 == h;
    assert s % 3600 == m * 60;
    assert (m * 60) / 60 == m;
  }

  /**
    The uptime text: the decimal hours, a colon and the minutes as exactly two
    digits; minutes of 60 or more carry into the hours first.
   */
  lemma UptimeText(h: nat, m: nat)
    ensures FromHoursMinutes(h, m) == FromHoursMinutes(h + m / 60, m % 60)
    ensures FromHoursMinutes(h, m).ToString() == Text(h + m / 60) + ":" + Pad2(m % 60)
    ensures |Pad2(m % 60)| == 2
  {
    assert m == (m / 60) * 60 + m % 60;
    assert h * 3600 + m * 60 == (h + m / 60) * 3600 + (m % 60) * 60;
    HoursMinutesOf(h + m / 60, m % 60);
  }

  /** Rebuilding a duration from its printed hours and minutes drops only the leftover seconds. */
  lemma {:induction false} HoursMinutesRoundTrip(d: HoursDelta)
    ensures FromHoursMinutes(d.Hours(), d.Minutes()).seconds == d.seconds - d.seconds % 60
  {
    var s := d.seconds;
    assert s == (s / 3600) * 3600 + s % 3600;
    assert s % 3600 == ((s % 3600) / 60) * 60 + (s % 3600) % 60;
    assert (s % 3600) % 60 == s % 60;
  }

  /** Three hours and seven minutes print as `3:07`. */
  lemma ThreeOhSeven()
    ensures FromHoursMinutes(3, 7).ToString() == "3:07"
  {
    UptimeText(3, 7);
    assert Text(3) == "3" && Pad2(7) == "07";
  }

  /** Ninety minutes carry into the hours and print as `1:30`. */
  lemma NinetyMinutes()
    ensures FromHoursMinutes(0, 90).ToString() == "1:30"
  {
    UptimeText(0, 90);
    assert Text(1) == "1";
    assert Pad2(30) == Text(30) == Text(3) + [DigitChar(0)] == "30";
  }
}
