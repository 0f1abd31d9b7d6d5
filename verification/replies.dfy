/**
  What `read_stats` makes of the lines the Vigor 130 prints
  (bblogger.py:152-198): an `H:MM` uptime after `System Uptime:` and a
  `<heading> : <number>` line of `show adsl` are read back as the duration
  and the number they show.
 */
module Replies {
  import opened Wrappers
  import opened Decimal
  import opened Uptime
  import opened Pattern
  import opened Stats
  import opened Sequences

  /**
    `text` starts with a `show adsl` line for `heading`: the heading, spaces
    up to the colon at `b`, spaces up to `c`, and the digits of `text[c..e]`,
    after which the run of digits stops.
   */
  predicate LabelLineAt(heading: string, text: string, b: nat, c: nat, e: nat) {
    && |heading| < b && b + 1 < c < e <= |text|
    && text[..|heading|] == heading
    && (forall n :: |heading| <= n < b ==> text[n] == ' ')
    && text[b] == ':'
    && (forall n :: b + 1 <= n < c ==> text[n] == ' ')
    && (forall n :: c <= n < e ==> IsDigit(text[n]))
    && RunStops(Digits, text[e..])
  }

  /** `re.search` of `heading +: +(\d+)` finds such a line and captures its digits. */
  lemma LabelLineMatch(heading: string, text: string, b: nat, c: nat, e: nat)
    requires LabelLineAt(heading, text, b, c, e)
    ensures Search(LabelPattern(heading), text) == Some(Found(0, e, [text[c..e]]))
  {
    var a := |heading|;
    assert text[..a] == text[0..a];
    assert e < |text| ==> text[e] == text[e..][0];
    RunEndIs(Spaces, text, a, b - a);
    RunEndIs(Spaces, text, b + 1, c - b - 1);
    RunEndIs(Digits, text, c, e - c);
    SliceOne(text, b);
    LabelMatchAt(heading, text, b, c, e);
    SearchAtStart(LabelPattern(heading), text);
  }

  /** The greedy match of `heading +: +(\d+)` once the runs are known. */
  lemma LabelMatchAt(heading: string, text: string, b: nat, c: nat, e: nat)
    requires |heading| < b && b + 1 < c < e <= |text|
    requires text[..|heading|] == heading && text[b..b + 1] == ":"
    requires RunEnd(Spaces, text, |heading|) == b && RunEnd(Spaces, text, b + 1) == c && RunEnd(Digits, text, c) == e
    ensures MatchAt(LabelPattern(heading), text, 0) == Some(Found(0, e, [text[c..e]]))
  {
    var p := LabelPattern(heading);
    assert p[1..] == [Spaces, Lit(":"), Spaces, Digits] && p[1..][1..] == [Lit(":"), Spaces, Digits];
    ColonMatchAt(text, b, c, e);
    SpacesHead(p[1..], text, |heading|, b);
    assert MatchAt(p[1..], text, |heading|) == Some(Found(|heading|, e, [text[c..e]]));
    assert text[0..|heading|] == text[..|heading|];
    LitHead(p, heading, text, 0);
  }

  /** The greedy match of `: +(\d+)` at the colon. */
  lemma ColonMatchAt(text: string, b: nat, c: nat, e: nat)
    requires b + 1 < c < e <= |text| && text[b..b + 1] == ":"
    requires RunEnd(Spaces, text, b + 1) == c && RunEnd(Digits, text, c) == e
    ensures MatchAt([Lit(":"), Spaces, Digits], text, b) == Some(Found(b, e, [text[c..e]]))
  {
    var p2 := [Lit(":"), Spaces, Digits];
    var p3, p4 := p2[1..], p2[1..][1..];
    assert p3 == [Spaces, Digits] && p4 == [Digits] && p4[1..] == [];
    var g := [text[c..e]];
    assert MatchAt(p4[1..], text, e) == Some(Found(e, e, []));
    DigitsHead(p4, text, c, e);
    assert g + [] == g;
    assert MatchAt(p4, text, c) == Some(Found(c, e, g));
    SpacesHead(p3, text, b + 1, c);
    assert MatchAt(p3, text, b + 1) == Some(Found(b + 1, e, g));
    LitHead(p2, ":", text, b);
  }

  /**
    `text` starts with the uptime line of `show status`: `System Uptime:`,
    the digits of `text[14..b]`, the colon at `b` and the digits of
    `text[b + 1..e]`, after which the run of digits stops.
   */
  predicate UptimeLineAt(text: string, b: nat, e: nat) {
    && |UPTIME_HEADING| < b && b + 1 < e <= |text|
    && text[..|UPTIME_HEADING|] == UPTIME_HEADING
    && (forall n :: |UPTIME_HEADING| <= n < b ==> IsDigit(text[n]))
    && text[b] == ':'
    && (forall n :: b + 1 <= n < e ==> IsDigit(text[n]))
    && RunStops(Digits, text[e..])
  }

  /** `re.search` of `System Uptime:(\d+):(\d+)` finds such a line and captures hours and minutes. */
  lemma UptimeLineMatch(text: string, b: nat, e: nat)
    requires UptimeLineAt(text, b, e)
    ensures Search(UPTIME_PATTERN, text) == Some(Found(0, e, [text[|UPTIME_HEADING|..b], text[b + 1..e]]))
  {
    var a := |UPTIME_HEADING|;
    assert text[..a] == text[0..a];
    assert e < |text| ==> text[e] == text[e..][0];
    RunEndIs(Digits, text, a, b - a);
    RunEndIs(Digits, text, b + 1, e - b - 1);
    SliceOne(text, b);
    UptimeMatchAt(text, b, e);
    SearchAtStart(UPTIME_PATTERN, text);
  }

  /** The greedy match of `System Uptime:(\d+):(\d+)` once the runs are known. */
  lemma UptimeMatchAt(text: string, b: nat, e: nat)
    requires |UPTIME_HEADING| < b && b + 1 < e <= |text|
    requires text[..|UPTIME_HEADING|] == UPTIME_HEADING && text[b..b + 1] == ":"
    requires RunEnd(Digits, text, |UPTIME_HEADING|) == b && RunEnd(Digits, text, b + 1) == e
    ensures MatchAt(UPTIME_PATTERN, text, 0) == Some(Found(0, e, [text[|UPTIME_HEADING|..b], text[b + 1..e]]))
  {
    var a := |UPTIME_HEADING|;
    var p := UPTIME_PATTERN;
    var p1, p2, p3 := p[1..], p[1..][1..], p[1..][1..][1..];
    assert p1 == [Digits, Lit(":"), Digits] && p2 == [Lit(":"), Digits] && p3 == [Digits] && p3[1..] == [];
    var m := [text[b + 1..e]];
    assert MatchAt(p3[1..], text, e) == Some(Found(e, e, []));
    DigitsHead(p3, text, b + 1, e);
    assert m + [] == m;
    assert MatchAt(p3, text, b + 1) == Some(Found(b + 1, e, m));
    LitHead(p2, ":", text, b);
    assert MatchAt(p2, text, b) == Some(Found(b, e, m));
    DigitsHead(p1, text, a, b);
    assert [text[a..b]] + m == [text[a..b], text[b + 1..e]];
    assert MatchAt(p1, text, a) == Some(Found(a, e, [text[a..b], text[b + 1..e]]));
    assert text[0..a] == text[..a];
    LitHead(p, UPTIME_HEADING, text, 0);
  }

  lemma AdslRule(t: nat)
    requires t < |ADSL_HEADINGS|
    ensures t < |Rules(Adsl)| && Rules(Adsl)[t] == Rule(ADSL_NAMES[t], LabelPattern(ADSL_HEADINGS[t]))
  {
    CatalogShapes();
    TableNames();
    assert Rules(Adsl)[t].stat == StatsOf(Rules(Adsl))[t];
  }

  lemma UptimeRule()
    ensures |Rules(Status)| == 1 && Rules(Status)[0] == Rule(UPTIME, UPTIME_PATTERN)
  {
  }

  /**
    A `show adsl` response that starts with the line of heading `t` sets that
    heading's stat to the number its digits denote.
   */
  lemma AdslLineRead(store: Store, status: string, t: nat, adsl: string, b: nat, c: nat, e: nat)
    requires t < |ADSL_HEADINGS| && LabelLineAt(ADSL_HEADINGS[t], adsl, b, c, e)
    ensures Lookup(ReadAll(store, status, adsl), ADSL_NAMES[t]) == Count(Value(adsl[c..e]))
  {
    AdslRule(t);
    LabelLineMatch(ADSL_HEADINGS[t], adsl, b, c, e);
    ReadAllOwn(store, status, adsl, Adsl, t);
  }

  /**
    Printing an uptime and reading it back: a `show status` response that
    starts with `System Uptime:` and the `H:MM` text of a duration stores that
    duration, less its leftover seconds.
   */
  lemma UptimeLineRead(store: Store, d: HoursDelta, rest: string, adsl: string)
    requires RunStops(Digits, rest)
    ensures Lookup(ReadAll(store, UPTIME_HEADING + d.ToString() + rest, adsl), UPTIME) ==
              Duration(HoursDelta(d.seconds - d.seconds % 60))
  {
    var status := UPTIME_HEADING + d.ToString() + rest;
    var b, e := UptimeShown(d, rest);
    UptimeLineMatch(status, b, e);
    var f := Search(UPTIME_PATTERN, status).value;
    UptimeMatchRead(store, status, adsl, f);
    HoursMinutesRoundTrip(d);
  }

  /** Where the hours and the minutes of a printed uptime sit in the status line. */
  lemma UptimeShown(d: HoursDelta, rest: string) returns (b: nat, e: nat)
    requires RunStops(Digits, rest)
    ensures UptimeLineAt(UPTIME_HEADING + d.ToString() + rest, b, e)
    ensures (UPTIME_HEADING + d.ToString() + rest)[|UPTIME_HEADING|..b] == Text(d.Hours())
    ensures (UPTIME_HEADING + d.ToString() + rest)[b + 1..e] == Pad2(d.Minutes())
  {
    b, e := UptimeFieldsAt(Text(d.Hours()), Pad2(d.Minutes()), rest);
  }

  /** `System Uptime:`, a digit run, a colon and a digit run, then text that stops the run. */
  lemma UptimeFieldsAt(hours: string, minutes: string, rest: string) returns (b: nat, e: nat)
    requires hours != [] && IsDigits(hours) && minutes != [] && IsDigits(minutes)
    requires RunStops(Digits, rest)
    ensures UptimeLineAt(UPTIME_HEADING + (hours + ":" + minutes) + rest, b, e)
    ensures (UPTIME_HEADING + (hours + ":" + minutes) + rest)[|UPTIME_HEADING|..b] == hours
    ensures (UPTIME_HEADING + (hours + ":" + minutes) + rest)[b + 1..e] == minutes
  {
    var shown := hours + ":" + minutes;
    var status := UPTIME_HEADING + shown + rest;
    var a := |UPTIME_HEADING|;
    b := a + |hours|;
    e := b + 1 + |minutes|;
    assert status[..a] == UPTIME_HEADING && status[e..] == rest && status[a..a + |shown|] == shown by {
      Pieces(UPTIME_HEADING, shown, rest);
    }
    assert status[a..b] == hours && status[b + 1..e] == minutes && status[b] == ':' by {
      Pieces(hours, ":", minutes);
      assert shown[..|hours|] == hours && shown[|hours| + 1..] == minutes;
      assert status[b] == status[a..a + |shown|][|hours|];
    }
    assert forall n :: a <= n < b ==> IsDigit(status[n]) by {
      forall n | a <= n < b ensures IsDigit(status[n]) {
        assert status[n] == status[a..b][n - a];
      }
    }
    assert forall n :: b + 1 <= n < e ==> IsDigit(status[n]) by {
      forall n | b + 1 <= n < e ensures IsDigit(status[n]) {
        assert status[n] == status[b + 1..e][n - b - 1];
      }
    }
  }
}
