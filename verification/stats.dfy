/**
  The statistics the logger keeps (bblogger.py:88-198): the ordered list of
  stat names, the Vigor 130 driver's two pattern tables, the value store with
  its "Unknown" default, and `read_stats`, which searches the `show status`
  and `show adsl` responses once per pattern and overwrites the entry of every
  stat whose pattern matched.
 */
module Stats {
  import opened Wrappers
  import opened Decimal
  import opened Uptime
  import opened Pattern

  const UPTIME: string := "Uptime"
  const DS_ACTUAL: string := "DS Actual"
  const DS_ATTAINABLE: string := "DS Attainable"
  const US_ACTUAL: string := "US Actual"
  const US_ATTAINABLE: string := "US Attainable"
  const NE_SNR_MARGIN: string := "NE SNR Margin"
  const NE_CRC_COUNT: string := "NE CRC Count"
  const NE_ES_COUNT: string := "NE ES Count"
  const FE_SNR_MARGIN: string := "FE SNR Margin"
  const FE_CRC_COUNT: string := "FE CRC Count"
  const FE_ES_COUNT: string := "FE ES Count"
  const RESET_TIMES: string := "Reset Times"
  const LINK_TIMES: string := "Link Times"

  /** The report order: column order of the CSV output, line order of the dump output. */
  const ALL_STATS: seq<string> := [
    UPTIME,
    RESET_TIMES,
    LINK_TIMES,
    DS_ACTUAL,
    DS_ATTAINABLE,
    US_ACTUAL,
    US_ATTAINABLE,
    NE_SNR_MARGIN,
    NE_CRC_COUNT,
    NE_ES_COUNT,
    FE_SNR_MARGIN,
    FE_CRC_COUNT,
    FE_ES_COUNT
  ]

  /** `<heading> +: +(\d+)`, the shape of every `show adsl` pattern. */
  function LabelPattern(heading: string): seq<Token> {
    [Lit(heading), Spaces, Lit(":"), Spaces, Digits]
  }

  /** The label of the uptime line of `show status`. */
  const UPTIME_HEADING: string := "System Uptime:"

  /** `System Uptime:(\d+):(\d+)` */
  const UPTIME_PATTERN: seq<Token> := [Lit(UPTIME_HEADING), Digits, Lit(":"), Digits]

  /** One entry of a pattern table: the stat it fills and the pattern that finds it. */
  datatype Rule = Rule(stat: string, pattern: seq<Token>)

  /** The two query commands; each has its own table and its own way of building a value. */
  datatype Group = Status | Adsl

  const STATUS_STATS: seq<Rule> := [Rule(UPTIME, UPTIME_PATTERN)]

  const ADSL_STATS: seq<Rule> := [
    Rule(DS_ACTUAL, LabelPattern("DS Actual Rate")),
    Rule(DS_ATTAINABLE, LabelPattern("DS Attainable Rate")),
    Rule(US_ACTUAL, LabelPattern("US Actual Rate")),
    Rule(US_ATTAINABLE, LabelPattern("US Attainable Rate")),
    Rule(NE_SNR_MARGIN, LabelPattern("Cur SNR Margin")),
    Rule(NE_CRC_COUNT, LabelPattern("NE CRC Count")),
    Rule(NE_ES_COUNT, LabelPattern("NE ES Count")),
    Rule(FE_SNR_MARGIN, LabelPattern("Far SNR Margin")),
    Rule(FE_CRC_COUNT, LabelPattern("FE CRC Count")),
    Rule(FE_ES_COUNT, LabelPattern("FE  ES Count")),
    Rule(RESET_TIMES, LabelPattern("Xdsl Reset Times")),
    Rule(LINK_TIMES, LabelPattern("Xdsl Link  Times"))
  ]

  /** The table of a group; each of its patterns captures what that group's values are built from. */
  function Rules(g: Group): (rules: seq<Rule>)
    ensures WellFormed(g, rules)
  {
    CatalogShapes();
    match g
    case Status => STATUS_STATS
    case Adsl => ADSL_STATS
  }

  /** How many groups a pattern of the table captures. */
  function Arity(g: Group): nat {
    match g
    case Status => 2
    case Adsl => 1
  }

  /**
    What the store and its lookup hold: an uptime, a counter, or the text
    "Unknown" that a lookup of a missing stat gives.
   */
  datatype StatValue = Duration(delta: HoursDelta) | Count(n: nat) | Marker(text: string)

  /** `str(value)` */
  function Str(v: StatValue): string {
    match v
    case Duration(d) => d.ToString()
    case Count(n) => Text(n)
    case Marker(s) => s
  }

  /** `str()` of a count is its decimal text, of the Unknown marker the marker itself. */
  lemma StrMeaning(v: StatValue)
    ensures v.Count? ==> Str(v) != [] && IsDigits(Str(v)) && Value(Str(v)) == v.n && (Str(v)[0] == '0' ==> v.n == 0)
    ensures v.Marker? ==> Str(v) == v.text
    ensures v.Duration? ==> Str(v) == v.delta.ToString()
  {
  }

  const UNKNOWN: string := "Unknown"

  type Store = map<string, StatValue>

  /** `BroadBandModem.__getitem__`: the stored value, or "Unknown" for a stat never stored. */
  function Lookup(store: Store, stat: string): (v: StatValue)
    ensures stat in store ==> v == store[stat]
    ensures stat !in store ==> v == Marker(UNKNOWN)
  {
    if stat in store then store[stat] else Marker(UNKNOWN)
  }

  /**
    The list `report_stats` hands the reporter: the lookup of every stat of
    the report order, in that order.
   */
  function Record(store: Store): (r: seq<StatValue>)
    ensures |r| == |ALL_STATS|
    ensures forall i :: 0 <= i < |r| ==> r[i] == Lookup(store, ALL_STATS[i])
  {
    seq(|ALL_STATS|, i requires 0 <= i < |ALL_STATS| => Lookup(store, ALL_STATS[i]))
  }

  /** The value built from a match: `HoursDelta(hours=..., minutes=...)` or `int(...)`. */
  function Reconstruct(g: Group, groups: seq<string>): (v: StatValue)
    requires |groups| == Arity(g)
    requires forall k :: 0 <= k < |groups| ==> IsDigits(groups[k])
    ensures g == Status ==> v.Duration? && v.delta.seconds % 60 == 0
    ensures g == Status && Value(groups[1]) < 60 ==>
              v.delta.Hours() == Value(groups[0]) && v.delta.Minutes() == Value(groups[1])
    ensures g == Adsl ==> v.Count? && v.n == Value(groups[0])
  {
    match g
    case Status =>
      var h, m := Value(groups[0]), Value(groups[1]);
      var d := FromHoursMinutes(h, m);
      assert m < 60 ==> d.Hours() == h && d.Minutes() == m by {
        if m < 60 {
          HoursMinutesOf(h, m);
        }
      }
      Duration(d)
    case Adsl => Count(Value(groups[0]))
  }

  predicate WellFormed(g: Group, rules: seq<Rule>) {
    forall t :: 0 <= t < |rules| ==> Captures(rules[t].pattern) == Arity(g)
  }

  predicate DistinctStats(rules: seq<Rule>) {
    forall a, b :: 0 <= a < b < |rules| ==> rules[a].stat != rules[b].stat
  }

  /** What searching `text` with `rule` yields: the new value, or nothing on a miss. */
  function Observed(g: Group, rule: Rule, text: string): (r: Option<StatValue>)
    requires Captures(rule.pattern) == Arity(g)
    ensures r.Some? ==> !r.value.Marker?
    ensures r.None? <==> Search(rule.pattern, text).None?
  {
    match Search(rule.pattern, text)
    case None => None
    case Some(f) => Some(Reconstruct(g, f.groups))
  }

  /** One pass of the loop body: overwrite on a match, leave the store alone on a miss. */
  function Step(store: Store, g: Group, rule: Rule, text: string): (r: Store)
    requires Captures(rule.pattern) == Arity(g)
    ensures Search(rule.pattern, text).None? ==> r == store
    ensures Search(rule.pattern, text).Some? ==>
              rule.stat in r && r[rule.stat] == Reconstruct(g, Search(rule.pattern, text).value.groups)
    ensures forall stat :: stat != rule.stat ==> (stat in r <==> stat in store)
    ensures forall stat :: stat in store && stat != rule.stat ==> r[stat] == store[stat]
  {
    match Observed(g, rule, text)
    case None => store
    case Some(v) => store[rule.stat := v]
  }

  /** The store after the loop over `rules` has searched `text` once per rule, in order. */
  function Extract(store: Store, g: Group, rules: seq<Rule>, text: string): (r: Store)
    requires WellFormed(g, rules)
    ensures store.Keys <= r.Keys
    ensures forall stat :: stat in r ==> stat in store || stat in StatsOf(rules)
    decreases |rules|
  {
    if rules == [] then store
    else
      var init := rules[..|rules| - 1];
      assert forall t :: 0 <= t < |init| ==> StatsOf(init)[t] == StatsOf(rules)[t];
      assert StatsOf(rules)[|rules| - 1] == rules[|rules| - 1].stat;
      Step(Extract(store, g, init, text), g, rules[|rules| - 1], text)
  }

  /** `read_stats` on the two responses: the status table, then the adsl table. */
  function ReadAll(store: Store, status: string, adsl: string): (r: Store)
    ensures store.Keys <= r.Keys
  {
    Extract(Extract(store, Status, Rules(Status), status), Adsl, Rules(Adsl), adsl)
  }

  function Response(g: Group, status: string, adsl: string): string {
    match g
    case Status => status
    case Adsl => adsl
  }

  /** The statistics store of one modem; `read_stats` updates it in place. */
  class Vigor130Modem {
    var stats: Store

    constructor ()
      ensures stats == map[]
    {
      stats := map[];
    }

    /**
      `read_stats` once the two command responses are in: every pattern is
      searched for once and a match overwrites its stat's entry.
     */
    method ReadStats(status: string, adsl: string)
      modifies this
      ensures stats == ReadAll(old(stats), status, adsl)
    {
      ReadStatus(Rules(Status), status);
      ReadAdsl(Rules(Adsl), adsl);
    }

    /** The `show status` loop: each match stores `HoursDelta(hours=..., minutes=...)`. */
    method ReadStatus(table: seq<Rule>, status: string)
      requires WellFormed(Status, table)
      modifies this
      ensures stats == Extract(old(stats), Status, table, status)
    {
      var i := 0;
      while i < |table|
        invariant 0 <= i <= |table|
        invariant stats == Extract(old(stats), Status, table[..i], status)
      {
        var rule := table[i];
        var match_ := Search(rule.pattern, status);
        if match_.Some? {
          var groups := match_.value.groups;
          stats := stats[rule.stat := Duration(FromHoursMinutes(Value(groups[0]), Value(groups[1])))];
        }
        assert table[..i + 1][..i] == table[..i];
        i := i + 1;
      }
      assert table[..i] == table;
    }

    /** The `show adsl` loop: each match stores `int(...)` of its capture. */
    method ReadAdsl(table: seq<Rule>, adsl: string)
      requires WellFormed(Adsl, table)
      modifies this
      ensures stats == Extract(old(stats), Adsl, table, adsl)
    {
      var i := 0;
      while i < |table|
        invariant 0 <= i <= |table|
        invariant stats == Extract(old(stats), Adsl, table[..i], adsl)
      {
        var rule := table[i];
        var match_ := Search(rule.pattern, adsl);
        if match_.Some? {
          stats := stats[rule.stat := Count(Value(match_.value.groups[0]))];
        }
        assert table[..i + 1][..i] == table[..i];
        i := i + 1;
      }
      assert table[..i] == table;
    }
  }

  // ---------------------------------------------------------------------
  // The catalog

  /** Every `show adsl` pattern captures one group and, for a non-empty heading, is deterministic. */
  lemma LabelPatternShape(heading: string)
    ensures Captures(LabelPattern(heading)) == 1
    ensures heading != [] ==> Deterministic(LabelPattern(heading))
  {
    var p := LabelPattern(heading);
    assert p[4..][1..] == [];
    assert Captures(p[4..]) == 1;
    assert p[3..][1..] == p[4..];
    assert Captures(p[3..]) == 1;
    assert p[2..][1..] == p[3..];
    assert Captures(p[2..]) == 1;
    assert p[1..][1..] == p[2..];
    assert Captures(p[1..]) == 1;
  }

  lemma UptimePatternShape()
    ensures Captures(UPTIME_PATTERN) == 2
    ensures Deterministic(UPTIME_PATTERN)
  {
    var p := UPTIME_PATTERN;
    assert p[3..][1..] == [];
    assert Captures(p[3..]) == 1;
    assert p[2..][1..] == p[3..];
    assert p[1..][1..] == p[2..];
    assert Captures(p[1..]) == 2;
  }

  /** The stat names the two tables fill, in table order. */
  function StatsOf(rules: seq<Rule>): (names: seq<string>)
    ensures |names| == |rules|
    ensures forall t :: 0 <= t < |rules| ==> names[t] == rules[t].stat
  {
    seq(|rules|, t requires 0 <= t < |rules| => rules[t].stat)
  }

  /** The headings of the `show adsl` patterns, in table order. */
  const ADSL_HEADINGS: seq<string> := [
    "DS Actual Rate", "DS Attainable Rate", "US Actual Rate", "US Attainable Rate",
    "Cur SNR Margin", "NE CRC Count", "NE ES Count", "Far SNR Margin",
    "FE CRC Count", "FE  ES Count", "Xdsl Reset Times", "Xdsl Link  Times"
  ]

  lemma CatalogShapes()
    ensures forall t :: 0 <= t < |STATUS_STATS| ==> STATUS_STATS[t].pattern == UPTIME_PATTERN
    ensures |ADSL_STATS| == |ADSL_HEADINGS|
    ensures forall t :: 0 <= t < |ADSL_STATS| ==> ADSL_STATS[t].pattern == LabelPattern(ADSL_HEADINGS[t])
    ensures forall t :: 0 <= t < |ADSL_HEADINGS| ==> ADSL_HEADINGS[t] != []
    ensures Captures(UPTIME_PATTERN) == 2 && Deterministic(UPTIME_PATTERN)
    ensures forall t :: 0 <= t < |ADSL_STATS| ==> Captures(ADSL_STATS[t].pattern) == 1
  {
    UptimePatternShape();
    forall t | 0 <= t < |ADSL_STATS| ensures Captures(ADSL_STATS[t].pattern) == 1 {
      LabelPatternShape(ADSL_HEADINGS[t]);
    }
  }

  /** The stats the `show adsl` table fills, in table order. */
  const ADSL_NAMES: seq<string> := [
    DS_ACTUAL, DS_ATTAINABLE, US_ACTUAL, US_ATTAINABLE, NE_SNR_MARGIN, NE_CRC_COUNT,
    NE_ES_COUNT, FE_SNR_MARGIN, FE_CRC_COUNT, FE_ES_COUNT, RESET_TIMES, LINK_TIMES
  ]

  /** The report order lists every stat once: the uptime and the `show adsl` stats. */
  lemma NamesCover()
    ensures forall a, b :: 0 <= a < b < |ALL_STATS| ==> ALL_STATS[a] != ALL_STATS[b]
    ensures forall s :: s in ALL_STATS <==> s == UPTIME || s in ADSL_NAMES
    ensures UPTIME !in ADSL_NAMES
    ensures forall a, b :: 0 <= a < b < |ADSL_NAMES| ==> ADSL_NAMES[a] != ADSL_NAMES[b]
  {
  }

  /**
    The two tables fill exactly the stats of the report order, no stat twice
    and none in both tables.
   */
  lemma TableNames()
    ensures StatsOf(Rules(Status)) == [UPTIME]
    ensures StatsOf(Rules(Adsl)) == ADSL_NAMES
    ensures DistinctStats(Rules(Status)) && DistinctStats(Rules(Adsl))
    ensures forall s :: s in ALL_STATS <==> s in StatsOf(Rules(Status)) || s in StatsOf(Rules(Adsl))
    ensures forall s :: s in StatsOf(Rules(Status)) ==> s !in StatsOf(Rules(Adsl))
  {
    NamesCover();
    assert StatsOf(ADSL_STATS) == ADSL_NAMES;
  }

  /** Every pattern of the two tables is deterministic, so `Search` finds what `re.search` finds. */
  lemma TablesDeterministic(g: Group)
    ensures forall t :: 0 <= t < |Rules(g)| ==> Deterministic(Rules(g)[t].pattern)
  {
    CatalogShapes();
    forall t | 0 <= t < |ADSL_STATS| ensures Deterministic(ADSL_STATS[t].pattern) {
      LabelPatternShape(ADSL_HEADINGS[t]);
    }
  }

  // ---------------------------------------------------------------------
  // What one read does to the store

  /** A stat that no rule of the loop names keeps its entry, present or absent. */
  lemma {:induction false} ExtractOther(store: Store, g: Group, rules: seq<Rule>, text: string, stat: string)
    requires WellFormed(g, rules)
    requires stat !in StatsOf(rules)
    ensures (stat in Extract(store, g, rules, text)) == (stat in store)
    ensures Lookup(Extract(store, g, rules, text), stat) == Lookup(store, stat)
    decreases |rules|
  {
    if rules != [] {
      var init := rules[..|rules| - 1];
      assert forall t :: 0 <= t < |init| ==> StatsOf(init)[t] == StatsOf(rules)[t];
      ExtractOther(store, g, init, text, stat);
    }
  }

  /** The stat a rule names holds the value of that rule's match, or its old value on a miss. */
  lemma {:induction false} ExtractOwn(store: Store, g: Group, rules: seq<Rule>, text: string, t: nat)
    requires WellFormed(g, rules) && DistinctStats(rules) && t < |rules|
    ensures Lookup(Extract(store, g, rules, text), rules[t].stat) ==
              match Observed(g, rules[t], text)
              case Some(v) => v
              case None => Lookup(store, rules[t].stat)
    ensures Observed(g, rules[t], text).None? ==>
              (rules[t].stat in Extract(store, g, rules, text)) == (rules[t].stat in store)
    decreases |rules|
  {
    var init := rules[..|rules| - 1];
    if t == |rules| - 1 {
      assert rules[t].stat !in StatsOf(init);
      ExtractOther(store, g, init, text, rules[t].stat);
    } else {
      ExtractOwn(store, g, init, text, t);
    }
  }

  /**
    Overwrite and keep: after `read_stats`, the stat of rule `t` of table `g`
    holds the value built from the first match in that table's response, and
    keeps its previous value (or stays absent) when the pattern did not match.
   */
  lemma ReadAllOwn(store: Store, status: string, adsl: string, g: Group, t: nat)
    requires t < |Rules(g)|
    ensures Lookup(ReadAll(store, status, adsl), Rules(g)[t].stat) ==
              match Observed(g, Rules(g)[t], Response(g, status, adsl))
              case Some(v) => v
              case None => Lookup(store, Rules(g)[t].stat)
    ensures Observed(g, Rules(g)[t], Response(g, status, adsl)).None? ==>
              (Rules(g)[t].stat in ReadAll(store, status, adsl)) == (Rules(g)[t].stat in store)
  {
    TableNames();
    var mid := Extract(store, Status, Rules(Status), status);
    var stat := Rules(g)[t].stat;
    assert stat == StatsOf(Rules(g))[t];
    match g
    case Status =>
      ExtractOwn(store, Status, Rules(Status), status, t);
      ExtractOther(mid, Adsl, Rules(Adsl), adsl, stat);
    case Adsl =>
      ExtractOther(store, Status, Rules(Status), status, stat);
      ExtractOwn(mid, Adsl, Rules(Adsl), adsl, t);
  }

  /**
    Wherever its line sits in the `show adsl` reply, a match of adsl rule `t`
    stores `int()` of its capture under that rule's stat.
   */
  lemma AdslMatchRead(store: Store, status: string, adsl: string, t: nat, f: Found)
    requires t < |Rules(Adsl)|
    requires Search(Rules(Adsl)[t].pattern, adsl) == Some(f)
    ensures |f.groups| == 1 && IsDigits(f.groups[0])
    ensures Lookup(ReadAll(store, status, adsl), Rules(Adsl)[t].stat) == Count(Value(f.groups[0]))
  {
    ReadAllOwn(store, status, adsl, Adsl, t);
  }

  /**
    Wherever its line sits in the `show status` reply, a match of the uptime
    pattern stores the hours and minutes it captured; with minutes below 60
    they read back exactly.
   */
  lemma UptimeMatchRead(store: Store, status: string, adsl: string, f: Found)
    requires Search(UPTIME_PATTERN, status) == Some(f)
    ensures |f.groups| == 2 && IsDigits(f.groups[0]) && IsDigits(f.groups[1])
    ensures Lookup(ReadAll(store, status, adsl), UPTIME).Duration?
    ensures Lookup(ReadAll(store, status, adsl), UPTIME).delta.seconds ==
              Value(f.groups[0]) * SECONDS_PER_HOUR + Value(f.groups[1]) * SECONDS_PER_MINUTE
    ensures Value(f.groups[1]) < 60 ==>
              Lookup(ReadAll(store, status, adsl), UPTIME).delta.Hours() == Value(f.groups[0]) &&
              Lookup(ReadAll(store, status, adsl), UPTIME).delta.Minutes() == Value(f.groups[1])
  {
    assert Rules(Status)[0] == Rule(UPTIME, UPTIME_PATTERN);
    ReadAllOwn(store, status, adsl, Status, 0);
  }

  /** Nothing else changes: a stat outside both tables keeps its entry exactly. */
  lemma ReadAllOther(store: Store, status: string, adsl: string, stat: string)
    requires stat !in ALL_STATS
    ensures (stat in ReadAll(store, status, adsl)) == (stat in store)
    ensures Lookup(ReadAll(store, status, adsl), stat) == Lookup(store, stat)
  {
    TableNames();
    ExtractOther(store, Status, Rules(Status), status, stat);
    ExtractOther(Extract(store, Status, Rules(Status), status), Adsl, Rules(Adsl), adsl, stat);
  }

  /**
    On the first read of a fresh modem a stat reports "Unknown" exactly when
    its pattern found nothing in its response.
   */
  lemma FirstReadUnknown(status: string, adsl: string, g: Group, t: nat)
    requires t < |Rules(g)|
    ensures Lookup(ReadAll(map[], status, adsl), Rules(g)[t].stat) == Marker(UNKNOWN) <==>
              Observed(g, Rules(g)[t], Response(g, status, adsl)).None?
  {
    ReadAllOwn(map[], status, adsl, g, t);
  }
}
