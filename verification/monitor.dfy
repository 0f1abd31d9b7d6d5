/**
  `ConnectionStats` and the polling loop (bblogger.py:88-130, 288-299): one
  reporter, started once, then a cycle of read, report and sleep that runs
  while the clock is before the end of the logging window.

  The clock is a sequence of samples: `start` is the time taken when the
  window is computed, `clock(k)` the time read by the `k`-th test of the
  loop condition. The `k`-th cycle gets the modem's two responses
  `responses(k)` and the formatted time `timestamps(k)`.
 */
module Monitor {
  import opened Wrappers
  import opened Stats
  import opened Loggers
  import opened Sequences
  import opened Uptime

  /** The reporter `FFORMATS` selects: a dump logger or a CSV logger. */
  datatype Reporter = Dump(dump: StatsLogger) | Csv(csv: CSVStatsLogger) {
    function Target(): object {
      match this
      case Dump(l) => l
      case Csv(l) => l
    }
  }

  class ConnectionStats {
    const modem: Vigor130Modem
    const reporter: Reporter

    constructor (modem: Vigor130Modem, reporter: Reporter)
      ensures this.modem == modem && this.reporter == reporter
    {
      this.modem := modem;
      this.reporter := reporter;
    }

    /** `report_stats_start`: the reporter is started with the report order. */
    method ReportStatsStart()
      modifies reporter.Target()
      ensures reporter.Dump? ==>
                reporter.dump.fields == Some(ALL_STATS) && reporter.dump.output == old(reporter.dump.output)
      ensures reporter.Csv? ==> reporter.csv.rows == old(reporter.csv.rows) + [CsvHeader(ALL_STATS)]
    {
      match reporter
      case Dump(l) => l.Start(ALL_STATS);
      case Csv(l) => l.Start(ALL_STATS);
    }

    /**
      `report_stats`: read the modem, then hand the reporter the lookup of
      every stat in report order.
     */
    method ReportStats(status: string, adsl: string, timestamp: string)
      requires reporter.Dump? ==> reporter.dump.fields.Some?
      modifies modem, reporter.Target()
      ensures modem.stats == ReadAll(old(modem.stats), status, adsl)
      ensures reporter.Dump? ==>
                && reporter.dump.fields == old(reporter.dump.fields)
                && reporter.dump.output ==
                     old(reporter.dump.output) + DumpWrites(reporter.dump.fields.value, timestamp, Record(modem.stats))
      ensures reporter.Csv? ==>
                reporter.csv.rows == old(reporter.csv.rows) + [CsvRow(timestamp, Record(modem.stats))]
    {
      modem.ReadStats(status, adsl);
      var data := Record(modem.stats);
      match reporter
      case Dump(l) => l.Log(timestamp, data);
      case Csv(l) => l.Log(timestamp, data);
    }
  }

  /** The store after the first `n` cycles. */
  function StoreAfter(store: Store, responses: nat -> (string, string), n: nat): (r: Store)
    ensures store.Keys <= r.Keys
  {
    if n == 0 then store
    else ReadAll(StoreAfter(store, responses, n - 1), responses(n - 1).0, responses(n - 1).1)
  }

  /** What the dump logger writes in the first `n` cycles: the records of the cycles one after the other. */
  function DumpRun(store: Store, responses: nat -> (string, string), timestamps: nat -> string, n: nat): (w: seq<string>)
    ensures |w| == n * RECORD_SIZE
  {
    var f := DumpBlocks(store, responses, timestamps);
    assert forall j: nat :: |f(j)| == RECORD_SIZE;
    BlocksLength(f, RECORD_SIZE, n);
    Blocks(f, n)
  }

  /** The strings of one dump record: the `Timestamp: ` string and one line per stat of `ALL_STATS`. */
  const RECORD_SIZE: nat := 1 + |ALL_STATS|

  /** What cycle `k` of the dump logger writes: the record of the store after `k + 1` reads. */
  function DumpBlock(store: Store, responses: nat -> (string, string), timestamps: nat -> string, k: nat): (w: seq<string>)
    ensures |w| == RECORD_SIZE
  {
    DumpWrites(ALL_STATS, timestamps(k), Record(StoreAfter(store, responses, k + 1)))
  }

  /** The records of the cycles, indexed by cycle. */
  function DumpBlocks(store: Store, responses: nat -> (string, string), timestamps: nat -> string): nat -> seq<string>
  {
    (k: nat) => DumpBlock(store, responses, timestamps, k)
  }

  /** Block `k` of the dump output, `RECORD_SIZE` strings long, is what cycle `k` wrote. */
  lemma DumpRunBlock(store: Store, responses: nat -> (string, string), timestamps: nat -> string, n: nat, k: nat)
    requires k < n
    ensures (k + 1) * RECORD_SIZE <= |DumpRun(store, responses, timestamps, n)|
    ensures DumpRun(store, responses, timestamps, n)[k * RECORD_SIZE..(k + 1) * RECORD_SIZE] ==
              DumpBlock(store, responses, timestamps, k)
  {
    var f := DumpBlocks(store, responses, timestamps);
    assert forall j: nat :: |f(j)| == RECORD_SIZE;
    BlockAt(f, RECORD_SIZE, n, k);
  }

  /** Each cycle appends its record to the dump output. */
  lemma DumpRunStep(store: Store, responses: nat -> (string, string), timestamps: nat -> string, n: nat)
    ensures DumpRun(store, responses, timestamps, n + 1) ==
              DumpRun(store, responses, timestamps, n) + DumpBlock(store, responses, timestamps, n)
  {
    var f := DumpBlocks(store, responses, timestamps);
    assert Blocks(f, n + 1) == Blocks(f, n) + f(n);
  }

  /** The data rows the CSV logger writes in the first `n` cycles. */
  function CsvRun(store: Store, responses: nat -> (string, string), timestamps: nat -> string, n: nat): (rows: seq<seq<string>>)
    ensures |rows| == n
    ensures forall k :: 0 <= k < n ==> rows[k] == CsvRow(timestamps(k), Record(StoreAfter(store, responses, k + 1)))
  {
    if n == 0 then []
    else
      var prev := CsvRun(store, responses, timestamps, n - 1);
      var row := CsvRow(timestamps(n - 1), Record(StoreAfter(store, responses, n)));
      AppendOne(prev, row);
      prev + [row]
  }

  /**
    The top level: start the reporter, then `while now < endtime:
    report_stats(); sleep(sleeptime * 60)`, with `endtime` the start time
    plus `duration` hours. Returns how many cycles ran.
   */
  method Poll(cs: ConnectionStats, duration: nat, sleeptime: nat, start: int, clock: nat -> int,
              responses: nat -> (string, string), timestamps: nat -> string)
    returns (cycles: nat)
    requires duration >= 1 && sleeptime >= 1
    requires start <= clock(0)
    requires forall k: nat :: clock(k) + sleeptime * SECONDS_PER_MINUTE <= clock(k + 1)
    modifies cs.modem, cs.reporter.Target()
    ensures forall k :: 0 <= k < cycles ==> clock(k) < start + duration * SECONDS_PER_HOUR
    ensures start + duration * SECONDS_PER_HOUR <= clock(cycles)
    ensures cycles <= (duration * MINUTES_PER_HOUR + sleeptime - 1) / sleeptime
    ensures cs.modem.stats == StoreAfter(old(cs.modem.stats), responses, cycles)
    ensures cs.reporter.Dump? ==>
              && cs.reporter.dump.fields == Some(ALL_STATS)
              && cs.reporter.dump.output ==
                   old(cs.reporter.dump.output) + DumpRun(old(cs.modem.stats), responses, timestamps, cycles)
    ensures cs.reporter.Csv? ==>
              cs.reporter.csv.rows ==
                old(cs.reporter.csv.rows) + [CsvHeader(ALL_STATS)] + CsvRun(old(cs.modem.stats), responses, timestamps, cycles)
  {
    var endtime := start + duration * SECONDS_PER_HOUR;
    cs.ReportStatsStart();
    ghost var store0 := cs.modem.stats;
    ghost var output0 := if cs.reporter.Dump? then cs.reporter.dump.output else [];
    ghost var rows0 := if cs.reporter.Csv? then cs.reporter.csv.rows else [];
    cycles := 0;
    while clock(cycles) < endtime
      invariant forall k :: 0 <= k < cycles ==> clock(k) < endtime
      invariant cycles == 0 || (cycles - 1) * (sleeptime * SECONDS_PER_MINUTE) < duration * SECONDS_PER_HOUR
      invariant Progress(cs, store0, output0, rows0, responses, timestamps, cycles)
      decreases endtime - clock(cycles)
    {
      WithinWindow(clock, sleeptime * SECONDS_PER_MINUTE, start, duration * SECONDS_PER_HOUR, cycles);
      Cycle(cs, store0, output0, rows0, responses, timestamps, cycles);
      cycles := cycles + 1;
    }
    CycleBound(cycles, sleeptime, duration * MINUTES_PER_HOUR);
  }

  /** The state after `n` cycles, measured from the state at the start of the loop. */
  ghost predicate Progress(cs: ConnectionStats, store0: Store, output0: seq<string>, rows0: seq<seq<string>>,
                           responses: nat -> (string, string), timestamps: nat -> string, n: nat)
    reads cs.modem, cs.reporter.Target()
  {
    && cs.modem.stats == StoreAfter(store0, responses, n)
    && (cs.reporter.Dump? ==>
          && cs.reporter.dump.fields == Some(ALL_STATS)
          && cs.reporter.dump.output == output0 + DumpRun(store0, responses, timestamps, n))
    && (cs.reporter.Csv? ==> cs.reporter.csv.rows == rows0 + CsvRun(store0, responses, timestamps, n))
  }

  /** One pass of the loop body: `report_stats()` with the `n`-th responses and timestamp. */
  method Cycle(cs: ConnectionStats, ghost store0: Store, ghost output0: seq<string>, ghost rows0: seq<seq<string>>,
               responses: nat -> (string, string), timestamps: nat -> string, n: nat)
    requires Progress(cs, store0, output0, rows0, responses, timestamps, n)
    modifies cs.modem, cs.reporter.Target()
    ensures Progress(cs, store0, output0, rows0, responses, timestamps, n + 1)
  {
    cs.ReportStats(responses(n).0, responses(n).1, timestamps(n));
    if cs.reporter.Dump? {
      ghost var w := DumpWrites(ALL_STATS, timestamps(n), Record(cs.modem.stats));
      ghost var run := DumpRun(store0, responses, timestamps, n);
      DumpRunStep(store0, responses, timestamps, n);
      AppendAssociates(output0, run, w);
    } else {
      ghost var row := [CsvRow(timestamps(n), Record(cs.modem.stats))];
      ghost var run := CsvRun(store0, responses, timestamps, n);
      assert CsvRun(store0, responses, timestamps, n + 1) == run + row;
      AppendAssociates(rows0, run, row);
    }
  }

  /** A cycle that starts before the end of the window starts less than the window after `start`. */
  lemma WithinWindow(clock: nat -> int, step: nat, start: int, window: nat, k: nat)
    requires start <= clock(0) && clock(k) < start + window
    requires forall j: nat :: clock(j) + step <= clock(j + 1)
    ensures k * step < window
  {
    ClockAdvances(clock, step, k);
  }

  /** After `k` sleeps the clock has moved on by at least `k` sleep intervals. */
  lemma {:induction false} ClockAdvances(clock: nat -> int, step: nat, k: nat)
    requires forall j: nat :: clock(j) + step <= clock(j + 1)
    ensures clock(0) + k * step <= clock(k)
  {
    if k > 0 {
      ClockAdvances(clock, step, k - 1);
      assert k * step == (k - 1) * step + step;
    }
  }

  /**
    A run whose last cycle starts less than the window after the first runs
    at most ⌈window / interval⌉ cycles.
   */
  lemma CycleBound(cycles: nat, sleeptime: nat, windowMinutes: nat)
    requires sleeptime >= 1
    requires cycles == 0 || (cycles - 1) * (sleeptime * SECONDS_PER_MINUTE) < windowMinutes * SECONDS_PER_MINUTE
    ensures cycles <= (windowMinutes + sleeptime - 1) / sleeptime
  {
    if cycles > 0 {
      var x := (cycles - 1) * sleeptime;
      assert (cycles - 1) * (sleeptime * SECONDS_PER_MINUTE) == x * SECONDS_PER_MINUTE;
      if windowMinutes <= x {
        MulMonotone(windowMinutes, x, SECONDS_PER_MINUTE);
        assert false;
      }
      var m := windowMinutes + sleeptime - 1;
      assert cycles * sleeptime == x + sleeptime;
      var q := m / sleeptime;
      assert m == q * sleeptime + m % sleeptime;
      if q + 1 <= cycles {
        MulMonotone(q + 1, cycles, sleeptime);
        assert false;
      }
    }
  }

  /**
    With a clock that loses no time to the cycles themselves, the run is
    exactly ⌈duration · 60 / sleeptime⌉ cycles: one hour at 30-minute
    intervals is two cycles.
   */
  lemma IdealClockCycles(start: int, duration: nat, sleeptime: nat, clock: nat -> int, cycles: nat)
    requires duration >= 1 && sleeptime >= 1
    requires forall k: nat :: clock(k) == start + k * (sleeptime * SECONDS_PER_MINUTE)
    requires forall k :: 0 <= k < cycles ==> clock(k) < start + duration * SECONDS_PER_HOUR
    requires start + duration * SECONDS_PER_HOUR <= clock(cycles)
    ensures cycles == (duration * MINUTES_PER_HOUR + sleeptime - 1) / sleeptime
  {
    var n := duration * MINUTES_PER_HOUR;
    assert cycles * (sleeptime * SECONDS_PER_MINUTE) == (cycles * sleeptime) * SECONDS_PER_MINUTE;
    assert cycles * sleeptime >= n;
    if cycles > 0 {
      assert clock(cycles - 1) < start + duration * SECONDS_PER_HOUR;
      assert (cycles - 1) * (sleeptime * SECONDS_PER_MINUTE) == ((cycles - 1) * sleeptime) * SECONDS_PER_MINUTE;
    }
    CycleBound(cycles, sleeptime, n);
    var m := n + sleeptime - 1;
    var q := m / sleeptime;
    assert q * sleeptime <= m by { assert m == q * sleeptime + m % sleeptime; }
    if cycles + 1 <= q {
      MulMonotone(cycles + 1, q, sleeptime);
      assert false;
    }
  }

  lemma OneHourEveryHalfHour(start: int, clock: nat -> int, cycles: nat)
    requires forall k: nat :: clock(k) == start + k * 1800
    requires forall k :: 0 <= k < cycles ==> clock(k) < start + SECONDS_PER_HOUR
    requires start + SECONDS_PER_HOUR <= clock(cycles)
    ensures cycles == 2
  {
    IdealClockCycles(start, 1, 30, clock, cycles);
  }

  /** Whether the pattern of rule `t` of table `g` found nothing in the responses of cycle `k`. */
  predicate Missed(responses: nat -> (string, string), g: Group, t: nat, k: nat)
    requires t < |Rules(g)|
  {
    Observed(g, Rules(g)[t], Response(g, responses(k).0, responses(k).1)).None?
  }

  /**
    A stat of the tables reports "Unknown" after `n` cycles of a fresh modem
    exactly when its pattern missed in every one of them.
   */
  lemma UnknownUntilMatched(responses: nat -> (string, string), g: Group, t: nat, n: nat)
    requires t < |Rules(g)|
    ensures Lookup(StoreAfter(map[], responses, n), Rules(g)[t].stat) == Marker(UNKNOWN) <==>
              forall k :: 0 <= k < n ==> Missed(responses, g, t, k)
  {
    var unknown := (k: nat) => Lookup(StoreAfter(map[], responses, k), Rules(g)[t].stat) == Marker(UNKNOWN);
    var missed := (k: nat) => Missed(responses, g, t, k);
    forall k: nat ensures unknown(k + 1) <==> unknown(k) && missed(k) {
      UnknownStep(map[], responses, g, t, k);
    }
    assert StoreAfter(map[], responses, 0) == map[];
    Invariant(unknown, missed, n);
    assert unknown(n) == (Lookup(StoreAfter(map[], responses, n), Rules(g)[t].stat) == Marker(UNKNOWN));
    if forall k :: 0 <= k < n ==> missed(k) {
      forall k | 0 <= k < n ensures Missed(responses, g, t, k) {
        assert missed(k);
      }
    } else {
      var k :| 0 <= k < n && !missed(k);
      assert !Missed(responses, g, t, k);
    }
  }

  /** A property that holds at 0 and at `k + 1` exactly when it and `m` hold at `k` is `m` throughout. */
  lemma {:induction false} Invariant(u: nat -> bool, m: nat -> bool, n: nat)
    requires u(0)
    requires forall k: nat :: u(k + 1) <==> u(k) && m(k)
    ensures u(n) <==> forall k :: 0 <= k < n ==> m(k)
  {
    if n > 0 {
      Invariant(u, m, n - 1);
    }
  }

  /** One cycle leaves a stat "Unknown" exactly when it was and its pattern missed. */
  lemma UnknownStep(store: Store, responses: nat -> (string, string), g: Group, t: nat, n: nat)
    requires t < |Rules(g)|
    ensures Lookup(StoreAfter(store, responses, n + 1), Rules(g)[t].stat) == Marker(UNKNOWN) <==>
              Lookup(StoreAfter(store, responses, n), Rules(g)[t].stat) == Marker(UNKNOWN) && Missed(responses, g, t, n)
  {
    LastObserved(store, responses, g, t, n);
  }

  /** Each cycle overwrites a stat its pattern matched and keeps the last value otherwise. */
  lemma LastObserved(store: Store, responses: nat -> (string, string), g: Group, t: nat, n: nat)
    requires t < |Rules(g)|
    ensures Lookup(StoreAfter(store, responses, n + 1), Rules(g)[t].stat) ==
              match Observed(g, Rules(g)[t], Response(g, responses(n).0, responses(n).1))
              case Some(v) => v
              case None => Lookup(StoreAfter(store, responses, n), Rules(g)[t].stat)
  {
    ReadAllOwn(StoreAfter(store, responses, n), responses(n).0, responses(n).1, g, t);
  }
}
