/**
  The two reporters (bblogger.py:201-233). `StatsLogger` writes one record
  as a `Timestamp:` string followed by one `<field>: <value>` line per field;
  `CSVStatsLogger` writes a header row once and then one row per record. The
  output stream is the sequence of strings handed to `write`, and the CSV
  file the sequence of rows handed to `writerow`; the time of day is passed
  in as the already formatted timestamp.
 */
module Loggers {
  import opened Wrappers
  import opened Stats
  import opened Sequences

  /** `_str_data`: `str()` of every value, in order. */
  function StrData(data: seq<StatValue>): (cells: seq<string>)
    ensures |cells| == |data|
    ensures forall i :: 0 <= i < |data| ==> cells[i] == Str(data[i])
  {
    seq(|data|, i requires 0 <= i < |data| => Str(data[i]))
  }

  function TimestampText(timestamp: string): string {
    "Timestamp: " + timestamp
  }

  function DumpLine(field: string, cell: string): string {
    field + ": " + cell + "\n"
  }

  /** `"%s: %s\n" % (field, cell)`: the name, a colon and a space, the value, a line break. */
  lemma DumpLineLayout(field: string, cell: string)
    ensures |DumpLine(field, cell)| == |field| + 3 + |cell|
    ensures DumpLine(field, cell)[..|field|] == field && DumpLine(field, cell)[|field|..|field| + 2] == ": "
    ensures DumpLine(field, cell)[|field| + 2..|field| + 2 + |cell|] == cell
    ensures DumpLine(field, cell)[|field| + 2 + |cell|] == '\n'
  {
    var line := DumpLine(field, cell);
    assert line[..|field|] == field;
    assert line[|field|..|field| + 2] == ": ";
    assert line[|field| + 2..|field| + 2 + |cell|] == cell;
  }

  /** The lines of `zip(fields, cells)`: one per pair, as many as the shorter list has. */
  function DumpLines(fields: seq<string>, cells: seq<string>): (lines: seq<string>)
    ensures |lines| == if |fields| <= |cells| then |fields| else |cells|
    ensures forall k :: 0 <= k < |lines| ==> lines[k] == DumpLine(fields[k], cells[k])
  {
    if fields == [] || cells == [] then []
    else [DumpLine(fields[0], cells[0])] + DumpLines(fields[1..], cells[1..])
  }

  /** The strings one `StatsLogger.log` call writes. */
  function DumpWrites(fields: seq<string>, timestamp: string, data: seq<StatValue>): (w: seq<string>)
    ensures |w| == 1 + if |fields| <= |data| then |fields| else |data|
    ensures w[0] == "Timestamp: " + timestamp
    ensures forall k :: 0 <= k < |w| - 1 ==> w[k + 1] == DumpLine(fields[k], Str(data[k]))
  {
    [TimestampText(timestamp)] + DumpLines(fields, StrData(data))
  }

  /** `["Timestamp"] + fields` */
  function CsvHeader(fields: seq<string>): seq<string> {
    ["Timestamp"] + fields
  }

  /** `[timestamp] + _str_data(data)` */
  function CsvRow(timestamp: string, data: seq<StatValue>): seq<string> {
    [timestamp] + StrData(data)
  }

  /** The dump reporter: the fields it was started with and what it has written so far. */
  class StatsLogger {
    var fields: Option<seq<string>>
    var output: seq<string>

    constructor ()
      ensures fields == None && output == []
    {
      fields := None;
      output := [];
    }

    /** `start`: keep a copy of the field names; nothing is written. */
    method Start(fields: seq<string>)
      modifies this`fields
      ensures this.fields == Some(fields)
    {
      this.fields := Some(fields);
    }

    /** `log`: the timestamp, then one line per field that has a value. */
    method Log(timestamp: string, data: seq<StatValue>)
      requires fields.Some?
      modifies this`output
      ensures output == old(output) + DumpWrites(fields.value, timestamp, data)
    {
      var before := output;
      output := output + [TimestampText(timestamp)];
      WriteLines(fields.value, StrData(data));
      AppendAssociates(before, [TimestampText(timestamp)], DumpLines(fields.value, StrData(data)));
    }

    /** The `for field, data in zip(...)` loop of `log`. */
    method WriteLines(names: seq<string>, cells: seq<string>)
      modifies this`output
      ensures output == old(output) + DumpLines(names, cells)
    {
      var k := 0;
      while k < |names| && k < |cells|
        invariant 0 <= k <= |names| && k <= |cells|
        invariant output == old(output) + DumpLines(names[..k], cells[..k])
      {
        DumpLinesExtend(names, cells, k);
        output := output + [DumpLine(names[k], cells[k])];
        k := k + 1;
      }
      DumpLinesWhole(names, cells, k);
    }
  }

  lemma DumpLinesExtend(fields: seq<string>, cells: seq<string>, k: nat)
    requires k < |fields| && k < |cells|
    ensures DumpLines(fields[..k + 1], cells[..k + 1]) ==
              DumpLines(fields[..k], cells[..k]) + [DumpLine(fields[k], cells[k])]
  {
    var a := DumpLines(fields[..k + 1], cells[..k + 1]);
    var b := DumpLines(fields[..k], cells[..k]) + [DumpLine(fields[k], cells[k])];
    assert |a| == |b|;
    forall n | 0 <= n < |a| ensures a[n] == b[n] {
      assert fields[..k + 1][n] == fields[n] && cells[..k + 1][n] == cells[n];
    }
  }

  lemma DumpLinesWhole(fields: seq<string>, cells: seq<string>, k: nat)
    requires k <= |fields| && k <= |cells| && (k == |fields| || k == |cells|)
    ensures DumpLines(fields[..k], cells[..k]) == DumpLines(fields, cells)
  {
    var a := DumpLines(fields[..k], cells[..k]);
    var b := DumpLines(fields, cells);
    assert |a| == |b|;
    forall n | 0 <= n < |a| ensures a[n] == b[n] {
      assert fields[..k][n] == fields[n] && cells[..k][n] == cells[n];
    }
  }

  /** The CSV reporter: the rows it has written so far. */
  class CSVStatsLogger {
    var rows: seq<seq<string>>

    constructor ()
      ensures rows == []
    {
      rows := [];
    }

    /** `start`: the header row. */
    method Start(fields: seq<string>)
      modifies this
      ensures rows == old(rows) + [CsvHeader(fields)]
    {
      rows := rows + [CsvHeader(fields)];
    }

    /** `log`: one data row. */
    method Log(timestamp: string, data: seq<StatValue>)
      modifies this
      ensures rows == old(rows) + [CsvRow(timestamp, data)]
    {
      rows := rows + [CsvRow(timestamp, data)];
    }
  }

  /**
    The dump of one record lists the report order: the timestamp, then for
    each stat in turn its name and the text of its stored value (or "Unknown").
   */
  lemma DumpRecord(store: Store, timestamp: string)
    ensures |DumpWrites(ALL_STATS, timestamp, Record(store))| == 1 + |ALL_STATS|
    ensures DumpWrites(ALL_STATS, timestamp, Record(store))[0] == "Timestamp: " + timestamp
    ensures forall k :: 0 <= k < |ALL_STATS| ==>
              DumpWrites(ALL_STATS, timestamp, Record(store))[k + 1] ==
                ALL_STATS[k] + ": " + Str(Lookup(store, ALL_STATS[k])) + "\n"
  {
    var w := DumpWrites(ALL_STATS, timestamp, Record(store));
    forall k | 0 <= k < |ALL_STATS|
      ensures w[k + 1] == ALL_STATS[k] + ": " + Str(Lookup(store, ALL_STATS[k])) + "\n"
    {
      assert w[k + 1] == DumpLines(ALL_STATS, StrData(Record(store)))[k];
    }
  }

  /** The header row: "Timestamp", then the field names in order. */
  lemma CsvHeaderCells(fields: seq<string>)
    ensures |CsvHeader(fields)| == 1 + |fields| && CsvHeader(fields)[0] == "Timestamp"
    ensures forall k :: 0 <= k < |fields| ==> CsvHeader(fields)[k + 1] == fields[k]
  {
  }

  /** A data row: the timestamp, then the text of each value in order. */
  lemma CsvRowCells(timestamp: string, data: seq<StatValue>)
    ensures |CsvRow(timestamp, data)| == 1 + |data| && CsvRow(timestamp, data)[0] == timestamp
    ensures forall k :: 0 <= k < |data| ==> CsvRow(timestamp, data)[k + 1] == Str(data[k])
  {
    var cells := StrData(data);
    forall k | 0 <= k < |data| ensures CsvRow(timestamp, data)[k + 1] == Str(data[k]) {
      assert CsvRow(timestamp, data)[k + 1] == cells[k];
    }
  }

  /**
    A CSV data row lines up with the header: the same number of cells, the
    timestamp under "Timestamp" and, under each field, the text of its value.
   */
  lemma CsvAligned(fields: seq<string>, timestamp: string, data: seq<StatValue>)
    requires |data| == |fields|
    ensures |CsvHeader(fields)| == |CsvRow(timestamp, data)| == 1 + |fields|
    ensures CsvHeader(fields)[0] == "Timestamp" && CsvRow(timestamp, data)[0] == timestamp
    ensures forall k :: 0 <= k < |fields| ==>
              CsvHeader(fields)[k + 1] == fields[k] && CsvRow(timestamp, data)[k + 1] == Str(data[k])
  {
    CsvHeaderCells(fields);
    CsvRowCells(timestamp, data);
  }

  /** The row of a record has, under each stat's name, the text of that stat's stored value (or "Unknown"). */
  lemma CsvRecord(store: Store, timestamp: string)
    ensures |CsvHeader(ALL_STATS)| == |CsvRow(timestamp, Record(store))| == 1 + |ALL_STATS|
    ensures CsvHeader(ALL_STATS)[0] == "Timestamp" && CsvRow(timestamp, Record(store))[0] == timestamp
    ensures forall k :: 1 <= k < |CsvHeader(ALL_STATS)| ==>
              CsvRow(timestamp, Record(store))[k] == Str(Lookup(store, CsvHeader(ALL_STATS)[k]))
  {
    var data := Record(store);
    CsvAligned(ALL_STATS, timestamp, data);
    forall k | 1 <= k < |CsvHeader(ALL_STATS)|
      ensures CsvRow(timestamp, data)[k] == Str(Lookup(store, CsvHeader(ALL_STATS)[k]))
    {
      assert CsvHeader(ALL_STATS)[k] == ALL_STATS[k - 1];
    }
  }
}
