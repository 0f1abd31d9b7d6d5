# Broadband modem stats logger: a Dafny model

`bblogger.py` polls a DrayTek Vigor 130 modem over telnet, picks connection
statistics (uptime, line rates, SNR margins, CRC and errored-second counters,
reset and link counts) out of the text of its `show status` and `show adsl`
replies with regular expressions, keeps them in a store keyed by stat name,
and writes one record per poll, either as a `Timestamp:` block of
`<stat>: <value>` lines or as CSV rows, until a logging window of whole hours
has passed.

The model covers that pipeline with the telnet session, the clock and the
output streams replaced by values:

- `Decimal`: `int()` on a digit run, and `%d` / `%02d` on a non-negative
  integer.
- `Uptime`: `HoursDelta` as a whole number of seconds, and its `H:MM` text.
- `Pattern`: the three pieces the driver's regular expressions are made of:
  literal text, ` +` and `(\d+)`. The greedy matcher `MatchAt` and the
  leftmost search `Search` stand in for `re.search`. Both are proved against a
  declarative reading of the pattern, `Accepts`.
- `Stats`:
  - the stat names and the `ALL_STATS` report order;
  - the two pattern tables, with the headings exactly as written (including
    the double spaces in `FE  ES Count` and `Xdsl Link  Times`);
  - the store with its `"Unknown"` default;
  - the `Vigor130Modem` class, whose `ReadStats` runs the two loops of
    `read_stats` over the store in place;
  - the spec function `ReadAll`, which those loops are proved against.
- `Replies`: what `read_stats` makes of the lines the modem prints. A printed
  number comes back as that number. A printed uptime comes back as that
  duration, without its leftover seconds.
- `Loggers`: the two reporter classes. The dump output is the sequence of
  strings handed to `write`. The CSV file is the sequence of rows handed to
  `writerow`.
- `Monitor`:
  - the `ConnectionStats` class;
  - the `Reporter` datatype that stands for the logger class `FFORMATS`
    selects;
  - the top-level `while now < endtime` loop, driven by an abstract clock.
- `Sequences` and `Wrappers`: a few facts about concatenation and slices, runs of equal-length blocks, and `Option`.

The responses of the modem are inputs: the `k`-th poll sees `responses(k)`
(the `show status` and `show adsl` texts) and `timestamps(k)` (the formatted
time). The clock is a function from the number of loop tests made so far to
the time that test reads. `start` is the reading taken when `endtime` is
computed.

Details of `bblogger.py` that the model keeps:

- The dump reporter writes `Timestamp: <time>` with no line break after it,
  so the first stat line follows on the same line.
- The loop re-reads the clock at every test of `now < endtime`, but it sleeps
  a flat `sleeptime * 60` seconds, with no allowance for the time a poll
  takes.
- `bblogger.py` has no counter sign correction, fixed-point values or
  per-day output rotation.

## Model

| member | source | states |
|---|---|---|
| Decimal.Text | bblogger.py:49 | `%d` of a non-negative integer is a non-empty digit string that reads back as the integer, with no leading zero, one digit exactly below 10 |
| Decimal.ValueLeadingZero | bblogger.py:185-186 | `int()` of a digit run (`Value`) ignores a leading zero, so the `07` of an uptime reads as 7; with `Decimal.Text` it pins `Value` as the inverse of `%d` |
| Decimal.Pad2 | bblogger.py:49 | `%02d` is a digit string of at least two characters that reads back as the integer, exactly two below 100, and the plain `%d` from 10 up |
| Uptime.HoursDelta.Hours | bblogger.py:47 | `total_seconds // 3600` is the whole number of hours: h·3600 ≤ seconds < (h + 1)·3600 |
| Uptime.ToStringReadsBack | bblogger.py:45-49 | `__str__` (`HoursDelta.ToString`): the digits before the last colon read back as the hours, and the exactly two digits after it as the minutes |
| Uptime.HoursDelta.Minutes | bblogger.py:48 | the minutes field of a duration is always below 60 |
| Uptime.FromHoursMinutes | bblogger.py:185-186 | a duration built from hours and minutes is a whole number of minutes |
| Uptime.HoursMinutesOf | bblogger.py:45-49 | h hours and m < 60 minutes read back as hours h and minutes m |
| Uptime.UptimeText | bblogger.py:45-49 | the uptime text is the decimal hours, a colon and the minutes as exactly two digits; minutes of 60 or more carry into the hours first |
| Uptime.HoursMinutesRoundTrip | bblogger.py:43-49 | rebuilding a duration from its printed hours and minutes loses only the seconds below a whole minute |
| Uptime.ThreeOhSeven | bblogger.py:45-49 | 3 h 7 min prints as `3:07` |
| Uptime.NinetyMinutes | bblogger.py:45-49 | 90 min carry into the hours and print as `1:30` |
| Pattern.RunEnd | bblogger.py:156-167 | ` +` and `\d+` take the longest run of their characters |
| Pattern.MatchAt | bblogger.py:153-167 | a match at position i starts at i, ends inside the text, and has one non-empty digit capture per `(\d+)` |
| Pattern.Search | bblogger.py:182 | `re.search` returns the match at the leftmost position that has one, and nothing only when no position matches |
| Pattern.SearchFrom | bblogger.py:192 | the scan from a position finds the first matching position at or after it |
| Pattern.MatchAtSound | bblogger.py:153-167 | every greedy match is an instance of the pattern, with the captures it reports |
| Pattern.MatchAtMaximal | bblogger.py:156-167 | a match that ends in a digit run stops only where the digits stop, so a number is never cut short |
| Pattern.MatchAtComplete | bblogger.py:153-167 | for the driver's patterns, wherever an instance starts the greedy matcher succeeds |
| Pattern.SearchIff | bblogger.py:182 | for the driver's patterns, the search misses exactly when no stretch of the text is an instance, and otherwise reports one |
| Pattern.LitHead | bblogger.py:153-167 | proof step: a pattern whose literal head is present at `i` matches there as its tail matches after the literal, with the tail's groups |
| Pattern.SpacesHead | bblogger.py:153-167 | proof step: a pattern headed by ` +` matches as its tail matches after the whole run of spaces, with the tail's groups |
| Pattern.DigitsHead | bblogger.py:153-167 | proof step: a pattern headed by `(\d+)` matches as its tail matches after the whole run of digits, with the run as its first group |
| Pattern.SearchAtStart | bblogger.py:182 | proof step: a match at the start of the text is what the search returns |
| Stats.Rules | bblogger.py:152-168 | each status pattern captures hours and minutes, each adsl pattern one number |
| Stats.Lookup | bblogger.py:146-147 | `__getitem__`: the stored value, or `"Unknown"` for a stat never stored |
| Stats.Record | bblogger.py:127-130 | the list handed to the reporter has one entry per stat of `ALL_STATS`, entry i being the lookup of `ALL_STATS[i]` |
| Stats.StrMeaning | bblogger.py:210 | `str()` (`Stats.Str`) of a count is its decimal text, which reads back as the count; of the Unknown marker, the marker; of a duration, its `H:MM` text |
| Stats.Reconstruct | bblogger.py:183-194 | a status match builds a duration in whole minutes whose hours and minutes are `int()` of the two captures (when the minutes are below 60); an adsl match builds the count `int()` of its capture |
| Stats.Observed | bblogger.py:182-194 | a match never yields the `"Unknown"` text, and there is a value exactly when the search matched |
| Stats.Step | bblogger.py:182-188 | one pass of the loop body: on a miss the store is unchanged; on a match the rule's stat holds the value built from the captures; every other stat keeps its entry or absence |
| Stats.Extract | bblogger.py:181-196 | a loop over a table never removes a stat, and adds only stats the table names (entry by entry: `Stats.ExtractOwn`, `Stats.ExtractOther`) |
| Stats.ReadAll | bblogger.py:176-198 | `read_stats` never removes a stat (entry by entry: `Stats.ReadAllOwn`, `Stats.ReadAllOther`) |
| Stats.StatsOf | bblogger.py:152-168 | the stat names a table fills, in table order |
| Stats.Vigor130Modem.constructor | bblogger.py:139 | a new modem has an empty store |
| Stats.Vigor130Modem.ReadStats | bblogger.py:176-198 | the two loops of `read_stats` leave the store that `ReadAll` describes |
| Stats.Vigor130Modem.ReadStatus | bblogger.py:181-188 | the `show status` loop leaves the store `Extract` describes: each matched uptime overwritten, the rest kept |
| Stats.Vigor130Modem.ReadAdsl | bblogger.py:191-196 | the `show adsl` loop leaves the store `Extract` describes: each matched count overwritten, the rest kept |
| Stats.LabelPatternShape | bblogger.py:156-167 | every `<heading> +: +(\d+)` pattern captures one group and, for a non-empty heading, is `Deterministic`: its runs before the last are forced, so the greedy match is the one `re.search` returns |
| Stats.UptimePatternShape | bblogger.py:153 | the uptime pattern captures two groups and is `Deterministic`: its runs before the last are forced, so the greedy match is the one `re.search` returns |
| Stats.CatalogShapes | bblogger.py:152-168 | the status table holds the uptime pattern and the adsl table one heading pattern per entry, with these headings |
| Stats.NamesCover | bblogger.py:104-118 | `ALL_STATS` lists every stat once: the uptime and the twelve adsl stats |
| Stats.TableNames | bblogger.py:152-168 | the two tables fill exactly the stats of `ALL_STATS`, none twice and none in both |
| Stats.TablesDeterministic | bblogger.py:152-168 | every pattern of both tables is `Deterministic`, so `Search` finds where `re.search` finds and, with `MatchAtMaximal`, the same greedy captures |
| Stats.ExtractOther | bblogger.py:181-196 | a loop over a table leaves every stat the table does not name exactly as it was |
| Stats.ExtractOwn | bblogger.py:181-196 | after a loop over a table, a stat of the table holds the value of its match, or its old entry (present or absent) on a miss |
| Stats.ReadAllOwn | bblogger.py:176-198 | overwrite and keep: after `read_stats` a stat of either table holds the value built from the first match in its response, and keeps its old entry when its pattern missed |
| Stats.ReadAllOther | bblogger.py:176-198 | nothing else changes: a stat outside both tables keeps its entry |
| Stats.AdslMatchRead | bblogger.py:190-194 | wherever a heading's line sits in the `show adsl` reply, a match stores `int()` of its capture under that heading's stat |
| Stats.UptimeMatchRead | bblogger.py:179-186 | wherever the uptime line sits in the `show status` reply, a match stores hours·3600 + minutes·60 seconds of the captures, which read back as those hours and minutes when the minutes are below 60 |
| Stats.FirstReadUnknown | bblogger.py:146-196 | on the first read of a fresh modem a stat shows `"Unknown"` exactly when its pattern missed |
| Replies.LabelLineMatch | bblogger.py:156-167 | the search of `<heading> +: +(\d+)` over text that opens with such a line captures its digits |
| Replies.LabelMatchAt | bblogger.py:156-167 | proof step: where the pieces of a heading pattern fall once its runs are known |
| Replies.ColonMatchAt | bblogger.py:156-167 | proof step: where the pieces of `: +(\d+)` fall once its runs are known |
| Replies.UptimeLineMatch | bblogger.py:153 | the search of the uptime pattern over text that opens with an uptime line captures hours and minutes |
| Replies.UptimeMatchAt | bblogger.py:153 | proof step: where the pieces of the uptime pattern fall once its runs are known |
| Replies.AdslRule | bblogger.py:155-168 | proof step: adsl rule t fills stat t of the adsl names with the pattern of heading t |
| Replies.UptimeRule | bblogger.py:152-154 | proof step: the status table is the one uptime rule |
| Replies.AdslLineRead | bblogger.py:190-194 | a `show adsl` reply opening with a heading's line sets that heading's stat to the number its digits denote |
| Replies.UptimeLineRead | bblogger.py:179-186 | printing an uptime after `System Uptime:` and reading it back gives that duration without its leftover seconds |
| Loggers.StrData | bblogger.py:209-210 | `_str_data` is `str` of every value, in order |
| Loggers.DumpLineLayout | bblogger.py:218 | `"%s: %s\n"` (`DumpLine`) is the field name, `: `, the value text and a line break, in that order |
| Loggers.DumpWrites | bblogger.py:215-218 | one `log` call writes the `Timestamp: ` string and then, for each zipped pair, the line of that field and the `str` of that value |
| Loggers.DumpLines | bblogger.py:217-218 | `zip` gives one `<field>: <value>\n` line per pair, as many as the shorter list has |
| Loggers.StatsLogger.constructor | bblogger.py:203-204 | a new dump logger has no fields and has written nothing |
| Loggers.StatsLogger.Start | bblogger.py:206-207 | `start` keeps the field names and writes nothing |
| Loggers.StatsLogger.Log | bblogger.py:215-219 | `log` appends the timestamp string and then the zipped field lines to the output |
| Loggers.StatsLogger.WriteLines | bblogger.py:217-218 | the `zip` loop appends one `<field>: <value>\n` line per pair, in order |
| Loggers.CSVStatsLogger.constructor | bblogger.py:224-226 | a new CSV logger has written no rows |
| Loggers.CSVStatsLogger.Start | bblogger.py:228-229 | `start` appends the header `["Timestamp"] + fields` |
| Loggers.CSVStatsLogger.Log | bblogger.py:231-233 | `log` appends `[timestamp] + _str_data(data)` |
| Loggers.DumpRecord | bblogger.py:215-219 | a dump record is the timestamp string, then one line per stat of `ALL_STATS` in order, with its looked-up text |
| Loggers.CsvHeaderCells | bblogger.py:228-229 | the header row (`CsvHeader`) is `Timestamp` followed by the field names in order |
| Loggers.CsvRowCells | bblogger.py:231-232 | a data row (`CsvRow`) is the timestamp followed by the text of each value in order |
| Loggers.CsvAligned | bblogger.py:228-232 | for equally long fields and data, header and row have the same length and line up cell by cell |
| Loggers.CsvRecord | bblogger.py:228-232 | a CSV data row has as many cells as the header, with the timestamp under `Timestamp` and each stat's looked-up text under its name |
| Monitor.ConnectionStats.constructor | bblogger.py:120-122 | a monitor keeps its modem and its reporter |
| Monitor.ConnectionStats.ReportStatsStart | bblogger.py:124-125 | the reporter is started with `ALL_STATS` |
| Monitor.ConnectionStats.ReportStats | bblogger.py:127-130 | one report: the modem is read, then the reporter logs the record of the new store |
| Monitor.Poll | bblogger.py:288-299 | the loop runs while the clock is before `start + duration` hours and stops; it runs at most ⌈duration·60 / sleeptime⌉ cycles; the store and the output are what that many cycles produce |
| Monitor.StoreAfter | bblogger.py:297-299 | the store after n cycles never loses a stat the start store had |
| Monitor.DumpRun | bblogger.py:297-299 | n cycles of the dump reporter write n records of `RECORD_SIZE` (1 + 13) strings each |
| Monitor.DumpBlock | bblogger.py:215-218 | the record of one cycle is `RECORD_SIZE` strings: the `Timestamp: ` string and one line per stat of `ALL_STATS` |
| Monitor.DumpRunBlock | bblogger.py:297-299 | block k of the dump output, strings k·`RECORD_SIZE` to (k+1)·`RECORD_SIZE`, is exactly the record that cycle k wrote for the store after k + 1 reads |
| Monitor.DumpRunStep | bblogger.py:297-299 | proof step: each cycle appends its own record to the dump output |
| Monitor.CsvRun | bblogger.py:297-299 | n cycles of the CSV reporter write n rows, row k being the timestamp of cycle k and the record of the store after k + 1 reads |
| Monitor.Cycle | bblogger.py:297-299 | one pass of the loop body takes the store and output from n cycles to n + 1 |
| Monitor.WithinWindow | bblogger.py:297 | a cycle that starts before `endtime` starts less than the window after `start` |
| Monitor.ClockAdvances | bblogger.py:297-299 | after k sleeps the clock has moved on by at least k intervals |
| Monitor.CycleBound | bblogger.py:288-299 | cycles whose last start lies inside the window number at most ⌈window / interval⌉ |
| Monitor.IdealClockCycles | bblogger.py:288-299 | with a clock that loses no time to the cycles, the loop runs exactly ⌈duration·60 / sleeptime⌉ cycles |
| Monitor.OneHourEveryHalfHour | bblogger.py:288-299 | one hour at 30-minute intervals is two cycles |
| Monitor.UnknownUntilMatched | bblogger.py:146-196 | after n polls of a fresh modem a stat shows `"Unknown"` exactly when its pattern missed in every one of them |
| Monitor.UnknownStep | bblogger.py:181-196 | one poll leaves a stat `"Unknown"` exactly when it was and its pattern missed |
| Monitor.LastObserved | bblogger.py:181-196 | each poll overwrites a stat its pattern matched and keeps its last value otherwise |

## Left out

- `TelnetConnection` (login, `read_command`, `exit`) is network I/O. The two reply texts are inputs to `ReadStats`.
- `get_login` is interactive input and has no effect on the statistics.
- Option parsing, `usage`, the help text and opening the output file are command-line plumbing. `duration >= 1` and `sleeptime >= 1`, which option parsing enforces, are preconditions of `Monitor.Poll`.
- `datetime.now()`, `strftime` and `time.sleep` are parameters. Each timestamp is given as text, and the clock as a function of the number of loop tests.
- `write`, `flush` and `csv.writer` quoting are library behaviour. Lines are strings and rows are sequences of cells.
- The "Did not find status" messages on stderr are diagnostics. They leave the store alone, and the model shows only that.
- The iteration order of the `STATUS_STATS` and `ADSL_STATS` dictionaries is not modelled. The tables are in source order. Every rule names a different stat (`Stats.TableNames`), and `Stats.ExtractOwn` and `Stats.ExtractOther` describe the result entry by entry, so the order cannot change it.
- Regular expressions in general are not modelled, only the literal, ` +` and `(\d+)` pieces these patterns use. `\d` is taken as the ASCII digits.
- Durations are whole seconds. `total_seconds()` as a float, sub-second parts and negative durations are left out, because the logger builds every duration from two digit captures.
- `BroadBandModem` and `Vigor130Modem` are one class, because there is only one driver. Its address, account and password fields serve only the telnet session and are left out.
- `Loggers.StatsLogger.Log` requires `start` to have run first. The Python code fails with an attribute error otherwise, and that failure is not modelled.
- Monitor.Poll: its cycle count assumes that every sleep moves the clock on by at least `sleeptime * 60` seconds. The exact count, `Monitor.IdealClockCycles`, needs a clock that loses no time to the cycles. A clock that jumps backwards is not covered; in normal use that happens when daylight saving time ends, since `datetime.datetime.now()` is naive local time (bblogger.py:288, bblogger.py:297), and the loop then runs an extra hour of cycles beyond ⌈duration·60/sleeptime⌉.
- Counter sign correction, fixed-point values and per-day output rotation are not in `bblogger.py`, so they are not in the model.
- Stats.Reconstruct: `HoursDelta(hours=..., minutes=...)` raises `OverflowError` once the captured time passes the 999999999-day range of `timedelta` (for example `System Uptime:100000000000:00`), and nothing catches it, so the run ends. The model has unbounded durations and stores the value instead.
- Monitor.Poll: a failure of the telnet session in `read_stats` (login, either `read_command`, `exit`) raises out of the `while` loop and ends the run, possibly after the status table was already applied. The model assumes every cycle completes, so its exit condition `start + duration * 3600 <= clock(cycles)` does not cover a run cut short.
