# Telldus sensor readings to a Google Spreadsheet, modelled in Dafny

`init.py` polls a Telldus device through `tdtool --list-sensors` and turns
the printed listing into one field map per `/n`-separated segment (meant
as one per sensor; see "## Findings"). It keeps a registry of
supported metrics (temperature and humidity), each mapped to the fields
that go into its worksheet. For every reading and every metric it writes
one row, with the reading's values in field order, at row 2 of the
metric's worksheet, just below the header row. It dedups on the reading's
`time` field. The dedup gate keeps one last timestamp per metric, shared by
every sensor, so only a reading whose time equals the time of the last
reading logged for that metric is skipped. Readings of several sensors with
different times are therefore logged again on every tick.

This project models that core:

- `text.dfy` (module `Text`): Python's `str.split` with an explicit
  separator, and `str.join`. Joining a split always gives back the string.
  Splitting a join gives back the parts when no part contains the
  separator and the separator cannot overlap itself. Tab, `=`, newline and
  `/n` all meet that last condition.
- `sensor_listing.dfy` (module `SensorListing`): the parser of
  `get_sensors`. It splits lines, then tab-separated tokens, then each
  token at `=`, and models Python's `dict` over the result, error path
  included.
- `registry.dfy` (module `Registry`): the `metrics` dictionary and its
  membership check.
- `sheets.dfy` (module `Sheets`): a worksheet as a grid of strings, with
  the three gspread operations the script uses: `add_worksheet`,
  `update_cell` and `insert_row`.
- `logging.dfy` (module `Logging`): `get_worksheet`,
  `log_sensor_and_metric` and one pass of the main loop, as functions
  from a state to a new state and an outcome. The state holds the
  worksheet cache, the last timestamps and the spreadsheet.
- `daemon.dfy` (module `Daemon`): class `SheetLogger`. Its fields are the
  script's two module-level dictionaries and the spreadsheet. Its methods
  do what the script does, step by step: the header loop, the dedup gate,
  and the two nested loops of a tick. Each method is proved to compute
  exactly the corresponding `Logging` or `Sheets` function; `PollListing`
  is proved against `SensorListing.ParseListing` followed by
  `Logging.Tick`.

An exception in the script is an `Err`/`Fail` value in the model. The
state changes made before an exception are kept, as in Python:

- A reading with a gate update but an unsupported metric keeps the new
  timestamp.
- A reading that lacks a field named by the registry keeps the new
  timestamp and the freshly cached worksheet. This is because the call
  `get_worksheet(...)` is evaluated before the list comprehension that
  builds the row.

## Model

| member | source | states |
|---|---|---|
| Text.Split | init.py:45-46 | Python's `s.split(sep)`: always at least one piece; `Text.JoinSplit`, `Text.SplitJoin` and `Text.SplitCount` state what the pieces are |
| Text.JoinSplit | init.py:45-46 | joining the pieces of `s.split(sep)` with `sep` gives back `s` |
| Text.SplitJoin | init.py:45-46 | splitting a join gives back the parts, when no part contains a separator that cannot overlap itself |
| Text.SplitWithoutSeparator | init.py:45-46 | a string without the separator splits into itself alone |
| Text.SplitAfterPiece | init.py:45-46 | a separator-free piece followed by the separator is split off as the first piece |
| Text.SplitCount | init.py:45 | splitting on a character gives one more piece than the character's occurrences |
| Text.ContainsChar | init.py:45 | a one-character separator occurs exactly where that character is in the string |
| SensorListing.Pairs | init.py:45 | the list handed to `dict` has one element per tab plus one; each element has one item more than its token has `=` signs and joins back to that token |
| SensorListing.DictOf | init.py:44-45 | `dict(pairs)` succeeds iff every element has exactly two items; otherwise it fails naming the first bad element and its length |
| SensorListing.DictOfContents | init.py:44-45 | with well-formed pairs, the keys are exactly the first items, each bound to the second item of its last pair |
| SensorListing.ParseLineOk | init.py:44-45 | a line parses iff every token has exactly one `=` |
| SensorListing.TokenParts | init.py:45 | a token with one `=` is key, `=`, value, and neither part holds an `=` |
| SensorListing.ParseLineContents | init.py:44-45 | a well-formed line's keys are its tokens' keys, each bound to the value of the last token with that key |
| SensorListing.RenderParses | init.py:44-45 | a rendered line `k1=v1<TAB>k2=v2...` parses back to exactly those pairs, a later duplicate key winning |
| SensorListing.RenderParsesOne | init.py:44-45 | the one-token line `k=v` parses to the map binding k to v |
| SensorListing.Collect | init.py:43-46 | the comprehension yields all readings in order iff no element raised; otherwise the first element that raised, with its position and error |
| SensorListing.ParseLines | init.py:43-46 | one reading per line, in order, iff every line parses; otherwise the first refused line with `dict`'s error for it |
| SensorListing.ParseLine | init.py:44-45 | `dict` over one line's tokens split at `=`: it succeeds iff every token splits into two items, and an error names a token that does not, with its item count; `SensorListing.ParseLineOk` and `SensorListing.ParseLineContents` state what the map holds |
| SensorListing.ParseListing | init.py:43-46 | the parser with the line separator as a parameter: one reading per separated line, or an error naming one of those lines; `SensorListing.ParseListingOk` and `SensorListing.ParseListingSegments` state exactly which |
| SensorListing.SlashFreeSplit | init.py:46 | cut at `/n`, text without a slash is a single line |
| SensorListing.ParseSensorListing | init.py:43-46 | the parser as written: a listing without a slash is a single line, whatever newlines it holds |
| SensorListing.ParseListingOk | init.py:43-46 | the listing parses iff every token of every line has one `=`; an error names the first bad token and its item count |
| SensorListing.ParseListingSegments | init.py:46 | parsing a join of separator-free lines gives those lines' readings in order |
| SensorListing.LineSeparatorBorderFree | init.py:46 | the literal `/n` separator cannot overlap itself |
| SensorListing.EmptyListingFails | init.py:43-46 | an empty listing is one empty line, which `dict` refuses as a one-item list |
| SensorListing.NoSlashNoSeparator | init.py:46 | text without a slash contains no `/n` |
| SensorListing.AsWrittenMergesLines | init.py:46 | as written, two sensors on two newline-separated lines form one line, and the parse fails |
| SensorListing.NewlineSeparatesLines | init.py:46 | separating at newlines, the same text parses to one reading per sensor |
| SensorListing.AsWrittenKeepsNewline | init.py:43-46 | as written, one sensor's newline-terminated line parses, the newline staying in its last value |
| SensorListing.NewlineTrailingRefused | init.py:43-46 | separating at newlines, a listing ending in a newline has an empty last line, and the parse fails there |
| Registry.FieldsFor | init.py:15-18 | exactly temperature and humidity are supported, each with fields id, time and the metric's own name; any other name is an `InvalidMetric` error |
| Sheets.NewSheet | init.py:72-73 | a created worksheet has the requested rows and columns, every cell empty |
| Sheets.SetCell | init.py:76 | `update_cell(row, col, v)` sets that one cell and leaves every other cell as it was |
| Sheets.InsertRow | init.py:93-94 | `insert_row(values, index)` puts `values` at that 1-based row, keeps the rows above and moves the rest down by one |
| Sheets.WithHeader | init.py:75-76 | after the header loop, row 1 holds the headers in its first cells and every other cell is unchanged |
| Sheets.WithHeaderStep | init.py:75-76 | one more `update_cell` of the loop extends the written header by one cell |
| Logging.FetchOrCreate | init.py:69-73 | on a cache miss, an existing worksheet is fetched as it is; a missing one (`WorksheetNotFound`) is created with one row and one empty column per field |
| Logging.IsDuplicate | init.py:89 | the dedup gate holds iff the reading has a time and storing it as the metric's last timestamp would change nothing |
| Logging.ResolveTwice | init.py:66-67 | resolving the same metric again finds it cached and changes nothing |
| Logging.ResolvedSheet | init.py:64-76 | the resolved worksheet has the header row: a cached one is untouched, a missing one is exactly the header row, a fetched one has only its header cells rewritten |
| Logging.Resolve | init.py:59-79 | an unsupported name fails before cache or spreadsheet are used; a cached name returns its handle and changes nothing; otherwise the worksheet is fetched or created, its header written and its handle cached; no other worksheet and no timestamp changes |
| Logging.RowFor | init.py:94 | the row holds the reading's values in field order iff the reading has every field; otherwise it fails with the first missing field |
| Logging.LogStep | init.py:88-94 | no `time` fails with nothing changed; a duplicate time changes nothing; otherwise the gate takes the time; an unsupported metric changes no worksheet or cache; a supported metric fails only on a missing field; only the metric's worksheet can change |
| Logging.LogStepInsertsRow | init.py:88-94 | a new reading with all fields inserts exactly one row, its values in registry order, at row 2 below the kept header; earlier data rows move down |
| Logging.LogStepMissingField | init.py:92-94 | a new reading lacking a field fails with the first missing field after the gate and the cache were updated; no row is inserted |
| Logging.GateHoldsLast | init.py:88-94 | the gate is one timestamp per metric for all sensors: after readings `a` and then `b` with different times are logged for a metric, the gate holds `b`'s time, `a` is not a duplicate, and logging `a` again inserts one more row |
| Logging.LogAll | init.py:102-103 | the inner loop keeps the state invariant; over registry metrics its only failure is a field the reading lacks |
| Logging.Tick | init.py:101-103 | the tick keeps the state invariant; over registry metrics its only failure is a field some reading lacks |
| Logging.RepollIsNoop | init.py:89-103 | once a tick over readings sharing one time succeeds, polling them again writes nothing and changes no state; readings with different times are not covered, and `Logging.GateHoldsLast` shows they are logged again |
| Logging.LogAllNoop | init.py:89-103 | a reading whose time the gate holds for every metric changes nothing |
| Logging.LogAllStamps | init.py:92-103 | after a successful pass over one reading, the gate holds its time for every metric |
| Logging.TickStamps | init.py:92-103 | after a successful tick over readings sharing time t, the gate holds t for every metric |
| Logging.TickNoop | init.py:89-103 | readings whose shared time the gate already holds for every metric change nothing |
| Daemon.SheetLogger.constructor | init.py:58-97 | starts with an empty cache, no timestamps and the opened spreadsheet |
| Daemon.SheetLogger.AddWorksheet | init.py:72-73 | adds a new empty worksheet of the given size and nothing else |
| Daemon.SheetLogger.UpdateCell | init.py:76 | changes only that worksheet, by `Sheets.SetCell` |
| Daemon.SheetLogger.InsertRow | init.py:93-94 | changes only that worksheet, by `Sheets.InsertRow` |
| Daemon.SheetLogger.WriteHeader | init.py:75-76 | the cell-by-cell loop leaves that worksheet as `Sheets.WithHeader` describes and changes nothing else |
| Daemon.SheetLogger.GetWorksheet | init.py:59-79 | new state and result are exactly `Logging.Resolve` of the old state |
| Daemon.SheetLogger.LogSensorAndMetric | init.py:88-94 | new state and outcome are exactly `Logging.LogStep` of the old state |
| Daemon.SheetLogger.PollTick | init.py:101-103 | two nested loops whose new state and outcome are exactly `Logging.Tick` of the old state |
| Daemon.SheetLogger.PollListing | init.py:43-103 | with the line separator as a parameter: a listing that fails to parse raises before any change; otherwise the state and outcome are `Logging.Tick` over its readings |

## Left out

- The tdtool subprocess, the credentials file, the environment variable and
  authorisation are left out as I/O. `SheetLogger.PollListing` takes the
  printed listing as a parameter.
- Daemon.SheetLogger.PollListing: the line separator is a parameter. With
  `SensorListing.LineSeparator` it is the script as written; with a newline
  it is the corrected parser of the finding below.
- The endless `while True` loop and `time.sleep(POLLING_INTERVAL)` are left
  out. One tick is modelled, and `Logging.RepollIsNoop` relates two ticks.
- Remote failures of the spreadsheet service are not modelled. The only
  service response modelled is "worksheet not found", which makes the
  script create the worksheet.
- Sheets.SetCell: a write outside the current grid pads it with empty cells.
  This is a choice of the model. It stands in for whatever the remote service
  does with such a write, which the model leaves out. Column limits and the
  service's maximum sheet size are not modelled.
- Registry.FieldsFor: the error's list of supported metrics is a set. The
  model does not capture the order `", ".join(metrics.keys())` prints them in.
- Daemon.SheetLogger.PollTick: the order in which the inner loop visits the
  metrics is the parameter `order`, required to list each registry metric
  once. Python 2 dictionary iteration order is not modelled.
- Logging.LogStep: the comment above `log_sensor_and_metric` says a reading
  is logged only when its time is greater than the cached one. The code only
  skips an equal time, and the model follows the code.
- Logging.Inv: a cached worksheet is assumed to still exist and still hold
  its header row. That holds because only the script writes the
  spreadsheet in the model. The script never re-checks on a cache hit, and
  other writers to the spreadsheet (people, other programs) are not modelled.
- Logging.LogStep: `log_sensor_and_metric` is modelled with the `metrics`
  registry fixed. The script never changes the registry.

## Findings

| source | as written | input that shows it | evidently intended | confidence | as-written member | corrected member |
|---|---|---|---|---|---|---|
| init.py:46 | the listing is cut into lines at the two-character string `/n`, not at a newline character | `"id=1\nid=2"`: one line whose token has two `=`, so `dict` raises `ValueError` | cut at newline characters, one reading per printed line; a final newline still leaves an empty last line, which `dict` refuses (`SensorListing.NewlineTrailingRefused`), whereas as written a single line keeps its newline in the last value (`SensorListing.AsWrittenKeepsNewline`) | not executed | SensorListing.AsWrittenMergesLines | SensorListing.NewlineSeparatesLines |
