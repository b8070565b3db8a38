/**
 * The script's module-level state and its logging functions as one
 * object. `worksheetCache` and `lastTimestamps` are the two dictionaries of
 * init.py; `spreadsheet` is the remote spreadsheet, changed only through the
 * three worksheet operations below. Each method is proved to compute
 * exactly the corresponding function of module `Logging` or `Sheets`;
 * `PollListing` is proved against `SensorListing.ParseListing` followed by
 * `Logging.Tick`.
 */
module Daemon {
  import opened Results
  import opened Registry
  import opened Sheets
  import opened Logging
  import SensorListing

  class SheetLogger {
    var worksheetCache: map<string, Handle>
    var lastTimestamps: map<string, string>
    var spreadsheet: Store

    /** The object's state as a `Logging.State` value. */
    function Snapshot(): State
      reads this
    {
      State(worksheetCache, lastTimestamps, spreadsheet)
    }

    predicate Valid()
      reads this
    {
      Inv(Snapshot())
    }

    /** The state at start-up, over an opened spreadsheet. */
    constructor (spreadsheet: Store)
      ensures Valid() && Snapshot() == Initial(spreadsheet)
    {
      worksheetCache := map[];
      lastTimestamps := map[];
      this.spreadsheet := spreadsheet;
    }

    /** `spreadsheet.add_worksheet(title=title, rows=rows, cols=cols)`. */
    method AddWorksheet(title: string, rows: nat, cols: nat) returns (h: Handle)
      requires title !in spreadsheet
      modifies this`spreadsheet
      ensures h == Handle(title)
      ensures spreadsheet == old(spreadsheet)[title := NewSheet(rows, cols)]
    {
      spreadsheet := spreadsheet[title := NewSheet(rows, cols)];
      h := Handle(title);
    }

    /** `sheet.update_cell(row, col, value)`. */
    method UpdateCell(sheet: Handle, row: nat, col: nat, value: string)
      requires sheet.title in spreadsheet && row >= 1 && col >= 1
      modifies this`spreadsheet
      ensures spreadsheet == old(spreadsheet)[sheet.title := SetCell(old(spreadsheet)[sheet.title], row, col, value)]
    {
      spreadsheet := spreadsheet[sheet.title := SetCell(spreadsheet[sheet.title], row, col, value)];
    }

    /** `sheet.insert_row(values, index=index)`. */
    method InsertRow(sheet: Handle, values: Row, index: nat)
      requires sheet.title in spreadsheet && 1 <= index <= |spreadsheet[sheet.title]| + 1
      modifies this`spreadsheet
      ensures spreadsheet == old(spreadsheet)[sheet.title := Sheets.InsertRow(old(spreadsheet)[sheet.title], values, index)]
    {
      spreadsheet := spreadsheet[sheet.title := Sheets.InsertRow(spreadsheet[sheet.title], values, index)];
    }

    /** Row 1 of `sheet` takes `headers`, one `update_cell` per column. */
    method WriteHeader(sheet: Handle, headers: Row)
      requires sheet.title in spreadsheet
      modifies this`spreadsheet
      ensures spreadsheet == old(spreadsheet)[sheet.title := WithHeader(old(spreadsheet)[sheet.title], headers)]
    {
      ghost var before := spreadsheet;
      assert before[sheet.title := WithHeader(before[sheet.title], headers[..0])] == before;
      for idx := 0 to |headers|
        invariant spreadsheet == before[sheet.title := WithHeader(before[sheet.title], headers[..idx])]
      {
        WithHeaderStep(before[sheet.title], headers, idx);
        UpdateCell(sheet, 1, idx + 1, headers[idx]);
      }
      assert headers[..|headers|] == headers;
    }

    /**
     * `get_worksheet(spreadsheet, name)`: check the registry, return a cached
     * handle, else fetch or create the worksheet, write its header row cell
     * by cell and cache the handle.
     */
    method GetWorksheet(name: string) returns (r: Result<Handle, Error>)
      requires Valid()
      modifies this
      ensures Valid()
      ensures (Snapshot(), r) == Resolve(old(Snapshot()), name)
    {
      ghost var s0 := Snapshot();
      var fields := FieldsFor(name);
      if fields.Err? {
        return Err(fields.error);
      }
      var headers := Metrics[name];
      if name in worksheetCache {
        return Ok(worksheetCache[name]);
      }
      var sheet: Handle;
      if name in spreadsheet {
        sheet := Handle(name);
      } else {
        // the lookup raised WorksheetNotFound
        sheet := AddWorksheet(name, 1, |headers|);
      }
      assert spreadsheet == s0.store[name := FetchOrCreate(s0.store, name, |headers|)];
      WriteHeader(sheet, headers);
      assert spreadsheet == s0.store[name := ResolvedSheet(s0, name)];
      worksheetCache := worksheetCache[name := sheet];
      r := Ok(sheet);
    }

    /**
     * `log_sensor_and_metric(sensor, metric, spreadsheet)`. A reading without
     * a "time" field raises a `KeyError` before anything changes, whichever
     * of the two lookups of it comes first.
     */
    method LogSensorAndMetric(sensor: Reading, metric: string) returns (r: Outcome)
      requires Valid()
      modifies this
      ensures Valid()
      ensures (Snapshot(), r) == LogStep(old(Snapshot()), sensor, metric)
    {
      if TimeField !in sensor {
        return Fail(MissingField(TimeField));
      }
      if metric in lastTimestamps && lastTimestamps[metric] == sensor[TimeField] {
        return Pass;
      }
      lastTimestamps := lastTimestamps[metric := sensor[TimeField]];
      var sheet := GetWorksheet(metric);
      if sheet.Err? {
        return Fail(sheet.error);
      }
      var row := RowFor(sensor, Metrics[metric]);
      if row.Err? {
        return Fail(row.error);
      }
      InsertRow(sheet.value, row.value, DataRowIndex);
      r := Pass;
    }

    /**
     * One pass of the main loop: every reading of the listing against every
     * metric, in the order `order` enumerates the registry. The first
     * failure ends the pass.
     */
    method PollTick(sensors: seq<Reading>, order: seq<string>) returns (r: Outcome)
      requires Valid() && IsRegistryOrder(order)
      modifies this
      ensures Valid()
      ensures (Snapshot(), r) == Tick(old(Snapshot()), sensors, order)
    {
      for i := 0 to |sensors|
        invariant Valid()
        invariant Tick(old(Snapshot()), sensors, order) == Tick(Snapshot(), sensors[i..], order)
      {
        ghost var before := Snapshot();
        assert sensors[i..][0] == sensors[i] && sensors[i..][1..] == sensors[i + 1..];
        for j := 0 to |order|
          invariant Valid()
          invariant LogAll(before, sensors[i], order) == LogAll(Snapshot(), sensors[i], order[j..])
        {
          assert order[j..][0] == order[j] && order[j..][1..] == order[j + 1..];
          var o := LogSensorAndMetric(sensors[i], order[j]);
          if o.Fail? {
            return o;
          }
        }
      }
      r := Pass;
    }

    /**
     * One pass of the main loop over the listing text `tdtool` printed, cut
     * into lines at `lineSep`: the script as written is
     * `PollListing(listing, SensorListing.LineSeparator, order)`. A listing
     * `dict` refuses raises before any reading is logged.
     */
    method PollListing(listing: string, lineSep: string, order: seq<string>)
      returns (r: Result<Outcome, SensorListing.ParseError>)
      requires Valid() && lineSep != [] && IsRegistryOrder(order)
      modifies this
      ensures Valid()
      ensures SensorListing.ParseListing(listing, lineSep).Err? ==>
        r == Err(SensorListing.ParseListing(listing, lineSep).error) && Snapshot() == old(Snapshot())
      ensures SensorListing.ParseListing(listing, lineSep).Ok? ==>
        var (s1, o) := Tick(old(Snapshot()), SensorListing.ParseListing(listing, lineSep).value, order);
        Snapshot() == s1 && r == Ok(o)
    {
      var sensors := SensorListing.ParseListing(listing, lineSep);
      if sensors.Err? {
        return Err(sensors.error);
      }
      var o := PollTick(sensors.value, order);
      r := Ok(o);
    }
  }
}
