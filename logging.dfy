/**
 * The logging path of init.py as functions on an explicit state: the
 * worksheet cache, the per-metric last timestamps and the spreadsheet.
 * `Resolve` is `get_worksheet`, `LogStep` is `log_sensor_and_metric`, and
 * `Tick` is one pass of the main loop over every sensor and every metric.
 * The methods of `Daemon.SheetLogger` are proved to compute exactly these.
 */
module Logging {
  import opened Results
  import opened Registry
  import opened Sheets
  import SensorListing

  type Reading = SensorListing.Reading

  /** A worksheet handle; it names the worksheet it stands for. */
  datatype Handle = Handle(title: string)

  /** How a call ended: normally, or with the exception it raised. */
  datatype Outcome = Pass | Fail(error: Error)

  /** `worksheet_cache`, `last_timestamps` and the spreadsheet. */
  datatype State = State(cache: map<string, Handle>, stamps: map<string, string>, store: Store)

  /** New readings go in row 2, just below the header row. */
  const DataRowIndex: nat := 2

  /**
   * Every cached handle belongs to a supported metric, names that metric's
   * worksheet, and that worksheet exists and starts with the metric's fields.
   */
  predicate Inv(s: State)
  {
    forall n :: n in s.cache ==>
      n in Metrics && s.cache[n] == Handle(n) && n in s.store && HasHeader(s.store[n], Metrics[n])
  }

  /** The state when the script starts: empty cache, no timestamps. */
  function Initial(store: Store): (s: State)
    ensures Inv(s) && s.store == store && s.cache == map[] && s.stamps == map[]
  {
    State(map[], map[], store)
  }

  /** On a cache miss: the existing worksheet, or a new one of one row and a column per field. */
  function FetchOrCreate(store: Store, name: string, cols: nat): (r: Sheet)
    ensures name in store ==> r == store[name]
    ensures name !in store ==>
      |r| == 1 && |r[0]| == cols && forall i: nat, j: nat :: Cell(r, i, j) == Empty
  {
    if name in store then store[name] else NewSheet(1, cols)
  }

  /**
   * The worksheet `name` after resolution: the cached one untouched, or the
   * fetched or created one with its header row rewritten.
   */
  function ResolvedSheet(s: State, name: string): (r: Sheet)
    requires Inv(s) && name in Metrics
    ensures HasHeader(r, Metrics[name])
    ensures name in s.cache ==> r == s.store[name]
    ensures name !in s.cache && name !in s.store ==> r == [Metrics[name]]
    ensures name !in s.cache && name in s.store ==>
      |r| == Max(|s.store[name]|, 1) &&
      forall i: nat, j: nat :: Cell(r, i, j) ==
        if i == 0 && j < |Metrics[name]| then Metrics[name][j] else Cell(s.store[name], i, j)
  {
    if name in s.cache then s.store[name]
    else
      var headers := Metrics[name];
      var sheet := FetchOrCreate(s.store, name, |headers|);
      assert name !in s.store ==>
        |sheet| == 1 && |sheet[0]| == |headers| && Drop(sheet[0], |headers|) == [] &&
        WithHeader(sheet, headers) == [headers + []] &&
        headers + [] == headers && [headers] == [Metrics[name]];
      WithHeader(sheet, headers)
  }

  /**
   * `get_worksheet(spreadsheet, name)`. An unsupported name fails before the
   * cache or the spreadsheet is looked at; a cached name returns its handle
   * and changes nothing; otherwise the worksheet is fetched or created, its
   * header row rewritten and its handle cached. No other worksheet changes.
   */
  function Resolve(s: State, name: string): (r: (State, Result<Handle, Error>))
    requires Inv(s)
    ensures Inv(r.0) && r.0.stamps == s.stamps
    ensures r.1.Err? <==> name !in Metrics
    ensures name !in Metrics ==> r == (s, Err(InvalidMetric(name, Metrics.Keys)))
    ensures name in s.cache ==> r == (s, Ok(s.cache[name]))
    ensures name in Metrics ==>
      r.1 == Ok(Handle(name)) && r.0.cache == s.cache[name := Handle(name)] &&
      name in r.0.store && r.0.store[name] == ResolvedSheet(s, name)
    ensures forall n :: n != name ==> (n in r.0.store <==> n in s.store)
    ensures forall n :: n != name && n in s.store ==> r.0.store[n] == s.store[n]
  {
    match FieldsFor(name)
    case Err(e) => (s, Err(e))
    case Ok(headers) =>
      if name in s.cache then (s, Ok(s.cache[name]))
      else
        var sheet := ResolvedSheet(s, name);
        (s.(cache := s.cache[name := Handle(name)], store := s.store[name := sheet]), Ok(Handle(name)))
  }

  /** Resolving the same metric again finds it cached: no further change. */
  lemma ResolveTwice(s: State, name: string)
    requires Inv(s)
    ensures Resolve(Resolve(s, name).0, name) == Resolve(s, name)
  {
  }

  /**
   * `[sensor[key] for key in fields]`: the reading's values in field order,
   * or a `KeyError` for the first field it lacks.
   */
  function RowFor(sensor: Reading, fields: seq<string>): (r: Result<Row, Error>)
    ensures r.Ok? <==> forall k :: k in fields ==> k in sensor
    ensures r.Ok? ==> |r.value| == |fields| && forall i :: 0 <= i < |fields| ==> r.value[i] == sensor[fields[i]]
    ensures r.Err? ==>
      exists i :: 0 <= i < |fields| && r.error == MissingField(fields[i]) &&
                  fields[i] !in sensor && forall j :: 0 <= j < i ==> fields[j] in sensor
    decreases |fields|
  {
    if fields == [] then Ok([])
    else if fields[0] !in sensor then Err(MissingField(fields[0]))
    else
      match RowFor(sensor, fields[1..])
      case Err(e) => Err(e)
      case Ok(rest) => Ok([sensor[fields[0]]] + rest)
  }

  /** The dedup gate: `metric` was last logged with this reading's time. */
  predicate IsDuplicate(s: State, sensor: Reading, metric: string): (d: bool)
    ensures TimeField !in sensor ==> !d
    ensures TimeField in sensor ==> (d <==> s.stamps[metric := sensor[TimeField]] == s.stamps)
  {
    TimeField in sensor && metric in s.stamps && s.stamps[metric] == sensor[TimeField]
  }

  /**
   * `log_sensor_and_metric(sensor, metric, spreadsheet)`. A reading without a
   * time fails before anything changes; a duplicate changes nothing.
   * Otherwise the gate takes the reading's time first, then the worksheet is
   * resolved, then the row is built and inserted below the header; a failure
   * in a later step keeps the effects of the earlier ones.
   */
  function LogStep(s: State, sensor: Reading, metric: string): (r: (State, Outcome))
    requires Inv(s)
    ensures Inv(r.0)
    ensures TimeField !in sensor ==> r == (s, Fail(MissingField(TimeField)))
    ensures IsDuplicate(s, sensor, metric) ==> r == (s, Pass)
    ensures TimeField in sensor ==> r.0.stamps == s.stamps[metric := sensor[TimeField]]
    ensures TimeField in sensor && !IsDuplicate(s, sensor, metric) && metric !in Metrics ==>
      r.1 == Fail(InvalidMetric(metric, Metrics.Keys)) && r.0.cache == s.cache && r.0.store == s.store
    ensures metric in Metrics && r.1.Fail? ==> r.1.error.MissingField?
    ensures r.0.cache == s.cache || (metric in Metrics && r.0.cache == s.cache[metric := Handle(metric)])
    ensures forall n :: n != metric ==> (n in r.0.store <==> n in s.store)
    ensures forall n :: n != metric && n in s.store ==> r.0.store[n] == s.store[n]
  {
    if TimeField !in sensor then (s, Fail(MissingField(TimeField)))
    else if IsDuplicate(s, sensor, metric) then (s, Pass)
    else
      var gated := s.(stamps := s.stamps[metric := sensor[TimeField]]);
      var (resolved, sheet) := Resolve(gated, metric);
      match sheet
      case Err(e) => (resolved, Fail(e))
      case Ok(h) =>
        match RowFor(sensor, Metrics[metric])
        case Err(e) => (resolved, Fail(e))
        case Ok(row) =>
          var title := h.title;
          (resolved.(store := resolved.store[title := InsertRow(resolved.store[title], row, DataRowIndex)]), Pass)
  }

  /**
   * A new reading with every field of its metric is logged: exactly one row
   * holding its values in registry order goes in at row 2 of the metric's
   * resolved worksheet, whose header row stays and whose earlier data rows
   * move down by one.
   */
  lemma LogStepInsertsRow(s: State, sensor: Reading, metric: string)
    requires Inv(s) && metric in Metrics
    requires TimeField in sensor && !IsDuplicate(s, sensor, metric)
    requires forall k :: k in Metrics[metric] ==> k in sensor
    ensures LogStep(s, sensor, metric).1 == Pass
    ensures metric in LogStep(s, sensor, metric).0.cache
    ensures var before := ResolvedSheet(s, metric);
      var after := LogStep(s, sensor, metric).0.store[metric];
      |after| == |before| + 1 && after[0] == before[0] &&
      |after[1]| == |Metrics[metric]| &&
      (forall i :: 0 <= i < |Metrics[metric]| ==> after[1][i] == sensor[Metrics[metric][i]]) &&
      (forall i :: 1 <= i < |before| ==> after[i + 1] == before[i])
  {
    var gated := s.(stamps := s.stamps[metric := sensor[TimeField]]);
    assert ResolvedSheet(gated, metric) == ResolvedSheet(s, metric);
  }

  /**
   * A new reading that lacks one of its metric's fields fails with the first
   * field missing, after the gate took its time and the worksheet was
   * resolved and cached; no row is inserted.
   */
  lemma LogStepMissingField(s: State, sensor: Reading, metric: string)
    requires Inv(s) && metric in Metrics
    requires TimeField in sensor && !IsDuplicate(s, sensor, metric)
    requires exists k :: k in Metrics[metric] && k !in sensor
    ensures var fields := Metrics[metric];
      exists i :: 0 <= i < |fields| && LogStep(s, sensor, metric).1 == Fail(MissingField(fields[i])) &&
        fields[i] !in sensor && forall j :: 0 <= j < i ==> fields[j] in sensor
    ensures LogStep(s, sensor, metric).0.cache == s.cache[metric := Handle(metric)]
    ensures LogStep(s, sensor, metric).0.store[metric] == ResolvedSheet(s, metric)
  {
    var gated := s.(stamps := s.stamps[metric := sensor[TimeField]]);
    assert ResolvedSheet(gated, metric) == ResolvedSheet(s, metric);
  }

  /**
   * The gate is one timestamp per metric, shared by every sensor: once `a`
   * and then `b`, with a different time, are logged for `m`, the gate holds
   * `b`'s time, so `a` is no longer a duplicate and logging it again
   * inserts one more row.
   */
  lemma GateHoldsLast(s: State, a: Reading, b: Reading, m: string)
    requires Inv(s) && m in Metrics
    requires TimeField in a && TimeField in b && a[TimeField] != b[TimeField]
    requires forall k :: k in Metrics[m] ==> k in a && k in b
    ensures var s1 := LogStep(s, a, m).0;
      var s2 := LogStep(s1, b, m).0;
      LogStep(s1, b, m).1 == Pass && s2.stamps[m] == b[TimeField] && !IsDuplicate(s2, a, m) &&
      LogStep(s2, a, m).1 == Pass && |LogStep(s2, a, m).0.store[m]| == |s2.store[m]| + 1
  {
    if !IsDuplicate(s, a, m) {
      LogStepInsertsRow(s, a, m);
    }
    var s1 := LogStep(s, a, m).0;
    LogStepInsertsRow(s1, b, m);
    var s2 := LogStep(s1, b, m).0;
    LogStepInsertsRow(s2, a, m);
  }

  /**
   * The inner loop: one reading against each metric in `order`, stopping at
   * the first failure. Over registry metrics the only failure is a field
   * the reading lacks.
   */
  function LogAll(s: State, sensor: Reading, order: seq<string>): (r: (State, Outcome))
    requires Inv(s)
    ensures Inv(r.0)
    ensures (forall m :: m in order ==> m in Metrics) && r.1.Fail? ==> r.1.error.MissingField?
    decreases |order|
  {
    if order == [] then (s, Pass)
    else
      assert forall m :: m in order[1..] ==> m in order;
      var (s1, o) := LogStep(s, sensor, order[0]);
      if o.Fail? then (s1, o) else LogAll(s1, sensor, order[1..])
  }

  /**
   * One tick of the main loop: every reading against every metric, stopping
   * at the first failure. Over registry metrics the only failure is a field
   * some reading lacks.
   */
  function Tick(s: State, sensors: seq<Reading>, order: seq<string>): (r: (State, Outcome))
    requires Inv(s)
    ensures Inv(r.0)
    ensures (forall m :: m in order ==> m in Metrics) && r.1.Fail? ==> r.1.error.MissingField?
    decreases |sensors|
  {
    if sensors == [] then (s, Pass)
    else
      var (s1, o) := LogAll(s, sensors[0], order);
      if o.Fail? then (s1, o) else Tick(s1, sensors[1..], order)
  }

  /** `order` lists each registry metric once, as iterating over `metrics` does. */
  predicate IsRegistryOrder(order: seq<string>)
  {
    |order| == |Metrics| && (forall m :: m in order ==> m in Metrics) && (forall m :: m in Metrics ==> m in order)
  }

  /** The gate holds time `t` for every metric in `names`. */
  predicate Stamped(s: State, names: seq<string>, t: string)
  {
    forall m :: m in names ==> m in s.stamps && s.stamps[m] == t
  }

  /**
   * Logging one reading keeps the gate at its time for metrics already
   * there, and a pass leaves the gate at its time for every metric of `order`.
   */
  lemma {:induction false} LogAllStamps(s: State, sensor: Reading, order: seq<string>, done: seq<string>)
    requires Inv(s) && TimeField in sensor && Stamped(s, done, sensor[TimeField])
    ensures Stamped(LogAll(s, sensor, order).0, done, sensor[TimeField])
    ensures LogAll(s, sensor, order).1 == Pass ==> Stamped(LogAll(s, sensor, order).0, order, sensor[TimeField])
    decreases |order|
  {
    if order != [] {
      var s1 := LogStep(s, sensor, order[0]).0;
      assert Stamped(s1, done + [order[0]], sensor[TimeField]);
      LogAllStamps(s1, sensor, order[1..], done + [order[0]]);
      assert order == [order[0]] + order[1..];
    }
  }

  /** A reading whose time the gate already holds for every metric of `order` changes nothing. */
  lemma {:induction false} LogAllNoop(s: State, sensor: Reading, order: seq<string>)
    requires Inv(s) && TimeField in sensor && Stamped(s, order, sensor[TimeField])
    ensures LogAll(s, sensor, order) == (s, Pass)
    decreases |order|
  {
    if order != [] {
      assert IsDuplicate(s, sensor, order[0]);
      assert Stamped(s, order[1..], sensor[TimeField]) by {
        forall m | m in order[1..] ensures m in order { }
      }
      LogAllNoop(s, sensor, order[1..]);
    }
  }

  /** A pass over readings that all carry time `t` leaves the gate at `t` for every metric. */
  lemma {:induction false} TickStamps(s: State, sensors: seq<Reading>, order: seq<string>, t: string)
    requires Inv(s) && Tick(s, sensors, order).1 == Pass
    requires forall x :: x in sensors ==> TimeField in x && x[TimeField] == t
    requires sensors != [] || Stamped(s, order, t)
    ensures Stamped(Tick(s, sensors, order).0, order, t)
    decreases |sensors|
  {
    if sensors != [] {
      assert sensors[0] in sensors;
      LogAllStamps(s, sensors[0], order, []);
      var s1 := LogAll(s, sensors[0], order).0;
      assert forall x :: x in sensors[1..] ==> x in sensors;
      TickStamps(s1, sensors[1..], order, t);
    }
  }

  /** Readings that all carry a time the gate holds for every metric change nothing. */
  lemma {:induction false} TickNoop(s: State, sensors: seq<Reading>, order: seq<string>, t: string)
    requires Inv(s) && Stamped(s, order, t)
    requires forall x :: x in sensors ==> TimeField in x && x[TimeField] == t
    ensures Tick(s, sensors, order) == (s, Pass)
    decreases |sensors|
  {
    if sensors != [] {
      assert sensors[0] in sensors;
      LogAllNoop(s, sensors[0], order);
      assert forall x :: x in sensors[1..] ==> x in sensors;
      TickNoop(s, sensors[1..], order, t);
    }
  }

  /**
   * The dedup promise across polls: once a tick over readings that all
   * carry the same time has succeeded, polling the same readings again
   * writes nothing and changes no state.
   */
  lemma RepollIsNoop(s: State, sensors: seq<Reading>, order: seq<string>, t: string)
    requires Inv(s) && Tick(s, sensors, order).1 == Pass
    requires forall x :: x in sensors ==> TimeField in x && x[TimeField] == t
    ensures Tick(Tick(s, sensors, order).0, sensors, order) == (Tick(s, sensors, order).0, Pass)
  {
    if sensors != [] {
      TickStamps(s, sensors, order, t);
      TickNoop(Tick(s, sensors, order).0, sensors, order, t);
    }
  }
}
