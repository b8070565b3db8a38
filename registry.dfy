/**
 * The metric registry (`metrics` in init.py) and the errors the logging
 * path raises.
 */
module Registry {
  import opened Results

  /** Each supported metric, with the sensor fields saved for it, in column order. */
  const Metrics: map<string, seq<string>> := map[
    "temperature" := ["id", "time", "temperature"],
    "humidity" := ["id", "time", "humidity"]
  ]

  /** The reading field the dedup gate compares. */
  const TimeField: string := "time"

  datatype Error =
    /** `ValueError`: `name` is not a metric; the message lists the supported ones. */
    | InvalidMetric(name: string, supported: set<string>)
    /** `KeyError`: the reading has no field `key`. */
    | MissingField(key: string)

  /**
   * The registry check at the top of `get_worksheet`: the fields of a
   * supported metric, or an `InvalidMetric` error naming the metrics there
   * are. Every metric saves the sensor id, the time and its own value.
   */
  function FieldsFor(name: string): (r: Result<seq<string>, Error>)
    ensures r.Ok? <==> name == "temperature" || name == "humidity"
    ensures r.Err? ==> r.error == InvalidMetric(name, {"temperature", "humidity"})
    ensures r.Ok? ==> r.value == ["id", TimeField, name]
  {
    assert Metrics.Keys == {"temperature", "humidity"};
    if name in Metrics then Ok(Metrics[name]) else Err(InvalidMetric(name, Metrics.Keys))
  }
}
