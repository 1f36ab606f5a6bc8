/** The server's mapping from one parsed sensor object to a CSV row
    `[timestamp, sensor type, value]`, with its key fallbacks, and the pass over all the
    chunks split out of one buffer. */
module CsvRow {
  import opened Wrappers
  import opened JsonText

  /** A parsed object: a Python dict from keys to JSON values. */
  type Chunk = map<string, Json>

  /** The header row of the CSV file. */
  const HEADER: seq<string> := ["Timestamp", "SensorType", "Value"]

  /** `d.get(k)`: the stored value, where a stored JSON null and a missing key both read
      as Python's None. */
  function Get(d: Chunk, k: string): (r: Option<Json>)
    ensures r.Some? <==> k in d && d[k] != JNull
    ensures r.Some? ==> r.value == d[k]
  {
    if k in d && d[k] != JNull then Some(d[k]) else None
  }

  /** `d.get(k, default)`: the default only replaces a missing key; a stored null stays
      None. */
  function GetOr(d: Chunk, k: string, default: Json): (r: Option<Json>)
    ensures k !in d ==> r == Some(default)
    ensures k in d ==> r == Get(d, k)
  {
    if k in d then Get(d, k) else Some(default)
  }

  /** An independent reading of a chain of fallbacks: the value of the first key in
      `keys` that holds a non-null value. */
  function FirstPresent(d: Chunk, keys: seq<string>): (r: Option<Json>)
    ensures r.None? <==> forall i :: 0 <= i < |keys| ==> Get(d, keys[i]).None?
    ensures r.Some? ==>
      exists i :: 0 <= i < |keys| && Get(d, keys[i]) == r && forall j :: 0 <= j < i ==> Get(d, keys[j]).None?
  {
    if |keys| == 0 then None
    else if Get(d, keys[0]).Some? then Get(d, keys[0])
    else
      var r := FirstPresent(d, keys[1..]);
      assert forall i :: 1 <= i < |keys| ==> keys[i] == keys[1..][i - 1];
      r
  }

  /** `value = d.get("value")`, then `"green"` when that was None. */
  function Value(d: Chunk): Option<Json> {
    var v := Get(d, "value");
    if v.None? then Get(d, "green") else v
  }

  /** `timestamp = d.get("timestamp")`, then `"timestampNs"` when that was None. */
  function Timestamp(d: Chunk): Option<Json> {
    var t := Get(d, "timestamp");
    if t.None? then Get(d, "timestampNs") else t
  }

  /** `d.get("sensor", "Unknown")`. */
  function SensorType(d: Chunk): Option<Json> {
    GetOr(d, "sensor", JString("Unknown"))
  }

  /** One CSV row. The sensor type may be None: a stored null is written as is. */
  datatype Row = Row(timestamp: Json, sensorType: Option<Json>, value: Json) {
    /** The cells in file order, None standing for Python's None. */
    function Cells(): (cells: seq<Option<Json>>)
      ensures |cells| == |HEADER|
      ensures cells[0] == Some(timestamp) && cells[1] == sensorType && cells[2] == Some(value)
    {
      [Some(timestamp), sensorType, Some(value)]
    }
  }

  /** The row for one parsed object, or None for the "incomplete data" branch. */
  function BuildRow(d: Chunk): (r: Option<Row>)
    ensures r.Some? <==> Value(d).Some? && Timestamp(d).Some?
    ensures r.Some? ==> r.value == Row(Timestamp(d).value, SensorType(d), Value(d).value)
  {
    var value, timestamp := Value(d), Timestamp(d);
    if value.Some? && timestamp.Some? then Some(Row(timestamp.value, SensorType(d), value.value))
    else None
  }

  /** The value falls back from "value" to "green", and nothing else is consulted. */
  lemma ValueFallback(d: Chunk)
    ensures Value(d) == FirstPresent(d, ["value", "green"])
  {
    assert ["value", "green"][1..] == ["green"];
    assert ["green"][1..] == [];
  }

  /** The timestamp falls back from "timestamp" to "timestampNs". */
  lemma TimestampFallback(d: Chunk)
    ensures Timestamp(d) == FirstPresent(d, ["timestamp", "timestampNs"])
  {
    assert ["timestamp", "timestampNs"][1..] == ["timestampNs"];
    assert ["timestampNs"][1..] == [];
  }

  /** A row exists exactly when one of "value" and "green" and one of "timestamp" and
      "timestampNs" hold a non-null value; its cells are the first of each pair, and the
      sensor type is "Unknown" only when the key is missing. */
  lemma RowSpec(d: Chunk)
    ensures BuildRow(d).Some? <==>
      (("value" in d && d["value"] != JNull) || ("green" in d && d["green"] != JNull)) &&
      (("timestamp" in d && d["timestamp"] != JNull) || ("timestampNs" in d && d["timestampNs"] != JNull))
    ensures BuildRow(d).Some? ==>
      BuildRow(d).value.value == (if "value" in d && d["value"] != JNull then d["value"] else d["green"]) &&
      BuildRow(d).value.timestamp
        == (if "timestamp" in d && d["timestamp"] != JNull then d["timestamp"] else d["timestampNs"])
    ensures BuildRow(d).Some? && "sensor" !in d ==> BuildRow(d).value.sensorType == Some(JString("Unknown"))
    ensures BuildRow(d).Some? && "sensor" in d && d["sensor"] == JNull ==> BuildRow(d).value.sensorType == None
    ensures BuildRow(d).Some? && "sensor" in d && d["sensor"] != JNull ==>
      BuildRow(d).value.sensorType == Some(d["sensor"])
  {
  }

  /** Keys other than the five the row builder reads make no difference to the row. */
  lemma OtherKeysIgnored(d: Chunk, k: string, v: Json)
    requires k !in {"value", "green", "timestamp", "timestampNs", "sensor"}
    ensures BuildRow(d[k := v]) == BuildRow(d)
  {
  }

  /** The pass over the chunks of one buffer: a chunk that fails to parse (None) or
      lacks a value or a timestamp is skipped, every other chunk gives its row, in order. */
  function Rows(chunks: seq<Option<Chunk>>): (rows: seq<Row>)
    ensures |rows| <= |chunks|
  {
    if |chunks| == 0 then []
    else
      var here := if chunks[0].Some? then BuildRow(chunks[0].value) else None;
      (if here.Some? then [here.value] else []) + Rows(chunks[1..])
  }

  /** Which chunks give a row. */
  predicate Complete(c: Option<Chunk>) {
    c.Some? && BuildRow(c.value).Some?
  }

  /** The rows are the complete chunks' rows and nothing else, in order: the row of each
      chunk sits after the rows of the chunks before it. */
  lemma {:induction false} RowsSplit(a: seq<Option<Chunk>>, b: seq<Option<Chunk>>)
    ensures Rows(a + b) == Rows(a) + Rows(b)
    decreases |a|
  {
    if |a| == 0 {
      assert a + b == b;
    } else {
      assert (a + b)[1..] == a[1..] + b;
      RowsSplit(a[1..], b);
    }
  }

  /** One chunk on its own gives one row or none. */
  lemma RowsOne(c: Option<Chunk>)
    ensures Rows([c]) == if Complete(c) then [BuildRow(c.value).value] else []
  {
    assert [c][1..] == [];
  }

  /** Every chunk gives a row exactly when all of them are complete. */
  lemma {:induction false} RowsAllComplete(chunks: seq<Option<Chunk>>)
    ensures |Rows(chunks)| == |chunks| <==> forall i :: 0 <= i < |chunks| ==> Complete(chunks[i])
    decreases |chunks|
  {
    if |chunks| > 0 {
      RowsAllComplete(chunks[1..]);
      assert forall i :: 1 <= i < |chunks| ==> chunks[i] == chunks[1..][i - 1];
    }
  }

  /** The loop of the client handler, chunk by chunk: the same rows as `Rows`. */
  method CollectRows(chunks: seq<Option<Chunk>>) returns (rows: seq<Row>)
    ensures rows == Rows(chunks)
    ensures |rows| <= |chunks|
  {
    rows := [];
    var i := 0;
    while i < |chunks|
      invariant 0 <= i <= |chunks|
      invariant rows == Rows(chunks[..i])
    {
      RowsSplit(chunks[..i], [chunks[i]]);
      RowsOne(chunks[i]);
      assert chunks[..i + 1] == chunks[..i] + [chunks[i]];
      if chunks[i].Some? {
        var row := BuildRow(chunks[i].value);
        if row.Some? {
          rows := rows + [row.value];
        }
      }
      i := i + 1;
    }
    assert chunks[..i] == chunks;
  }
}
