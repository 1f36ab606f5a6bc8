/** The PPG listener: it decodes each vendor data point into a raw green-channel PPG
    sample, skipping points without a usable green value; a tracker error only stops it. */
module PpgListener {
  import opened Wrappers
  import opened Ints
  import Status
  import opened SensorData
  import opened DataPoint
  import opened TrackerLifecycle
  import Notifier

  /** The values a PPG data point carries. The timestamp is a plain `Long`, so the only
      way reading it can go wrong is an exception (None). */
  datatype PpgPoint = PpgPoint(
    timestamp: Option<Int64>,
    green: Field<Int32>,
    greenStatus: Field<Int32>)

  /** `getValue(PPG_GREEN) as? Int`: a null or a value of another type both give null
      (None inside); only an exception from the SDK fails (outer None). */
  function SafeCast(f: Field<Int32>): (r: Option<Option<Int32>>)
    ensures r.None? <==> f.Throws?
    ensures r.Some? ==> (r.value.Some? <==> f.Present?)
    ensures f.Present? ==> r == Some(Some(f.v))
  {
    match f
    case Present(v) => Some(Some(v))
    case Absent => Some(None)
    case Other => Some(None)
    case Throws => None
  }

  /** Does reading the point raise an exception? The values are read in order timestamp,
      green, status, and all three are read before the null check. */
  predicate ReadFails(p: PpgPoint) {
    p.timestamp.None? || p.green.Throws? || p.greenStatus.Other? || p.greenStatus.Throws?
  }

  /** `readValuesFromDataPoint`. */
  function Decode(p: PpgPoint): (r: Outcome<PpgData>)
    ensures r.Failed? <==> ReadFails(p)
    ensures r.Skipped? <==> !ReadFails(p) && !p.green.Present?
  {
    var green := SafeCast(p.green);
    var status := OrDefault(p.greenStatus, Status.STATUS_NONE);
    if p.timestamp.None? || green.None? || status.None? then Failed
    else if green.value.None? then Skipped
    else Published(PpgData(p.timestamp.value, green := green.value.value, greenStatus := status.value))
  }

  /** A published sample carries the point's timestamp, green value and green status
      (`STATUS_NONE` when missing); the infrared and red values are 0 and the red status
      `STATUS_NONE`. */
  lemma DecodeFields(p: PpgPoint)
    requires !ReadFails(p) && p.green.Present?
    ensures Decode(p).Published?
    ensures Decode(p).sample == PpgData(
      p.timestamp.value, p.green.v, 0, 0,
      if p.greenStatus.Absent? then Status.STATUS_NONE else p.greenStatus.v,
      Status.STATUS_NONE)
  {
  }

  /** A green value that is missing or not an `Int` skips the point, whatever its
      status, provided nothing throws. */
  lemma MissingGreenSkips(p: PpgPoint)
    requires p.green.Absent? || p.green.Other?
    requires p.timestamp.Some? && (p.greenStatus.Absent? || p.greenStatus.Present?)
    ensures Decode(p) == Skipped
  {
  }

  /** The notifier calls for a list of samples, one each, in order. */
  function PpgCalls(samples: seq<PpgData>): (calls: seq<Notifier.Call>)
    ensures |calls| == |samples|
    ensures forall i :: 0 <= i < |calls| ==> calls[i] == Notifier.OnPpgDataChanged(samples[i])
  {
    if |samples| == 0 then [] else [Notifier.OnPpgDataChanged(samples[0])] + PpgCalls(samples[1..])
  }

  lemma {:induction false} PpgCallsAppend(a: seq<PpgData>, b: seq<PpgData>)
    ensures PpgCalls(a + b) == PpgCalls(a) + PpgCalls(b)
    decreases |a|
  {
    if |a| == 0 {
      assert a + b == b;
    } else {
      assert (a + b)[1..] == a[1..] + b;
      PpgCallsAppend(a[1..], b);
    }
  }

  /** The notifier calls a batch leads to. */
  function BatchCalls(points: seq<PpgPoint>): seq<Notifier.Call> {
    PpgCalls(Samples(DecodeAll(Decode, points)))
  }

  /** The calls for a batch are the calls for its parts one after the other. */
  lemma BatchSplit(a: seq<PpgPoint>, b: seq<PpgPoint>)
    ensures BatchCalls(a + b) == BatchCalls(a) + BatchCalls(b)
  {
    DecodeAllAppend(Decode, a, b);
    SamplesAppend(DecodeAll(Decode, a), DecodeAll(Decode, b));
    PpgCallsAppend(Samples(DecodeAll(Decode, a)), Samples(DecodeAll(Decode, b)));
  }

  /** One point publishes at most one sample: one exactly when it decodes. */
  lemma OnePoint(p: PpgPoint)
    ensures BatchCalls([p])
         == if Decode(p).Published? then [Notifier.OnPpgDataChanged(Decode(p).sample)] else []
  {
    assert [p][1..] == [];
    assert DecodeAll(Decode, [p]) == [Decode(p)];
    assert DecodeAll(Decode, [p])[1..] == [];
  }

  /** `onDataReceived`: `list.forEach { readValuesFromDataPoint(it) }`. */
  method OnDataReceived(points: seq<PpgPoint>) returns (calls: seq<Notifier.Call>)
    ensures calls == BatchCalls(points)
    ensures |calls| <= |points|
  {
    calls := [];
    var i := 0;
    while i < |points|
      invariant 0 <= i <= |points|
      invariant calls == BatchCalls(points[..i])
    {
      assert points[..i + 1] == points[..i] + [points[i]];
      BatchSplit(points[..i], [points[i]]);
      OnePoint(points[i]);
      var out := Decode(points[i]);
      if out.Published? {
        calls := calls + [Notifier.OnPpgDataChanged(out.sample)];
      }
      i := i + 1;
    }
    assert points[..i] == points;
    assert |Samples(DecodeAll(Decode, points))| <= |DecodeAll(Decode, points)|;
  }
}
