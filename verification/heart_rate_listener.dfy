/** The heart-rate listener: it decodes each vendor data point into a heart-rate sample
    and hands the sample to the notifier; a tracker error only stops it. */
module HeartRateListener {
  import opened Wrappers
  import opened Ints
  import Status
  import opened SensorData
  import opened DataPoint
  import opened TrackerLifecycle
  import Notifier

  /** The four values a heart-rate data point carries. */
  datatype HrPoint = HrPoint(
    status: Field<Int32>,
    hr: Field<Int32>,
    ibiList: Field<seq<Int32>>,
    ibiStatusList: Field<seq<Int32>>)

  /** `list?.lastOrNull() ?: default` on a `List<Int>?` read from the point. None stands
      for an exception while reading or casting. */
  function LastOr(f: Field<seq<Int32>>, default: Int32): (r: Option<Int32>)
    ensures r.None? <==> f.Other? || f.Throws?
    ensures f.Absent? ==> r == Some(default)
    ensures f.Present? && |f.v| == 0 ==> r == Some(default)
    ensures f.Present? && |f.v| > 0 ==> r == Some(f.v[|f.v| - 1])
  {
    match f
    case Absent => Some(default)
    case Present(xs) => Some(LastOrNone(Some(xs)).GetOr(default))
    case Other => None
    case Throws => None
  }

  /** Does reading the point raise an exception? */
  predicate ReadFails(p: HrPoint) {
    p.status.Other? || p.status.Throws? || p.hr.Other? || p.hr.Throws?
    || p.ibiList.Other? || p.ibiList.Throws? || p.ibiStatusList.Other? || p.ibiStatusList.Throws?
  }

  /** `readValuesFromDataPoint`: a sample from the four values with their defaults, or
      a caught exception. A heart-rate point is never skipped. */
  function Decode(p: HrPoint): (r: Outcome<HeartRateData>)
    ensures !r.Skipped?
    ensures r.Failed? <==> ReadFails(p)
  {
    var status, hr := OrDefault(p.status, Status.STATUS_NONE), OrDefault(p.hr, 0);
    var ibi, qIbi := LastOr(p.ibiList, 0), LastOr(p.ibiStatusList, 1);
    if status.Some? && hr.Some? && ibi.Some? && qIbi.Some? then
      Published(HeartRateData(status.value, hr.value, ibi.value, qIbi.value))
    else Failed
  }

  /** The fields of a decoded sample: a missing status is `STATUS_NONE`, a missing
      heart rate 0, the IBI the last of its list (0 when the list is null or empty), and
      the IBI quality the last of its own list (1 when null or empty), whatever the IBI
      list holds. */
  lemma DecodeFields(p: HrPoint)
    requires !ReadFails(p)
    ensures Decode(p).Published?
    ensures Decode(p).sample.status == (if p.status.Absent? then Status.STATUS_NONE else p.status.v)
    ensures Decode(p).sample.hr == (if p.hr.Absent? then 0 else p.hr.v)
    ensures Decode(p).sample.ibi
         == (if p.ibiList.Present? && |p.ibiList.v| > 0 then p.ibiList.v[|p.ibiList.v| - 1] else 0)
    ensures Decode(p).sample.qIbi
         == (if p.ibiStatusList.Present? && |p.ibiStatusList.v| > 0
             then p.ibiStatusList.v[|p.ibiStatusList.v| - 1] else 1)
  {
  }

  /** The IBI quality does not depend on the IBI list. */
  lemma QualityIndependentOfIbi(p: HrPoint, other: Field<seq<Int32>>)
    requires !ReadFails(p) && !ReadFails(p.(ibiList := other))
    ensures Decode(p.(ibiList := other)).sample.qIbi == Decode(p).sample.qIbi
  {
  }

  /** A point with IBIs 700, 750 and 820 gives the IBI 820. */
  lemma LastIbiExample()
    ensures var p := HrPoint(Present(0), Present(72), Present([700, 750, 820]), Present([0, 1, 1]));
      Decode(p) == Published(HeartRateData(0, 72, 820, 1))
  {
  }

  /** A point with nothing in it gives the default sample. */
  lemma EmptyPointIsDefault()
    ensures Decode(HrPoint(Absent, Absent, Absent, Present([]))) == Published(HeartRateData())
  {
  }

  /** The notifier calls for a list of samples, one each, in order. */
  function HrCalls(samples: seq<HeartRateData>): (calls: seq<Notifier.Call>)
    ensures |calls| == |samples|
    ensures forall i :: 0 <= i < |calls| ==> calls[i] == Notifier.OnHeartRateTrackerDataChanged(samples[i])
  {
    if |samples| == 0 then [] else [Notifier.OnHeartRateTrackerDataChanged(samples[0])] + HrCalls(samples[1..])
  }

  lemma {:induction false} HrCallsAppend(a: seq<HeartRateData>, b: seq<HeartRateData>)
    ensures HrCalls(a + b) == HrCalls(a) + HrCalls(b)
    decreases |a|
  {
    if |a| == 0 {
      assert a + b == b;
    } else {
      assert (a + b)[1..] == a[1..] + b;
      HrCallsAppend(a[1..], b);
    }
  }

  /** The notifier calls a batch leads to. */
  function BatchCalls(points: seq<HrPoint>): seq<Notifier.Call> {
    HrCalls(Samples(DecodeAll(Decode, points)))
  }

  /** The calls for a batch are the calls for its parts one after the other: a point
      whose reading fails does not change what the points around it publish. */
  lemma BatchSplit(a: seq<HrPoint>, b: seq<HrPoint>)
    ensures BatchCalls(a + b) == BatchCalls(a) + BatchCalls(b)
  {
    DecodeAllAppend(Decode, a, b);
    SamplesAppend(DecodeAll(Decode, a), DecodeAll(Decode, b));
    HrCallsAppend(Samples(DecodeAll(Decode, a)), Samples(DecodeAll(Decode, b)));
  }

  /** One point publishes exactly one sample when it reads cleanly and none otherwise. */
  lemma OnePoint(p: HrPoint)
    ensures BatchCalls([p])
         == if ReadFails(p) then [] else [Notifier.OnHeartRateTrackerDataChanged(Decode(p).sample)]
  {
    assert [p][1..] == [];
    assert DecodeAll(Decode, [p]) == [Decode(p)];
    assert DecodeAll(Decode, [p])[1..] == [];
  }

  /** `onDataReceived`: `list.forEach { readValuesFromDataPoint(it) }`. */
  method OnDataReceived(points: seq<HrPoint>) returns (calls: seq<Notifier.Call>)
    ensures calls == BatchCalls(points)
    ensures |calls| <= |points|
  {
    calls := [];
    var i := 0;
    while i < |points|
      invariant 0 <= i <= |points|
      invariant calls == BatchCalls(points[..i])
    {
      assert points[..i + 1] == points[..i] + [points[i]];
      BatchSplit(points[..i], [points[i]]);
      OnePoint(points[i]);
      var out := Decode(points[i]);
      if out.Published? {
        calls := calls + [Notifier.OnHeartRateTrackerDataChanged(out.sample)];
      }
      i := i + 1;
    }
    assert points[..i] == points;
    assert |Samples(DecodeAll(Decode, points))| <= |DecodeAll(Decode, points)|;
  }
}
