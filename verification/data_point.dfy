/** What the sensor listeners read from the vendor SDK: one value of a data point, the
    result of decoding a point, and the errors a tracker reports. */
module DataPoint {
  import opened Wrappers

  /** One `getValue` of a data point: no value (null), a value of the expected type, a
      value of some other type, or an exception from the SDK itself. */
  datatype Field<T> = Absent | Present(v: T) | Other | Throws

  /** `getValue(key) ?: default` assigned to a non-null variable: a null becomes the
      default, a value of another type fails the cast. None stands for an exception. */
  function OrDefault<T>(f: Field<T>, default: T): (r: Option<T>)
    ensures r.None? <==> f.Other? || f.Throws?
    ensures f.Absent? ==> r == Some(default)
    ensures f.Present? ==> r == Some(f.v)
  {
    match f
    case Absent => Some(default)
    case Present(v) => Some(v)
    case Other => None
    case Throws => None
  }

  /** How reading one point ended: a sample handed on, a point skipped on purpose, or an
      exception caught and logged. */
  datatype Outcome<T> = Published(sample: T) | Skipped | Failed

  /** The error kinds a tracker reports; `onError` may also receive null. */
  datatype TrackerError = PermissionError | SdkPolicyError | OtherError

  /** How `onError` classifies what it was given, for its log line. */
  datatype ErrorKind = NoPermission | PolicyError | Unknown

  function Classify(e: Option<TrackerError>): (k: ErrorKind)
    ensures k == NoPermission <==> e == Some(PermissionError)
    ensures k == PolicyError <==> e == Some(SdkPolicyError)
  {
    match e
    case Some(PermissionError) => NoPermission
    case Some(SdkPolicyError) => PolicyError
    case _ => Unknown
  }

  /** The outcome of every point of a batch, in list order, for a listener whose
      `readValuesFromDataPoint` is `decode`. */
  function DecodeAll<P, T>(decode: P -> Outcome<T>, points: seq<P>): (outs: seq<Outcome<T>>)
    ensures |outs| == |points|
    ensures forall i :: 0 <= i < |points| ==> outs[i] == decode(points[i])
  {
    if |points| == 0 then [] else [decode(points[0])] + DecodeAll(decode, points[1..])
  }

  lemma DecodeAllAppend<P, T>(decode: P -> Outcome<T>, a: seq<P>, b: seq<P>)
    ensures DecodeAll(decode, a + b) == DecodeAll(decode, a) + DecodeAll(decode, b)
  {
  }

  /** The samples a batch of outcomes hands on, in order. */
  function Samples<T>(outs: seq<Outcome<T>>): (r: seq<T>)
    ensures |r| <= |outs|
  {
    if |outs| == 0 then []
    else (if outs[0].Published? then [outs[0].sample] else []) + Samples(outs[1..])
  }

  lemma {:induction false} SamplesAppend<T>(a: seq<Outcome<T>>, b: seq<Outcome<T>>)
    ensures Samples(a + b) == Samples(a) + Samples(b)
    decreases |a|
  {
    if |a| == 0 {
      assert a + b == b;
    } else {
      var head := if a[0].Published? then [a[0].sample] else [];
      assert (a + b)[0] == a[0];
      assert (a + b)[1..] == a[1..] + b;
      assert Samples(a + b) == head + Samples(a[1..] + b);
      SamplesAppend(a[1..], b);
      assert Samples(a) == head + Samples(a[1..]);
      assert head + (Samples(a[1..]) + Samples(b)) == (head + Samples(a[1..])) + Samples(b);
    }
  }
}
