/** Sensor status codes shared by the heart-rate and PPG samples. */
module Status {

  const STATUS_NONE: int := 0
  const STATUS_FIND_HR: int := 1
  const STATUS_ATTACHED: int := -1
  const STATUS_DETECT_MOVE: int := -2
  const STATUS_DETACHED: int := -3
  const STATUS_LOW_RELIABILITY: int := -8
  const STATUS_VERY_LOW_RELIABILITY: int := -10
  const STATUS_NO_DATA_FLUSH: int := -99

  /** All eight codes, in declaration order. */
  const AllCodes: seq<int> := [STATUS_NONE, STATUS_FIND_HR, STATUS_ATTACHED, STATUS_DETECT_MOVE,
                               STATUS_DETACHED, STATUS_LOW_RELIABILITY, STATUS_VERY_LOW_RELIABILITY,
                               STATUS_NO_DATA_FLUSH]

  /** The codes are pairwise distinct, so a code identifies its meaning. */
  lemma CodesDistinct()
    ensures |AllCodes| == 8
    ensures forall i, j :: 0 <= i < j < |AllCodes| ==> AllCodes[i] != AllCodes[j]
  {
  }

  /** "Finding heart rate" is the only positive code; "none" is zero and every other code is negative. */
  lemma OnlyFindHrPositive()
    ensures forall c :: c in AllCodes && c > 0 ==> c == STATUS_FIND_HR
    ensures forall c :: c in AllCodes && c != STATUS_NONE && c != STATUS_FIND_HR ==> c < 0
  {
  }
}
