/** The sample records published by the sensor listeners: a heart-rate sample with its
    packed IBI word, and a raw PPG sample. */
module SensorData {
  import opened Ints
  import Status

  /** Shift of the IBI quality flag inside the packed word. */
  const IBI_QUALITY_SHIFT: int := 15
  /** One-bit mask, declared next to the shift but not used by the record itself. */
  const IBI_MASK: Int32 := 0x1
  /** Fifteen-bit mask, declared next to the shift but not used by the record itself. */
  const IBI_QUALITY_MASK: Int32 := 0x7FFF

  /** One heart-rate sample: status code, beats per minute, the inter-beat interval
      and its quality flag. Structural equality over the four fields. */
  datatype HeartRateData = HeartRateData(
    status: Int32 := Status.STATUS_NONE,
    hr: Int32 := 0,
    ibi: Int32 := 0,
    qIbi: Int32 := 1)

  /** One raw PPG sample. The timestamp has no default; there is no IR status field.
      Structural equality over the six fields. */
  datatype PpgData = PpgData(
    timestampNs: Int64,
    green: Int32 := 0,
    ir: Int32 := 0,
    red: Int32 := 0,
    greenStatus: Int32 := Status.STATUS_NONE,
    redStatus: Int32 := Status.STATUS_NONE)

  /** `getHrIbi()`: `(qIbi shl IBI_QUALITY_SHIFT) or ibi` in 32-bit `Int` arithmetic. */
  function HrIbi(d: HeartRateData): Int32 {
    Or(Shl(d.qIbi, IBI_QUALITY_SHIFT), d.ibi)
  }

  /** The defaults: status none, heart rate 0, IBI 0, quality 1. */
  lemma HeartRateDefaults()
    ensures HeartRateData() == HeartRateData(Status.STATUS_NONE, 0, 0, 1)
    ensures HeartRateData(hr := 75) == HeartRateData(Status.STATUS_NONE, 75, 0, 1)
  {
  }

  /** The defaults of everything except the timestamp. */
  lemma PpgDefaults(t: Int64)
    ensures PpgData(t) == PpgData(t, 0, 0, 0, Status.STATUS_NONE, Status.STATUS_NONE)
    ensures PpgData(t, green := 15000, greenStatus := 0).redStatus == Status.STATUS_NONE
  {
  }

  lemma ShlBy15(q: Int32)
    ensures Shl(q, IBI_QUALITY_SHIFT) == Wrap(q * 0x8000)
  {
    Pow2Values();
    assert 15 % 32 == 15;
  }

  /** Modulo 2^32, `q * 2^15` keeps only the low 17 bits of `q`. */
  lemma MulShiftMod(q: int)
    ensures (q * 0x8000) % TWO32 == (q % 0x2_0000) * 0x8000
  {
    var j, m := q / 0x2_0000, q % 0x2_0000;
    assert q * 0x8000 == j * TWO32 + m * 0x8000;
  }

  /** The bits of `q shl 15` read as an unsigned number: the low 17 bits of `q`
      moved up by fifteen places. */
  lemma ShiftedQuality(q: Int32)
    ensures Unsigned(Shl(q, IBI_QUALITY_SHIFT)) == (q % 0x2_0000) * 0x8000
  {
    ShlBy15(q);
    MulShiftMod(q);
  }

  /** For an IBI that fits in fifteen bits, packing is arithmetic: the flag times 2^15
      plus the IBI, wrapped to 32 bits like any `Int` result. */
  lemma HrIbiValue(d: HeartRateData)
    requires 0 <= d.ibi < 0x8000
    ensures HrIbi(d) == Wrap(d.qIbi * 0x8000 + d.ibi)
  {
    var m := d.qIbi % 0x2_0000;
    ShiftedQuality(d.qIbi);
    Pow2Values();
    OrDisjoint(m, d.ibi, 15, 32);
    assert Unsigned(HrIbi(d)) == m * 0x8000 + d.ibi;
    WrapShifted(d.qIbi, d.ibi);
    UnsignedInjective(HrIbi(d), Wrap(d.qIbi * 0x8000 + d.ibi));
  }

  lemma WrapShifted(q: Int32, t: int)
    requires 0 <= t < 0x8000
    ensures Unsigned(Wrap(q * 0x8000 + t)) == (q % 0x2_0000) * 0x8000 + t
  {
    var j, m := q / 0x2_0000, q % 0x2_0000;
    assert q * 0x8000 + t == j * TWO32 + (m * 0x8000 + t);
  }

  /** With quality 0 the packed word is the IBI itself, whatever its value. */
  lemma HrIbiQualityZero(d: HeartRateData)
    requires d.qIbi == 0
    ensures HrIbi(d) == d.ibi
  {
    Pow2Values();
    ShlBy15(0);
    OrBitsCommutes(0, Unsigned(d.ibi), 32);
    OrZero(Unsigned(d.ibi), 32);
    UnsignedInjective(HrIbi(d), d.ibi);
  }

  /** A 0/1 flag over a 15-bit IBI packs without overflow into `qIbi * 2^15 + ibi`. */
  lemma HrIbiPacked(d: HeartRateData)
    requires 0 <= d.ibi < 0x8000 && (d.qIbi == 0 || d.qIbi == 1)
    ensures HrIbi(d) == d.qIbi * 0x8000 + d.ibi
  {
    HrIbiValue(d);
  }

  /** The default record packs to 0x8000: quality 1, IBI 0. */
  lemma DefaultHrIbi()
    ensures HrIbi(HeartRateData()) == 0x8000
  {
    HrIbiPacked(HeartRateData());
  }

  /** The masks declared next to the shift unpack the word again, for a 15-bit IBI and
      a 0/1 flag: `hrIbi and 0x7FFF` is the IBI and `(hrIbi shr 15) and 0x1` the flag. */
  lemma HrIbiRoundTrip(d: HeartRateData)
    requires 0 <= d.ibi < 0x8000 && (d.qIbi == 0 || d.qIbi == 1)
    ensures And(HrIbi(d), IBI_QUALITY_MASK) == d.ibi
    ensures And(Shr(HrIbi(d), IBI_QUALITY_SHIFT), IBI_MASK) == d.qIbi
  {
    HrIbiPacked(d);
    LowFifteen(d.qIbi, d.ibi);
    HrIbiFlag(d);
  }

  lemma HrIbiFlag(d: HeartRateData)
    requires 0 <= d.ibi < 0x8000 && (d.qIbi == 0 || d.qIbi == 1)
    ensures And(Shr(HrIbi(d), IBI_QUALITY_SHIFT), IBI_MASK) == d.qIbi
  {
    var w: Int32 := d.qIbi * 0x8000 + d.ibi;
    assert HrIbi(d) == w by { HrIbiPacked(d); }
    HighBits(d.qIbi, d.ibi);
  }

  lemma LowFifteen(q: Int32, t: Int32)
    requires 0 <= t < 0x8000 && (q == 0 || q == 1)
    ensures And(q * 0x8000 + t, IBI_QUALITY_MASK) == t
  {
    Pow2Values();
    AndLowMask(q, t, 15, 32);
    UnsignedInjective(And(q * 0x8000 + t, IBI_QUALITY_MASK), t);
  }

  lemma HighBits(q: Int32, t: Int32)
    requires 0 <= t < 0x8000 && (q == 0 || q == 1)
    ensures And(Shr(q * 0x8000 + t, IBI_QUALITY_SHIFT), IBI_MASK) == q
  {
    assert Shr(q * 0x8000 + t, IBI_QUALITY_SHIFT) == q by {
      Pow2Values();
      assert IBI_QUALITY_SHIFT % 32 == 15;
    }
    LowBit(q);
  }

  lemma LowBit(q: Int32)
    requires q == 0 || q == 1
    ensures And(q, IBI_MASK) == q
  {
    AndOne(q, 32);
    UnsignedInjective(And(q, IBI_MASK), q);
  }

  /** An IBI of -1 has every bit set, so it swamps the flag: the word is -1 whatever
      the quality. */
  lemma HrIbiNegativeIbi(d: HeartRateData)
    requires d.ibi == -1
    ensures HrIbi(d) == -1
  {
    Pow2Values();
    OrOnes(Unsigned(Shl(d.qIbi, IBI_QUALITY_SHIFT)), 32);
    UnsignedInjective(HrIbi(d), -1);
  }
}
