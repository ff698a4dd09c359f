/** The thermistor decoder of main.go: a two-byte big-endian ADC sample is
    turned into a temperature by a seven-region piecewise-linear calibration
    table, with 0xFFFF reserved for "no thermistor plugged in".

    The source computes in float32. Every comparison it makes is on an
    integer code below 1024, which float32 holds exactly, so region selection
    is modelled on `int`; the interpolation is modelled on `real`. */
module Thermistor {
  import opened Bytes

  /** Raw value that marks a channel with no thermistor. */
  const SENTINEL: nat := 0xFFFF

  /** The ADC has 10 bits of resolution. */
  const CODE_LIMIT: nat := 0x400

  /** Temperature reported for codes below the lowest breakpoint. */
  const MAX_TEMPERATURE: real := 105.0

  /** Temperature returned beside the no-thermistor error. */
  const NO_READING: real := -1.0

  /** Number of calibration regions. */
  const REGIONS: nat := 7

  /** Calibration table: region i is anchored at code X1[i], where it reads
      Y1[i] degrees, and falls by -SLOPE[i] degrees per code step. */
  const SLOPE: seq<real> := [-0.07347, -0.07835, -0.10895, -0.15663, -0.25263, -0.37143, -0.52632]
  const X1: seq<int> := [631, 382, 248, 161, 111, 74, 54]
  const Y1: seq<real> := [18.0, 38.0, 53.0, 67.0, 80.0, 94.0, 105.0]

  // ---------------------------------------------------------------------------
  // Unpacking the sample
  // ---------------------------------------------------------------------------

  /** What `binary.BigEndian.Uint32` yields on a byte slice: a word, or the
      index-out-of-range panic it raises on a slice shorter than four bytes. */
  datatype Unpacked = Word(value: nat) | IndexPanic

  /** `unpackWord` as written: a 32-bit big-endian read. */
  function UnpackWordAsWritten(reading: seq<byte>): (u: Unpacked)
    ensures u.IndexPanic? <==> |reading| < 4
    ensures u.Word? ==> u.value < 0x1_0000_0000
    ensures u.Word? ==> u.value % 0x100 == reading[3] as nat
    ensures u.Word? ==> u.value == UnpackWord(reading) * 0x10000 + UnpackWord(reading[2..])
  {
    if |reading| < 4 then IndexPanic
    else
      var hi := reading[0] as nat * 0x100 + reading[1] as nat;
      var lo := reading[2] as nat * 0x100 + reading[3] as nat;
      assert hi < 0x10000 && lo < 0x10000;
      Word(hi * 0x10000 + lo)
  }

  /** The decode loop hands `unpackWord` two-byte slices, so the code as
      written panics on every sample before the sentinel test is reached. */
  lemma AsWrittenPanicsOnEverySample(reading: seq<byte>)
    requires |reading| == 2
    ensures UnpackWordAsWritten(reading) == IndexPanic
  {
  }

  /** The evidently intended `unpackWord`: a 16-bit big-endian read of the
      first two bytes. */
  function UnpackWord(reading: seq<byte>): (w: nat)
    requires |reading| >= 2
    ensures w < 0x10000
    ensures w / 0x100 == reading[0] as nat && w % 0x100 == reading[1] as nat
  {
    reading[0] as nat * 0x100 + reading[1] as nat
  }

  /** Big-endian encoding of a 16-bit value, the inverse of UnpackWord. */
  function PackWord(w: nat): (b: seq<byte>)
    requires w < 0x10000
    ensures |b| == 2
  {
    [(w / 0x100) as byte, (w % 0x100) as byte]
  }

  lemma UnpackPack(w: nat)
    requires w < 0x10000
    ensures UnpackWord(PackWord(w)) == w
  {
  }

  lemma PackUnpack(b: seq<byte>)
    requires |b| == 2
    ensures PackWord(UnpackWord(b)) == b
  {
    var w := UnpackWord(b);
    assert PackWord(w)[0] == b[0] && PackWord(w)[1] == b[1];
  }

  /** `raw &= 0x3FF`: for a non-negative value, keeping the low ten bits is
      the remainder modulo 2^10. */
  function Mask(raw: nat): (code: nat)
    ensures code < CODE_LIMIT
    ensures raw < CODE_LIMIT ==> code == raw
    ensures (raw - code) % CODE_LIMIT == 0
  {
    raw % CODE_LIMIT
  }

  // ---------------------------------------------------------------------------
  // Calibration regions
  // ---------------------------------------------------------------------------

  /** The branch of the if/else chain a code takes: one of the seven linear
      segments, or the saturation branch below the table. */
  datatype Region = Segment(index: nat) | Saturated

  /** The if/else chain of `convertTempReading`, tested in the same order. */
  function SelectRegion(code: int): (r: Region)
    ensures r.Segment? ==> r.index < REGIONS && X1[r.index] <= code
    ensures r.Saturated? ==> code < X1[REGIONS - 1]
  {
    if code >= X1[0] then Segment(0)
    else if X1[1] <= code && code <= X1[0] - 1 then Segment(1)
    else if X1[2] <= code && code <= X1[1] - 1 then Segment(2)
    else if X1[3] <= code && code <= X1[2] - 1 then Segment(3)
    else if X1[4] <= code && code <= X1[3] - 1 then Segment(4)
    else if X1[5] <= code && code <= X1[4] - 1 then Segment(5)
    else if X1[6] <= code && code <= X1[5] - 1 then Segment(6)
    else Saturated
  }

  /** Reference definition of the code interval of region i: region 0 is
      open above; region i > 0 runs from its own breakpoint up to one below
      the previous region's breakpoint. */
  predicate InRegion(i: nat, code: int) {
    i < REGIONS &&
    if i == 0 then code >= X1[0] else X1[i] <= code <= X1[i - 1] - 1
  }

  /** The breakpoints fall strictly from region to region. */
  lemma BreakpointsDecrease(i: nat, j: nat)
    requires i < j < REGIONS
    ensures X1[j] < X1[i]
  {
  }

  /** The chain picks region i exactly when the code lies in region i's
      interval, and saturates exactly below the last breakpoint. */
  lemma SelectRegionCorrect(code: int, i: nat)
    ensures SelectRegion(code) == Segment(i) <==> InRegion(i, code)
    ensures SelectRegion(code) == Saturated <==> code < X1[REGIONS - 1]
  {
  }

  /** The intervals are disjoint ... */
  lemma RegionsDisjoint(code: int, i: nat, j: nat)
    requires InRegion(i, code) && InRegion(j, code)
    ensures i == j
  {
  }

  /** ... and together with the saturation band they cover every code. */
  lemma RegionsCover(code: int)
    ensures code < X1[REGIONS - 1] || exists i: nat :: InRegion(i, code)
  {
    match SelectRegion(code)
    case Segment(i) =>
      SelectRegionCorrect(code, i);
    case Saturated =>
  }

  /** A code one below breakpoint i belongs to region i + 1 (the one anchored
      lower), and breakpoint i itself to region i. */
  lemma BoundaryOwnership(i: nat)
    requires i < REGIONS
    ensures SelectRegion(X1[i]) == Segment(i)
    ensures SelectRegion(X1[i] - 1) == if i + 1 < REGIONS then Segment(i + 1) else Saturated
  {
  }

  // ---------------------------------------------------------------------------
  // Interpolation
  // ---------------------------------------------------------------------------

  /** Linear interpolation in region i, anchored at its breakpoint: the
      reference temperature at the breakpoint, falling above it. */
  function Interpolate(i: nat, code: int): (t: real)
    requires i < REGIONS
    ensures code == X1[i] ==> t == Y1[i]
    ensures code > X1[i] ==> t < Y1[i]
    ensures code < X1[i] ==> t > Y1[i]
  {
    SLOPE[i] * (code - X1[i]) as real + Y1[i]
  }

  /** The temperature the source computes for a masked code, over exact
      real arithmetic: never above the saturation value, and exactly that
      value below the lowest breakpoint. */
  function Temperature(code: int): (t: real)
    ensures code < X1[REGIONS - 1] ==> t == MAX_TEMPERATURE
  {
    match SelectRegion(code)
    case Segment(i) => Interpolate(i, code)
    case Saturated => MAX_TEMPERATURE
  }

  /** At every breakpoint the decoder yields the table's reference
      temperature; in particular code 54 gives 105, the saturation value. */
  lemma TemperatureAtBreakpoints(i: nat)
    requires i < REGIONS
    ensures Temperature(X1[i]) == Y1[i]
    ensures Temperature(X1[REGIONS - 1]) == MAX_TEMPERATURE
  {
    BoundaryOwnership(i);
    BoundaryOwnership(REGIONS - 1);
  }

  /** One code step up never raises the temperature, inside a region or
      across any region boundary. */
  lemma TemperatureStep(code: int)
    ensures Temperature(code + 1) <= Temperature(code)
  {
    var r, s := SelectRegion(code), SelectRegion(code + 1);
    if r == s {
      if r.Segment? {
        assert SLOPE[r.index] < 0.0;
      }
    } else {
      // The step crosses into the next region up, entering it at its anchor.
      match r
      case Saturated =>
        assert code + 1 == X1[6];
      case Segment(i) =>
        assert 1 <= i && code + 1 == X1[i - 1];
    }
  }

  /** Temperature is non-increasing in the code over the whole integer line. */
  lemma {:induction false} TemperatureMonotone(lo: int, hi: int)
    requires lo <= hi
    ensures Temperature(hi) <= Temperature(lo)
    decreases hi - lo
  {
    if lo < hi {
      TemperatureMonotone(lo, hi - 1);
      TemperatureStep(hi - 1);
    }
  }

  /** Over the ADC's codes the decoded temperature lies between the value at
      code 1023 and the saturation value. */
  lemma TemperatureRange(code: int)
    requires 0 <= code < CODE_LIMIT
    ensures Temperature(CODE_LIMIT - 1) <= Temperature(code) <= MAX_TEMPERATURE
  {
    TemperatureMonotone(code, CODE_LIMIT - 1);
    TemperatureMonotone(0, code);
    assert Temperature(0) == MAX_TEMPERATURE;
  }

  // ---------------------------------------------------------------------------
  // convertTempReading
  // ---------------------------------------------------------------------------

  /** The Go pair (float32, error): either a temperature and no error, or -1
      and the "No thermistor plugged in." error. */
  datatype Conversion = Conversion(temperature: real, noThermistor: bool)

  /** `convertTempReading`, with the 16-bit unpacking. The sentinel test is
      made on the unmasked value; the region test on the masked code. */
  function ConvertTempReading(reading: seq<byte>): (c: Conversion)
    requires |reading| >= 2
    ensures c.noThermistor <==> reading[0] == 0xFF && reading[1] == 0xFF
    ensures c.noThermistor ==> c.temperature == NO_READING
  {
    var raw := UnpackWord(reading);
    if raw == SENTINEL then Conversion(NO_READING, true)
    else Conversion(Temperature(Mask(raw)), false)
  }

  /** The code the table is read at is formed by the low two bits of the
      first byte and the whole second byte. */
  lemma ConvertedTemperature(reading: seq<byte>)
    requires |reading| >= 2
    ensures !ConvertTempReading(reading).noThermistor ==>
      ConvertTempReading(reading).temperature == Temperature((reading[0] as nat % 4) * 0x100 + reading[1] as nat)
  {
    MaskedCode(reading[0] as nat, reading[1] as nat);
  }

  /** Masking a big-endian sample to ten bits keeps the low two bits of its
      high byte and all of its low byte. */
  lemma MaskedCode(hi: nat, lo: nat)
    requires hi < 0x100 && lo < 0x100
    ensures Mask(hi * 0x100 + lo) == (hi % 4) * 0x100 + lo
  {
    var q, m := hi / 4, hi % 4;
    assert hi * 0x100 + lo == q * CODE_LIMIT + (m * 0x100 + lo);
    assert m * 0x100 + lo < CODE_LIMIT;
  }

  /** Masking happens after the sentinel test: 0x03FF decodes normally as
      code 1023, and 0xFFFF, whose low ten bits are the same, does not. */
  lemma SentinelBeforeMask()
    ensures ConvertTempReading([0x03, 0xFF]) == Conversion(Temperature(1023), false)
    ensures ConvertTempReading([0xFF, 0xFF]) == Conversion(NO_READING, true)
    ensures Mask(0x03FF) == Mask(SENTINEL)
  {
  }

  /** Apart from the sentinel, only the low ten bits of a sample matter. */
  lemma OnlyLowBitsMatter(a: nat, b: nat)
    requires a < 0x10000 && b < 0x10000
    requires a != SENTINEL && b != SENTINEL
    requires a % CODE_LIMIT == b % CODE_LIMIT
    ensures ConvertTempReading(PackWord(a)) == ConvertTempReading(PackWord(b))
  {
    UnpackPack(a);
    UnpackPack(b);
  }

  /** Encoding a breakpoint code as two big-endian bytes and decoding it
      gives back that region's reference temperature. */
  lemma BreakpointRoundTrip(i: nat)
    requires i < REGIONS
    ensures ConvertTempReading(PackWord(X1[i] as nat)) == Conversion(Y1[i], false)
  {
    UnpackPack(X1[i] as nat);
    TemperatureAtBreakpoints(i);
  }
}
