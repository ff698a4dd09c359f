/** The test script's `main`: drive the ADC through probe, channel select,
    verify, configure and conversion on the data session, read all channels
    back, release both sessions, then decode channel by channel. */
module Acquisition {
  import opened Bytes
  import opened MockBus
  import opened Thermistor

  /** Number of thermistor channels the script reads (`thermCount`). */
  const THERM_COUNT: nat := 12

  /** Settle delays, in milliseconds. */
  const PIN_SETTLE_MS: nat := 1
  const CONVERSION_MS: nat := 10

  // ---------------------------------------------------------------------------
  // The call order, phase by phase
  // ---------------------------------------------------------------------------

  /** Power the device: drive GPIOL0 high. */
  const POWER: seq<Call> := [PinHigh(GPIOL0)]

  /** Settle, then probe the read address. */
  const PROBE: seq<Call> := [Sleep(PIN_SETTLE_MS), Call.Start, Write(READ_ADDRESS)]

  /** Read the probe's byte with a NACK, restore ACKs, stop ... */
  const PROBE_READ: seq<Call> := [SendNacks, Read(1), SendAcks, Call.Stop]

  /** ... then select the channel in a frame of its own. */
  const CHANNEL_WRITE: seq<Call> := [Call.Start, Write(SELECT_CHANNEL), Call.Stop]

  const SELECT: seq<Call> := PROBE_READ + CHANNEL_WRITE

  /** Read one byte back at the read address; the byte is not examined. */
  const VERIFY: seq<Call> := [Call.Start, Write(READ_ADDRESS), SendNacks, Read(1), Call.Stop]

  /** With ACKs on, open a frame and write the configuration register. */
  const CONFIG: seq<Call> := [SendAcks, Call.Start, Write(CONFIGURE)]

  /** Repeated start, register read (which starts the conversion), settle,
      then read every channel in one frame. */
  const TRIGGER: seq<Call> :=
    [Call.Start, Write(READ_REGISTER), Sleep(CONVERSION_MS), Read(2 * THERM_COUNT)]

  /** Stop and release both sessions. */
  const RELEASE: seq<Call> := [Call.Stop, Close(Data), Close(Gpio)]

  /** The no-ACK path ends the process with status 1. */
  const EXIT: seq<Call> := [Exit(1)]

  /** Whole trace when the device acknowledges the probe. */
  const ACK_TRACE: seq<Call> := POWER + PROBE + SELECT + VERIFY + CONFIG + TRIGGER + RELEASE

  /** Whole trace when it does not. */
  const NACK_TRACE: seq<Call> := POWER + PROBE + RELEASE + EXIT

  // ---------------------------------------------------------------------------
  // What each phase does to the bus
  // ---------------------------------------------------------------------------

  lemma PowerFacts(s: State)
    ensures Replay(s, POWER) == s && Reads(s, POWER) == [] && RepeatedStarts(s, POWER) == 0
  {
    Unfold(s, POWER, 0);
    assert POWER[0..] == POWER;
    Empty(Step(s, POWER[0]), POWER[1..]);
  }

  lemma ProbeFacts(s: State)
    ensures Replay(s, PROBE) == s.(framed := true) && Reads(s, PROBE) == []
    ensures RepeatedStarts(s, PROBE) == if s.framed then 1 else 0
  {
    var t := PROBE;
    Unfold(s, t, 0); var s1 := Step(s, t[0]);
    Unfold(s1, t, 1); var s2 := Step(s1, t[1]);
    Unfold(s2, t, 2); var s3 := Step(s2, t[2]);
    assert s1 == s && s3 == s2 == s.(framed := true);
    assert t[0..] == t;
    Empty(s3, t[3..]);
  }

  lemma ProbeReadFacts(s: State)
    requires s.framed
    ensures Replay(s, PROBE_READ) == s.(framed := false, acking := true)
    ensures Reads(s, PROBE_READ) == [ReadCtx(1, false, true)] && RepeatedStarts(s, PROBE_READ) == 0
  {
    var t := PROBE_READ;
    Unfold(s, t, 0); var s1 := Step(s, t[0]);
    Unfold(s1, t, 1); var s2 := Step(s1, t[1]);
    Unfold(s2, t, 2); var s3 := Step(s2, t[2]);
    Unfold(s3, t, 3); var s4 := Step(s3, t[3]);
    assert s2 == s1 == s.(acking := false) && s3 == s.(acking := true);
    assert s4 == s.(acking := true, framed := false);
    assert t[0..] == t;
    Empty(s4, t[4..]);
  }

  lemma ChannelWriteFacts(s: State)
    requires !s.framed
    ensures Replay(s, CHANNEL_WRITE) == s && Reads(s, CHANNEL_WRITE) == []
    ensures RepeatedStarts(s, CHANNEL_WRITE) == 0
  {
    var t := CHANNEL_WRITE;
    Unfold(s, t, 0); var s1 := Step(s, t[0]);
    Unfold(s1, t, 1); var s2 := Step(s1, t[1]);
    Unfold(s2, t, 2); var s3 := Step(s2, t[2]);
    assert s2 == s1 == s.(framed := true) && s3 == s;
    assert t[0..] == t;
    Empty(s3, t[3..]);
  }

  lemma SelectFacts(s: State)
    requires s.framed
    ensures Replay(s, SELECT) == s.(framed := false, acking := true)
    ensures Reads(s, SELECT) == [ReadCtx(1, false, true)] && RepeatedStarts(s, SELECT) == 0
  {
    ProbeReadFacts(s);
    ChannelWriteFacts(s.(framed := false, acking := true));
    Concat(s, PROBE_READ, CHANNEL_WRITE);
    assert [ReadCtx(1, false, true)] + [] == [ReadCtx(1, false, true)];
  }

  lemma VerifyFacts(s: State)
    ensures Replay(s, VERIFY) == s.(framed := false, acking := false)
    ensures Reads(s, VERIFY) == [ReadCtx(1, false, true)]
    ensures RepeatedStarts(s, VERIFY) == if s.framed then 1 else 0
  {
    var t := VERIFY;
    Unfold(s, t, 0); var s1 := Step(s, t[0]);
    Unfold(s1, t, 1); var s2 := Step(s1, t[1]);
    Unfold(s2, t, 2); var s3 := Step(s2, t[2]);
    Unfold(s3, t, 3); var s4 := Step(s3, t[3]);
    Unfold(s4, t, 4); var s5 := Step(s4, t[4]);
    assert s2 == s1 == s.(framed := true) && s4 == s3 == s.(framed := true, acking := false);
    assert s5 == s.(framed := false, acking := false);
    assert t[0..] == t;
    Empty(s5, t[5..]);
  }

  lemma ConfigFacts(s: State)
    ensures Replay(s, CONFIG) == s.(framed := true, acking := true) && Reads(s, CONFIG) == []
    ensures RepeatedStarts(s, CONFIG) == if s.framed then 1 else 0
  {
    var t := CONFIG;
    Unfold(s, t, 0); var s1 := Step(s, t[0]);
    Unfold(s1, t, 1); var s2 := Step(s1, t[1]);
    Unfold(s2, t, 2); var s3 := Step(s2, t[2]);
    assert s1 == s.(acking := true) && s3 == s2 == s.(acking := true, framed := true);
    assert t[0..] == t;
    Empty(s3, t[3..]);
  }

  lemma TriggerFacts(s: State)
    requires s.framed
    ensures Replay(s, TRIGGER) == s
    ensures Reads(s, TRIGGER) == [ReadCtx(2 * THERM_COUNT, s.acking, true)]
    ensures RepeatedStarts(s, TRIGGER) == 1
  {
    var t := TRIGGER;
    Unfold(s, t, 0); var s1 := Step(s, t[0]);
    Unfold(s1, t, 1); var s2 := Step(s1, t[1]);
    Unfold(s2, t, 2); var s3 := Step(s2, t[2]);
    Unfold(s3, t, 3); var s4 := Step(s3, t[3]);
    assert s4 == s3 == s2 == s1 == s;
    assert t[0..] == t;
    Empty(s4, t[4..]);
  }

  lemma ReleaseFacts(s: State)
    ensures Replay(s, RELEASE) == s.(framed := false, dataOpen := false, gpioOpen := false)
    ensures Reads(s, RELEASE) == [] && RepeatedStarts(s, RELEASE) == 0
  {
    var t := RELEASE;
    Unfold(s, t, 0); var s1 := Step(s, t[0]);
    Unfold(s1, t, 1); var s2 := Step(s1, t[1]);
    Unfold(s2, t, 2); var s3 := Step(s2, t[2]);
    assert s1 == s.(framed := false) && s2 == s.(framed := false, dataOpen := false);
    assert s3 == s.(framed := false, dataOpen := false, gpioOpen := false);
    assert t[0..] == t;
    Empty(s3, t[3..]);
  }

  lemma ExitFacts(s: State)
    ensures Replay(s, EXIT) == s.(exited := true) && Reads(s, EXIT) == [] && RepeatedStarts(s, EXIT) == 0
  {
    Unfold(s, EXIT, 0);
    assert EXIT[0..] == EXIT;
    Empty(Step(s, EXIT[0]), EXIT[1..]);
  }

  // ---------------------------------------------------------------------------
  // Properties of the two whole traces
  // ---------------------------------------------------------------------------

  /** The ACK path up to the open probe frame. */
  lemma AckUpToProbe(s: State)
    ensures Replay(s, POWER + PROBE) == s.(framed := true) && Reads(s, POWER + PROBE) == []
    ensures RepeatedStarts(s, POWER + PROBE) == if s.framed then 1 else 0
  {
    PowerFacts(s);
    ProbeFacts(s);
    Concat(s, POWER, PROBE);
  }

  /** ... through the channel select ... */
  lemma AckUpToSelect(s: State)
    ensures Replay(s, POWER + PROBE + SELECT) == s.(framed := false, acking := true)
    ensures Reads(s, POWER + PROBE + SELECT) == [ReadCtx(1, false, true)]
    ensures RepeatedStarts(s, POWER + PROBE + SELECT) == if s.framed then 1 else 0
  {
    AckUpToProbe(s);
    SelectFacts(s.(framed := true));
    Concat(s, POWER + PROBE, SELECT);
  }

  /** ... through the verify read ... */
  lemma AckUpToVerify(s: State)
    ensures Replay(s, POWER + PROBE + SELECT + VERIFY) == s.(framed := false, acking := false)
    ensures Reads(s, POWER + PROBE + SELECT + VERIFY) == [ReadCtx(1, false, true), ReadCtx(1, false, true)]
    ensures RepeatedStarts(s, POWER + PROBE + SELECT + VERIFY) == if s.framed then 1 else 0
  {
    AckUpToSelect(s);
    VerifyFacts(s.(framed := false, acking := true));
    Concat(s, POWER + PROBE + SELECT, VERIFY);
  }

  /** ... through the configuration write ... */
  lemma AckUpToConfig(s: State)
    ensures Replay(s, POWER + PROBE + SELECT + VERIFY + CONFIG) == s.(framed := true, acking := true)
    ensures Reads(s, POWER + PROBE + SELECT + VERIFY + CONFIG) == [ReadCtx(1, false, true), ReadCtx(1, false, true)]
    ensures RepeatedStarts(s, POWER + PROBE + SELECT + VERIFY + CONFIG) == if s.framed then 1 else 0
  {
    AckUpToVerify(s);
    ConfigFacts(s.(framed := false, acking := false));
    Concat(s, POWER + PROBE + SELECT + VERIFY, CONFIG);
  }

  /** ... through the batch read. */
  lemma AckUpToRead(s: State)
    ensures Replay(s, POWER + PROBE + SELECT + VERIFY + CONFIG + TRIGGER) == s.(framed := true, acking := true)
    ensures Reads(s, POWER + PROBE + SELECT + VERIFY + CONFIG + TRIGGER) ==
      [ReadCtx(1, false, true), ReadCtx(1, false, true), ReadCtx(2 * THERM_COUNT, true, true)]
    ensures RepeatedStarts(s, POWER + PROBE + SELECT + VERIFY + CONFIG + TRIGGER) == if s.framed then 2 else 1
  {
    AckUpToConfig(s);
    TriggerFacts(s.(framed := true, acking := true));
    Concat(s, POWER + PROBE + SELECT + VERIFY + CONFIG, TRIGGER);
  }

  /** On the ACK path, whatever the initial ACK policy: the two single-byte
      reads are NACKed, the batch read of all channels is ACKed, and every
      read lies inside a start/stop frame. Exactly one start is issued inside
      an open frame on a bus that starts idle (the one that switches from the
      configuration write to the register read), and the path ends outside a
      frame, ACKing, with both sessions closed. */
  lemma AckPathFacts(s: State)
    ensures Reads(s, ACK_TRACE) ==
      [ReadCtx(1, false, true), ReadCtx(1, false, true), ReadCtx(2 * THERM_COUNT, true, true)]
    ensures RepeatedStarts(s, ACK_TRACE) == if s.framed then 2 else 1
    ensures Replay(s, ACK_TRACE) ==
      s.(framed := false, acking := true, dataOpen := false, gpioOpen := false)
  {
    AckUpToRead(s);
    ReleaseFacts(s.(framed := true, acking := true));
    Concat(s, POWER + PROBE + SELECT + VERIFY + CONFIG + TRIGGER, RELEASE);
  }

  /** On the no-ACK path nothing is ever read; the probe frame is stopped,
      both sessions are closed and the process exits. */
  lemma NackPathFacts(s: State)
    ensures forall k :: 0 <= k < |NACK_TRACE| ==> !NACK_TRACE[k].Read?
    ensures Reads(s, NACK_TRACE) == []
    ensures RepeatedStarts(s, NACK_TRACE) == if s.framed then 1 else 0
    ensures Replay(s, NACK_TRACE) ==
      s.(framed := false, dataOpen := false, gpioOpen := false, exited := true)
  {
    var a1 := POWER;
    var a2 := a1 + PROBE;
    var a3 := a2 + RELEASE;
    PowerFacts(s);
    ProbeFacts(s);
    Concat(s, a1, PROBE);
    var s2 := s.(framed := true);
    ReleaseFacts(s2);
    Concat(s, a2, RELEASE);
    ExitFacts(s2.(framed := false, dataOpen := false, gpioOpen := false));
    Concat(s, a3, EXIT);
    assert a3 + EXIT == NACK_TRACE;
  }

  /** Only the release phase closes a session, and it closes each once. */
  lemma PhaseCloses(session: Session)
    ensures Closes(POWER, session) == 0 && Closes(PROBE, session) == 0
    ensures Closes(SELECT, session) == 0 && Closes(VERIFY, session) == 0
    ensures Closes(CONFIG, session) == 0 && Closes(TRIGGER, session) == 0
    ensures Closes(EXIT, session) == 0
    ensures Closes(RELEASE, session) == 1
  {
    ClosesNone(POWER, session);
    ClosesNone(PROBE, session);
    ClosesNone(SELECT, session);
    ClosesNone(VERIFY, session);
    ClosesNone(CONFIG, session);
    ClosesNone(TRIGGER, session);
    ClosesNone(EXIT, session);
    ReleaseCloses(session);
  }

  lemma ReleaseCloses(session: Session)
    ensures Closes(RELEASE, session) == 1
  {
    var t1 := RELEASE[1..];
    var t2 := t1[1..];
    assert t1 == [Close(Data), Close(Gpio)] && t2 == [Close(Gpio)] && t2[1..] == [];
    assert Closes(t2[1..], session) == 0;
    assert Closes(t2, session) == if session == Gpio then 1 else 0;
    assert Closes(t1, session) == 1;
  }

  /** Each path closes each session exactly once. */
  lemma EachSessionClosedOnce(session: Session)
    ensures Closes(ACK_TRACE, session) == 1
    ensures Closes(NACK_TRACE, session) == 1
  {
    PhaseCloses(session);
    ClosesConcat(POWER, PROBE, session);
    ClosesConcat(POWER + PROBE, SELECT, session);
    ClosesConcat(POWER + PROBE + SELECT, VERIFY, session);
    ClosesConcat(POWER + PROBE + SELECT + VERIFY, CONFIG, session);
    ClosesConcat(POWER + PROBE + SELECT + VERIFY + CONFIG, TRIGGER, session);
    ClosesConcat(POWER + PROBE + SELECT + VERIFY + CONFIG + TRIGGER, RELEASE, session);
    ClosesConcat(POWER + PROBE, RELEASE, session);
    ClosesConcat(POWER + PROBE + RELEASE, EXIT, session);
  }

  // ---------------------------------------------------------------------------
  // The bus phase of main, phase by phase
  // ---------------------------------------------------------------------------

  /** Settle after powering, then address the device for reading and report
      whether it acknowledged. The frame is left open. */
  method Probe(bus: Bus) returns (acked: bool)
    requires bus.Valid() && bus.dataOpen && !bus.exited
    modifies bus
    ensures bus.Valid() && bus.trace == old(bus.trace) + PROBE && bus.pending == old(bus.pending)
    ensures bus.Current() == old(bus.Current()).(framed := true)
    ensures acked <==> bus.ack == ACK
  {
    bus.Sleep(PIN_SETTLE_MS);
    bus.Start();
    bus.Write(READ_ADDRESS);
    var a := bus.GetAck();
    acked := a == ACK;
  }

  /** Finish the probe frame (one NACKed byte, discarded) and select the
      channel. */
  method SelectChannel(bus: Bus)
    requires bus.Valid() && bus.dataOpen && !bus.exited && bus.framed
    requires |bus.pending| >= 1
    modifies bus
    ensures bus.Valid() && bus.trace == old(bus.trace) + SELECT
    ensures bus.pending == old(bus.pending)[1..]
    ensures bus.Current() == old(bus.Current()).(framed := false, acking := true)
  {
    bus.SendNacks();
    var _ := bus.Read(1);
    bus.SendAcks();
    bus.Stop();
    bus.Start();
    bus.Write(SELECT_CHANNEL);
    bus.Stop();
  }

  /** Read one byte back from the device; the script does not look at it. */
  method VerifySelect(bus: Bus)
    requires bus.Valid() && bus.dataOpen && !bus.exited
    requires |bus.pending| >= 1
    modifies bus
    ensures bus.Valid() && bus.trace == old(bus.trace) + VERIFY
    ensures bus.pending == old(bus.pending)[1..]
    ensures bus.Current() == old(bus.Current()).(framed := false, acking := false)
  {
    bus.Start();
    bus.Write(READ_ADDRESS);
    bus.SendNacks();
    var _ := bus.Read(1);
    bus.Stop();
  }

  /** Write the configuration register, leaving the frame open. */
  method Configure(bus: Bus)
    requires bus.Valid() && bus.dataOpen && !bus.exited
    modifies bus
    ensures bus.Valid() && bus.trace == old(bus.trace) + CONFIG && bus.pending == old(bus.pending)
    ensures bus.Current() == old(bus.Current()).(framed := true, acking := true)
  {
    bus.SendAcks();
    bus.Start();
    bus.Write(CONFIGURE);
  }

  /** Repeated start into the register read, wait for the conversion, and
      read all channels. */
  method TriggerAndRead(bus: Bus) returns (reading: seq<byte>)
    requires bus.Valid() && bus.dataOpen && !bus.exited && bus.framed
    requires |bus.pending| >= 2 * THERM_COUNT
    modifies bus
    ensures bus.Valid() && bus.trace == old(bus.trace) + TRIGGER
    ensures reading == old(bus.pending)[..2 * THERM_COUNT]
    ensures bus.pending == old(bus.pending)[2 * THERM_COUNT..]
    ensures bus.Current() == old(bus.Current())
  {
    bus.Start();
    bus.Write(READ_REGISTER);
    bus.Sleep(CONVERSION_MS);
    reading := bus.Read(2 * THERM_COUNT);
  }

  /** Stop and release both sessions. */
  method Release(bus: Bus)
    requires bus.Valid() && bus.dataOpen && bus.gpioOpen && !bus.exited
    modifies bus
    ensures bus.Valid() && bus.trace == old(bus.trace) + RELEASE && bus.pending == old(bus.pending)
    ensures bus.Current() == old(bus.Current()).(framed := false, dataOpen := false, gpioOpen := false)
  {
    bus.Stop();
    bus.Close(Data);
    bus.Close(Gpio);
  }

  /** How the bus phase ends: the channel bytes were read, the probe got no
      ACK (the script exits with status 1), or driving the pin failed (the
      script panics, leaving both sessions open). */
  datatype Phase = Acquired(reading: seq<byte>) | NoAck | PinFault

  /** Lines 97-148 of the script. */
  method Acquire(bus: Bus) returns (p: Phase)
    requires bus.Valid()
    requires !bus.framed && bus.dataOpen && bus.gpioOpen && !bus.exited
    requires bus.ack == ACK ==> |bus.pending| >= 2 + 2 * THERM_COUNT
    modifies bus
    ensures bus.Valid()
    ensures p.PinFault? <==> !bus.pinOk
    ensures p.NoAck? <==> bus.pinOk && bus.ack != ACK
    ensures p.PinFault? ==> bus.trace == old(bus.trace) + POWER
    ensures p.NoAck? ==> bus.trace == old(bus.trace) + NACK_TRACE
    ensures p.Acquired? ==> bus.trace == old(bus.trace) + ACK_TRACE
    ensures p.Acquired? ==> p.reading == old(bus.pending)[2..2 + 2 * THERM_COUNT]
  {
    ghost var t0, input := bus.trace, bus.pending;
    var ok := bus.PinHigh(GPIOL0);
    if !ok {
      return PinFault;
    }
    var acked := Probe(bus);
    if acked {
      SelectChannel(bus);
      VerifySelect(bus);
      Configure(bus);
      var reading := TriggerAndRead(bus);
      Release(bus);
      assert input[1..][1..] == input[2..];
      assert t0 + POWER + PROBE + SELECT + VERIFY + CONFIG + TRIGGER + RELEASE == t0 + ACK_TRACE;
      p := Acquired(reading);
    } else {
      Release(bus);
      bus.Exit(1);
      assert t0 + POWER + PROBE + RELEASE + EXIT == t0 + NACK_TRACE;
      p := NoAck;
    }
  }

  // ---------------------------------------------------------------------------
  // The decode loop of main
  // ---------------------------------------------------------------------------

  /** A Go byte slice: the backing array it views, whose size is the
      slice's capacity, and its length. Go checks the upper bound of a slice
      expression `r[lo:hi]` against the capacity, not the length, so a slice
      past the length sees the backing bytes beyond it. */
  datatype ByteSlice = ByteSlice(backing: seq<byte>, len: nat)

  /** `[]byte(s)`: the bytes of s at the front of a backing array of
      |s| + extra bytes whose tail past the length is zero. How much spare
      capacity the conversion allocates is the runtime's choice, so it is a
      parameter of the model. */
  function FromString(s: seq<byte>, extra: nat): (r: ByteSlice)
    ensures r.len == |s| && |r.backing| == |s| + extra
    ensures forall k :: 0 <= k < |s| ==> r.backing[k] == s[k]
    ensures forall k :: |s| <= k < |r.backing| ==> r.backing[k] == 0
  {
    ByteSlice(s + seq(extra, _ => 0), |s|)
  }

  /** How the decode loop ends: all channels printed, `check` panicking on
      the no-thermistor error of a channel, or the slice of a channel running
      past the capacity of the buffer. */
  datatype LoopEnd = Completed | NoThermistor(channel: nat) | SliceOutOfRange(channel: nat)

  /** The temperatures printed, in channel order, and how the loop ended. */
  datatype Report = Report(temperatures: seq<real>, end: LoopEnd)

  /** The two bytes `r[2*i:2*i+2]` of channel i. */
  function Channel(r: ByteSlice, i: nat): (b: seq<byte>)
    requires 2 * i + 2 <= |r.backing|
    ensures |b| == 2 && b[0] == r.backing[2 * i] && b[1] == r.backing[2 * i + 1]
  {
    r.backing[2 * i..2 * i + 2]
  }

  /** What channel j of `[]byte(s)` holds: the bytes of s where s has them,
      and the zero tail of the backing array past the end of s. */
  lemma ChannelBytes(s: seq<byte>, extra: nat, j: nat)
    requires 2 * j + 2 <= |s| + extra
    ensures var b := Channel(FromString(s, extra), j);
      && b[0] == (if 2 * j < |s| then s[2 * j] else 0)
      && b[1] == (if 2 * j + 1 < |s| then s[2 * j + 1] else 0)
    ensures 2 * j + 2 <= |s| ==> Channel(FromString(s, extra), j) == s[2 * j..2 * j + 2]
  {
    var r := FromString(s, extra);
    if 2 * j + 2 <= |s| {
      assert Channel(r, j)[0] == s[2 * j..2 * j + 2][0];
      assert Channel(r, j)[1] == s[2 * j..2 * j + 2][1];
    }
  }

  /** Specification of the loop from channel i on: the channels from i up to
      the first that stops the loop are printed, and a loop that stops names
      the channel right after the last one printed. */
  function DecodeFrom(r: ByteSlice, count: nat, i: nat): (rep: Report)
    ensures i <= count ==> i + |rep.temperatures| <= count
    ensures !rep.end.Completed? ==> rep.end.channel == i + |rep.temperatures| < count
    decreases count - i
  {
    if i >= count then Report([], Completed)
    else if 2 * i + 2 > |r.backing| then Report([], SliceOutOfRange(i))
    else
      var c := ConvertTempReading(Channel(r, i));
      if c.noThermistor then Report([], NoThermistor(i))
      else
        var rest := DecodeFrom(r, count, i + 1);
        Report([c.temperature] + rest.temperatures, rest.end)
  }

  /** Channel j lies within the capacity and holds 0xFF 0xFF, the bytes
      `convertTempReading` reports as no thermistor plugged in. */
  predicate Missing(r: ByteSlice, j: nat) {
    2 * j + 2 <= |r.backing| && r.backing[2 * j] == 0xFF && r.backing[2 * j + 1] == 0xFF
  }

  /** Channel j lies within the capacity and decodes to a temperature. */
  predicate Decodes(r: ByteSlice, j: nat) {
    2 * j + 2 <= |r.backing| && !(r.backing[2 * j] == 0xFF && r.backing[2 * j + 1] == 0xFF)
  }

  /** Every temperature the loop prints from channel i on is the decoded
      value of its own channel, in channel order. */
  lemma {:induction false} DecodedPrefix(r: ByteSlice, count: nat, i: nat, j: nat)
    requires i <= j < i + |DecodeFrom(r, count, i).temperatures|
    ensures Decodes(r, j)
    ensures DecodeFrom(r, count, i).temperatures[j - i] == ConvertTempReading(Channel(r, j)).temperature
    decreases j - i
  {
    if j > i {
      DecodedPrefix(r, count, i + 1, j);
    }
  }

  /** The channel a stopped loop names is one that stops it: its slice runs
      past the capacity, or it is within the capacity and has no thermistor. */
  lemma {:induction false} StopReason(r: ByteSlice, count: nat, i: nat)
    ensures var e := DecodeFrom(r, count, i).end;
      e.NoThermistor? ==> Missing(r, e.channel)
    ensures var e := DecodeFrom(r, count, i).end;
      e.SliceOutOfRange? ==> 2 * e.channel + 2 > |r.backing|
    decreases count - i
  {
    if i < count && Decodes(r, i) {
      StopReason(r, count, i + 1);
    }
  }

  /** A loop that completes has printed every channel from i on. */
  lemma {:induction false} CompletesAll(r: ByteSlice, count: nat, i: nat)
    requires i <= count
    ensures DecodeFrom(r, count, i).end.Completed? ==> i + |DecodeFrom(r, count, i).temperatures| == count
    decreases count - i
  {
    if i < count && Decodes(r, i) {
      CompletesAll(r, count, i + 1);
    }
  }

  /** The loop from channel i stops at the channel right after the last one
      printed, naming why, and it completes only after all channels. */
  lemma DecodedEnd(r: ByteSlice, count: nat, i: nat)
    requires i <= count
    ensures var rep := DecodeFrom(r, count, i); var k := i + |rep.temperatures|;
      && k <= count
      && (rep.end.Completed? <==> k == count)
      && (rep.end.NoThermistor? ==>
            (rep.end.channel == k && Missing(r, k)))
      && (rep.end.SliceOutOfRange? ==> (rep.end.channel == k && 2 * k + 2 > |r.backing|))
  {
    StopReason(r, count, i);
    CompletesAll(r, count, i);
  }

  /** The whole loop: channels 0 .. k-1 are printed in order, each its own
      decoded value, and the loop stops at the first channel k that does not
      decode, naming it and why; no channel after it is decoded. */
  lemma DecodeLoopFacts(r: ByteSlice, count: nat)
    ensures var rep := DecodeFrom(r, count, 0); var k := |rep.temperatures|;
      && k <= count
      && (forall j :: 0 <= j < k ==>
            (Decodes(r, j) && rep.temperatures[j] == ConvertTempReading(Channel(r, j)).temperature))
      && (rep.end.Completed? <==> k == count)
      && (rep.end.NoThermistor? ==>
            (rep.end.channel == k && Missing(r, k)))
      && (rep.end.SliceOutOfRange? ==> (rep.end.channel == k && 2 * k + 2 > |r.backing|))
  {
    var rep := DecodeFrom(r, count, 0);
    DecodedEnd(r, count, 0);
    forall j | 0 <= j < |rep.temperatures|
      ensures Decodes(r, j) && rep.temperatures[j] == ConvertTempReading(Channel(r, j)).temperature
    {
      DecodedPrefix(r, count, 0, j);
    }
  }

  /** A buffer whose capacity holds two bytes for every channel never runs
      the slice out of range, whatever its length. */
  lemma CapacityInRange(r: ByteSlice, count: nat)
    requires 2 * count <= |r.backing|
    ensures !DecodeFrom(r, count, 0).end.SliceOutOfRange?
  {
    DecodedEnd(r, count, 0);
  }

  /** The report of the loop from some channel on, after the temperatures
      already printed before that channel. */
  function After(printed: seq<real>, rep: Report): Report {
    Report(printed + rep.temperatures, rep.end)
  }

  /** One turn of the loop at channel i, after `printed`: a slice past the
      capacity or a missing thermistor ends it, a decoded channel moves the
      loop on with its temperature printed. */
  lemma DecodeTurn(r: ByteSlice, count: nat, i: nat, printed: seq<real>)
    requires i < count
    ensures 2 * i + 2 > |r.backing| ==>
      After(printed, DecodeFrom(r, count, i)) == Report(printed, SliceOutOfRange(i))
    ensures Missing(r, i) ==>
      After(printed, DecodeFrom(r, count, i)) == Report(printed, NoThermistor(i))
    ensures Decodes(r, i) ==>
      After(printed, DecodeFrom(r, count, i))
        == After(printed + [ConvertTempReading(Channel(r, i)).temperature], DecodeFrom(r, count, i + 1))
  {
    if Decodes(r, i) {
      var t := ConvertTempReading(Channel(r, i)).temperature;
      var rest := DecodeFrom(r, count, i + 1);
      assert printed + ([t] + rest.temperatures) == (printed + [t]) + rest.temperatures;
    } else {
      assert printed + [] == printed;
    }
  }

  /** The body of the loop for channel i, once its slice is within the
      capacity: `index := i * 2`, `sub := r[index:index+2]`, then
      `convertTempReading(sub)`. */
  method ConvertChannel(r: ByteSlice, i: nat) returns (c: Conversion)
    requires 2 * i + 2 <= |r.backing|
    ensures c == ConvertTempReading(Channel(r, i))
    ensures c.noThermistor <==> Missing(r, i)
  {
    var index := i * 2;
    var sub := r.backing[index..index + 2];
    c := ConvertTempReading(sub);
  }

  /** The loop of main.go: `check` stops it at the first failing channel. */
  method DecodeReadings(r: ByteSlice, count: nat) returns (rep: Report)
    ensures rep == DecodeFrom(r, count, 0)
  {
    var temperatures: seq<real> := [];
    var i := 0;
    assert After([], DecodeFrom(r, count, 0)) == DecodeFrom(r, count, 0);
    while i < count
      invariant 0 <= i <= count
      invariant After(temperatures, DecodeFrom(r, count, i)) == DecodeFrom(r, count, 0)
    {
      DecodeTurn(r, count, i, temperatures);
      if 2 * i + 2 > |r.backing| {
        return Report(temperatures, SliceOutOfRange(i));
      }
      var reading := ConvertChannel(r, i);
      if reading.noThermistor {
        return Report(temperatures, NoThermistor(i));
      }
      temperatures := temperatures + [reading.temperature];
      i := i + 1;
    }
    assert temperatures + [] == temperatures;
    rep := Report(temperatures, Completed);
  }

  /** A read one byte short of the channels, in a buffer with spare
      capacity: the loop does not panic on the slice but decodes the last
      channel with a zero low byte. */
  lemma ShortReadDecodesZeroTail(s: seq<byte>, count: nat, extra: nat)
    requires |s| == 2 * count - 1 && extra >= 1
    ensures !DecodeFrom(FromString(s, extra), count, 0).end.SliceOutOfRange?
    ensures Channel(FromString(s, extra), count - 1) == [s[2 * count - 2], 0]
  {
    CapacityInRange(FromString(s, extra), count);
    ChannelBytes(s, extra, count - 1);
  }

  /** The bytes read, two per channel, as `[]byte(adReading)`, in which
      channel k is the first with bytes 0xFF 0xFF: exactly the k channels
      before it are printed and the loop stops at k. */
  lemma SentinelChannelStopsLoop(s: seq<byte>, extra: nat, count: nat, k: nat)
    requires |s| == 2 * count && k < count
    requires s[2 * k] == 0xFF && s[2 * k + 1] == 0xFF
    requires forall j :: 0 <= j < k ==> !(s[2 * j] == 0xFF && s[2 * j + 1] == 0xFF)
    ensures DecodeFrom(FromString(s, extra), count, 0).end == NoThermistor(k)
    ensures |DecodeFrom(FromString(s, extra), count, 0).temperatures| == k
  {
    var r := FromString(s, extra);
    DecodeLoopFacts(r, count);
    CapacityInRange(r, count);
    var rep := DecodeFrom(r, count, 0);
    var n := |rep.temperatures|;
    assert Missing(r, k) && !Decodes(r, k);
    assert n <= k;
    assert rep.end == NoThermistor(n);
    assert Missing(r, n);
  }

  /** The bytes read with no sentinel channel print every channel, each
      within the range of the calibration table. */
  lemma AllPresentCompletes(s: seq<byte>, extra: nat, count: nat)
    requires |s| == 2 * count
    requires forall j :: 0 <= j < count ==> !(s[2 * j] == 0xFF && s[2 * j + 1] == 0xFF)
    ensures DecodeFrom(FromString(s, extra), count, 0).end == Completed
    ensures |DecodeFrom(FromString(s, extra), count, 0).temperatures| == count
    ensures forall j :: 0 <= j < count ==>
      Temperature(CODE_LIMIT - 1) <= DecodeFrom(FromString(s, extra), count, 0).temperatures[j] <= MAX_TEMPERATURE
  {
    var r := FromString(s, extra);
    DecodeLoopFacts(r, count);
    CapacityInRange(r, count);
    var rep := DecodeFrom(r, count, 0);
    assert forall j :: 0 <= j < count ==> Decodes(r, j);
    forall j | 0 <= j < count
      ensures Temperature(CODE_LIMIT - 1) <= rep.temperatures[j] <= MAX_TEMPERATURE
    {
      ChannelInRange(r, j);
    }
  }

  /** A channel that decodes yields a temperature within the table's range. */
  lemma ChannelInRange(r: ByteSlice, j: nat)
    requires Decodes(r, j)
    ensures Temperature(CODE_LIMIT - 1) <= ConvertTempReading(Channel(r, j)).temperature <= MAX_TEMPERATURE
  {
    var b := Channel(r, j);
    ConvertedTemperature(b);
    TemperatureRange((b[0] as nat % 4) * 0x100 + b[1] as nat);
  }

  // ---------------------------------------------------------------------------
  // main
  // ---------------------------------------------------------------------------

  /** How the script ends. */
  datatype ScriptEnd = PinPanic | NoDevice | Finished(report: Report)

  /** The whole script: bus phase, then the decode loop over the bytes read,
      converted to a byte slice with `extra` bytes of spare capacity. */
  method RunScript(bus: Bus, extra: nat) returns (e: ScriptEnd)
    requires bus.Valid()
    requires !bus.framed && bus.dataOpen && bus.gpioOpen && !bus.exited
    requires bus.ack == ACK ==> |bus.pending| >= 2 + 2 * THERM_COUNT
    modifies bus
    ensures bus.Valid()
    ensures e.PinPanic? <==> !bus.pinOk
    ensures e.NoDevice? <==> bus.pinOk && bus.ack != ACK
    ensures e.PinPanic? ==> bus.trace == old(bus.trace) + POWER
    ensures e.NoDevice? ==> bus.trace == old(bus.trace) + NACK_TRACE
    ensures e.Finished? ==> bus.trace == old(bus.trace) + ACK_TRACE
    ensures e.Finished? ==>
      e.report == DecodeFrom(FromString(old(bus.pending)[2..2 + 2 * THERM_COUNT], extra), THERM_COUNT, 0)
      && !e.report.end.SliceOutOfRange?
  {
    var p := Acquire(bus);
    match p
    case PinFault => e := PinPanic;
    case NoAck => e := NoDevice;
    case Acquired(reading) =>
      var r := FromString(reading, extra);
      var rep := DecodeReadings(r, THERM_COUNT);
      CapacityInRange(r, THERM_COUNT);
      e := Finished(rep);
  }
}
