/** A recording stand-in for the two MPSSE sessions the test script opens
    (the I2C data session and the auxiliary GPIO session) together with the
    process clock. Every call the script makes is appended to a trace; what
    the device answers (its ACK bit, the bytes it clocks out, whether the pin
    write succeeds) is fixed when the bench is built.

    The session state (framing, ACK policy, open flags) is nowhere stored
    independently: `Replay` computes it from the trace, and the class keeps
    its fields equal to that replay. */
module MockBus {
  import opened Bytes

  /** `src.ACK` and `src.NACK`, the values `GetAck` reports. */
  const ACK: int := 0
  const NACK: int := 1

  /** `src.GPIOL0`, the pin the script drives high. */
  const GPIOL0: nat := 0

  /** The two sessions of the script: `vec` and `gpio`. */
  datatype Session = Data | Gpio

  /** One recorded call. Bus primitives are issued on the data session;
      `Close` names its session; `Sleep` (milliseconds) and `Exit` are the
      process calls the script interleaves with them. */
  datatype Call =
    | Start
    | Stop
    | Write(bytes: seq<byte>)
    | Read(size: nat)
    | SendAcks
    | SendNacks
    | PinHigh(pin: nat)
    | Close(session: Session)
    | Sleep(ms: nat)
    | Exit(status: int)

  /** Bus-level state: inside a start/stop frame, whether reads are ACKed,
      which sessions are still open, whether the process has exited. */
  datatype State = State(framed: bool, acking: bool, dataOpen: bool, gpioOpen: bool, exited: bool)

  /** Effect of one call on the state. */
  function Step(s: State, c: Call): State {
    match c
    case Start => s.(framed := true)
    case Stop => s.(framed := false)
    case SendAcks => s.(acking := true)
    case SendNacks => s.(acking := false)
    case Close(Data) => s.(dataOpen := false)
    case Close(Gpio) => s.(gpioOpen := false)
    case Exit(_) => s.(exited := true)
    case _ => s
  }

  /** State after playing a trace from `s`. */
  function Replay(s: State, t: seq<Call>): State
    decreases |t|
  {
    if t == [] then s else Replay(Step(s, t[0]), t[1..])
  }

  lemma {:induction false} ReplayConcat(s: State, a: seq<Call>, b: seq<Call>)
    ensures Replay(s, a + b) == Replay(Replay(s, a), b)
    decreases |a|
  {
    if a == [] {
      assert a + b == b;
    } else {
      assert (a + b)[1..] == a[1..] + b;
      ReplayConcat(Step(s, a[0]), a[1..], b);
    }
  }

  lemma ReplayAppend(s: State, t: seq<Call>, c: Call)
    ensures Replay(s, t + [c]) == Step(Replay(s, t), c)
  {
    ReplayConcat(s, t, [c]);
  }

  /** The context a read is issued in: its size, the ACK policy then in
      force, and whether it lies inside a start/stop frame. */
  datatype ReadCtx = ReadCtx(size: nat, acking: bool, framed: bool)

  /** The reads of a trace played from `s`, in order, with their contexts. */
  function Reads(s: State, t: seq<Call>): seq<ReadCtx>
    decreases |t|
  {
    if t == [] then []
    else
      (if t[0].Read? then [ReadCtx(t[0].size, s.acking, s.framed)] else [])
      + Reads(Step(s, t[0]), t[1..])
  }

  lemma {:induction false} ReadsConcat(s: State, a: seq<Call>, b: seq<Call>)
    ensures Reads(s, a + b) == Reads(s, a) + Reads(Replay(s, a), b)
    decreases |a|
  {
    if a == [] {
      assert a + b == b;
    } else {
      assert (a + b)[1..] == a[1..] + b;
      ReadsConcat(Step(s, a[0]), a[1..], b);
    }
  }

  /** Number of starts issued while a frame is already open (repeated
      starts). */
  function RepeatedStarts(s: State, t: seq<Call>): nat
    decreases |t|
  {
    if t == [] then 0
    else (if t[0].Start? && s.framed then 1 else 0) + RepeatedStarts(Step(s, t[0]), t[1..])
  }

  lemma {:induction false} RepeatedStartsConcat(s: State, a: seq<Call>, b: seq<Call>)
    ensures RepeatedStarts(s, a + b) == RepeatedStarts(s, a) + RepeatedStarts(Replay(s, a), b)
    decreases |a|
  {
    if a == [] {
      assert a + b == b;
    } else {
      assert (a + b)[1..] == a[1..] + b;
      RepeatedStartsConcat(Step(s, a[0]), a[1..], b);
    }
  }

  /** Number of times a session is closed in a trace. */
  function Closes(t: seq<Call>, session: Session): nat
    decreases |t|
  {
    if t == [] then 0
    else (if t[0] == Close(session) then 1 else 0) + Closes(t[1..], session)
  }

  lemma {:induction false} ClosesConcat(a: seq<Call>, b: seq<Call>, session: Session)
    ensures Closes(a + b, session) == Closes(a, session) + Closes(b, session)
    decreases |a|
  {
    if a == [] {
      assert a + b == b;
    } else {
      assert (a + b)[1..] == a[1..] + b;
      ClosesConcat(a[1..], b, session);
    }
  }
  /** A trace with no close of a session closes it zero times. */
  lemma {:induction false} ClosesNone(t: seq<Call>, session: Session)
    requires forall k :: 0 <= k < |t| ==> t[k] != Close(session)
    ensures Closes(t, session) == 0
    decreases |t|
  {
    if t != [] {
      assert forall k :: 0 <= k < |t[1..]| ==> t[1..][k] == t[k + 1];
      ClosesNone(t[1..], session);
    }
  }


  /** The trace functions of a suffix, one call at a time. */
  lemma Unfold(s: State, t: seq<Call>, k: nat)
    requires k < |t|
    ensures Replay(s, t[k..]) == Replay(Step(s, t[k]), t[k + 1..])
    ensures Reads(s, t[k..]) ==
      (if t[k].Read? then [ReadCtx(t[k].size, s.acking, s.framed)] else []) + Reads(Step(s, t[k]), t[k + 1..])
    ensures RepeatedStarts(s, t[k..]) ==
      (if t[k].Start? && s.framed then 1 else 0) + RepeatedStarts(Step(s, t[k]), t[k + 1..])
  {
    assert t[k..][0] == t[k] && t[k..][1..] == t[k + 1..];
  }

  /** The empty trace changes nothing and reads nothing. */
  lemma Empty(s: State, t: seq<Call>)
    requires |t| == 0
    ensures Replay(s, t) == s && Reads(s, t) == [] && RepeatedStarts(s, t) == 0
  {
  }

  /** All the trace functions split over a concatenation. */
  lemma Concat(s: State, a: seq<Call>, b: seq<Call>)
    ensures Replay(s, a + b) == Replay(Replay(s, a), b)
    ensures Reads(s, a + b) == Reads(s, a) + Reads(Replay(s, a), b)
    ensures RepeatedStarts(s, a + b) == RepeatedStarts(s, a) + RepeatedStarts(Replay(s, a), b)
  {
    ReplayConcat(s, a, b);
    ReadsConcat(s, a, b);
    RepeatedStartsConcat(s, a, b);
  }

  /** The bench: both sessions, the device's fixed answers and the trace. */
  class Bus {
    /** Every call made so far, in order. */
    var trace: seq<Call>

    /** State before the first recorded call. */
    const initial: State

    var framed: bool
    var acking: bool
    var dataOpen: bool
    var gpioOpen: bool
    var exited: bool

    /** The ACK bit the device leaves for `GetAck`. */
    const ack: int

    /** Whether driving a pin succeeds. */
    const pinOk: bool

    /** Bytes the device will clock out, consumed by reads. */
    var pending: seq<byte>

    function Current(): State
      reads this
    {
      State(framed, acking, dataOpen, gpioOpen, exited)
    }

    /** The fields are exactly the replay of the trace. */
    ghost predicate Valid()
      reads this
    {
      Current() == Replay(initial, trace)
    }

    /** Both sessions freshly opened, no frame in progress. */
    constructor (ack: int, pinOk: bool, pending: seq<byte>, acking: bool)
      ensures Valid() && trace == []
      ensures initial == State(false, acking, true, true, false) && Current() == initial
      ensures this.ack == ack && this.pinOk == pinOk && this.pending == pending
    {
      this.ack, this.pinOk, this.pending := ack, pinOk, pending;
      initial := State(false, acking, true, true, false);
      framed, this.acking, dataOpen, gpioOpen, exited := false, acking, true, true, false;
      trace := [];
    }

    /** Records `c` and moves the fields to `Step(Current(), c)`. */
    method Record(c: Call)
      requires Valid()
      modifies this
      ensures Valid() && trace == old(trace) + [c]
      ensures Current() == Step(old(Current()), c) && pending == old(pending)
    {
      ReplayAppend(initial, trace, c);
      trace := trace + [c];
      match c
      case Start => framed := true;
      case Stop => framed := false;
      case SendAcks => acking := true;
      case SendNacks => acking := false;
      case Close(Data) => dataOpen := false;
      case Close(Gpio) => gpioOpen := false;
      case Exit(_) => exited := true;
      case _ =>
    }

    method Start()
      requires Valid() && dataOpen && !exited
      modifies this
      ensures Valid() && trace == old(trace) + [Call.Start] && pending == old(pending)
      ensures framed && acking == old(acking) && dataOpen && gpioOpen == old(gpioOpen) && !exited
    {
      Record(Call.Start);
    }

    method Stop()
      requires Valid() && dataOpen && !exited
      modifies this
      ensures Valid() && trace == old(trace) + [Call.Stop] && pending == old(pending)
      ensures !framed && acking == old(acking) && dataOpen && gpioOpen == old(gpioOpen) && !exited
    {
      Record(Call.Stop);
    }

    method Write(bytes: seq<byte>)
      requires Valid() && dataOpen && !exited
      modifies this
      ensures Valid() && trace == old(trace) + [Call.Write(bytes)] && pending == old(pending)
      ensures Current() == old(Current())
    {
      Record(Call.Write(bytes));
    }

    /** Reads `size` bytes: the device's next `size` bytes. */
    method Read(size: nat) returns (data: seq<byte>)
      requires Valid() && dataOpen && !exited
      requires size <= |pending|
      modifies this
      ensures Valid() && trace == old(trace) + [Call.Read(size)]
      ensures Current() == old(Current())
      ensures data == old(pending)[..size] && pending == old(pending)[size..]
    {
      Record(Call.Read(size));
      data := pending[..size];
      pending := pending[size..];
    }

    /** The last ACK bit received; a query, not recorded. */
    method GetAck() returns (a: int)
      ensures a == ack
    {
      a := ack;
    }

    method SendAcks()
      requires Valid() && dataOpen && !exited
      modifies this
      ensures Valid() && trace == old(trace) + [Call.SendAcks] && pending == old(pending)
      ensures acking && framed == old(framed) && dataOpen && gpioOpen == old(gpioOpen) && !exited
    {
      Record(Call.SendAcks);
    }

    method SendNacks()
      requires Valid() && dataOpen && !exited
      modifies this
      ensures Valid() && trace == old(trace) + [Call.SendNacks] && pending == old(pending)
      ensures !acking && framed == old(framed) && dataOpen && gpioOpen == old(gpioOpen) && !exited
    {
      Record(Call.SendNacks);
    }

    /** Drives a pin high; `ok` is false when the transport reports an error. */
    method PinHigh(pin: nat) returns (ok: bool)
      requires Valid() && dataOpen && !exited
      modifies this
      ensures Valid() && trace == old(trace) + [Call.PinHigh(pin)] && pending == old(pending)
      ensures Current() == old(Current())
      ensures ok == pinOk
    {
      Record(Call.PinHigh(pin));
      ok := pinOk;
    }

    /** Releases a session; each session is released at most once. */
    method Close(session: Session)
      requires Valid() && !exited
      requires if session == Data then dataOpen else gpioOpen
      modifies this
      ensures Valid() && trace == old(trace) + [Call.Close(session)] && pending == old(pending)
      ensures Current() == Step(old(Current()), Call.Close(session))
    {
      Record(Call.Close(session));
    }

    method Sleep(ms: nat)
      requires Valid() && !exited
      modifies this
      ensures Valid() && trace == old(trace) + [Call.Sleep(ms)] && pending == old(pending)
      ensures Current() == old(Current())
    {
      Record(Call.Sleep(ms));
    }

    /** `os.Exit`: nothing is issued after it. */
    method Exit(status: int)
      requires Valid() && !exited
      modifies this
      ensures Valid() && trace == old(trace) + [Call.Exit(status)] && pending == old(pending)
      ensures Current() == old(Current()).(exited := true)
    {
      Record(Call.Exit(status));
    }
  }
}
