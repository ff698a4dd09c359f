# Thermistor ADC test script, modelled in Dafny

This project models the test script `main.go` of the Go bindings for
libmpsse. The script drives an FTDI MPSSE chip as an I2C master. It powers a
MAX116xx ADC bank through pin GPIOL0, probes it, selects and verifies a
channel, configures it, and triggers a conversion. It then reads twelve
two-byte samples and decodes each into a thermistor temperature with a
seven-region piecewise-linear calibration table.

Modules:

- `Bytes` (`bytes.dfy`): the byte type and the device command strings
  (`READ_ADDRESS` 0xE3, `WRITE_ADDRESS` 0xE2, `READ_REGISTER` 0x6B,
  `WRITE_REGISTER` 0x6A, and the two payload strings built from them).
- `Thermistor` (`thermistor.dfy`): `unpackWord` as written (a 32-bit read
  that panics on the two-byte slices it is given), the corrected 16-bit
  `unpackWord`, and `convertTempReading` with the corrected `unpackWord`, as
  pure functions. Lemmas cover region selection, anchors, monotonicity and
  the sentinel.
- `MockBus` (`mockbus.dfy`): a class `Bus` standing for the two opened MPSSE
  sessions (`vec` for data, `gpio` for the auxiliary line) and the process
  clock. Every primitive the script calls is appended to a trace. The
  device's answers are fixed when the bench is built: the ACK bit, the bytes
  it clocks out, and whether driving the pin succeeds. The session state
  (inside a start/stop frame, ACK policy, open flags, exited) is a replay of
  the trace (`Replay`), and the class keeps its fields equal to that replay.
- `Acquisition` (`acquisition.dfy`): the body of `main`. `Acquire` is the
  bus phase, split into one method per protocol phase. `DecodeReadings` is
  the decode loop, with the corrected `unpackWord`. It works on a Go byte
  slice (`ByteSlice`: a backing array and a length). Go checks a slice
  expression's upper bound against the capacity, and `[]byte(adReading)`
  zero-fills the spare capacity, so the model does the same. `RunScript`
  runs one after the other. Lemmas state what each trace does.

The float32 interpolation is modelled over `real`. Masked codes are below
1024, so float32 holds every code and every breakpoint exactly, and region
selection on `int` is exact.

## Model

| member | source | states |
|---|---|---|
| `Thermistor.UnpackWordAsWritten` | main.go:26-28 | the 32-bit big-endian read `unpackWord` performs: it panics exactly when the slice has fewer than four bytes; otherwise it yields a 32-bit value, 2^16 times the big-endian word of the first two bytes plus that of the next two, whose low byte is the fourth byte |
| `Thermistor.AsWrittenPanicsOnEverySample` | main.go:26-28 | on every two-byte slice, which is what the decode loop passes, the read as written panics |
| `Thermistor.UnpackWord` | main.go:26-28 | the intended 16-bit big-endian read: high byte is the quotient by 256, low byte the remainder, value below 2^16 |
| `Thermistor.UnpackPack` | main.go:26-28 | unpacking the big-endian encoding of a 16-bit value gives the value back |
| `Thermistor.PackUnpack` | main.go:26-28 | encoding what was unpacked from two bytes gives the same two bytes |
| `Thermistor.Mask` | main.go:41 | `raw & 0x3FF` keeps a code below 1024, leaves codes below 1024 unchanged and differs from the raw value by a multiple of 1024 |
| `Thermistor.SelectRegion` | main.go:46-77 | the if/else chain: a selected segment has index below 7 and the code is at or above that segment's breakpoint; saturation only below the last breakpoint 54 |
| `Thermistor.BreakpointsDecrease` | main.go:38 | the breakpoint table is strictly decreasing |
| `Thermistor.SelectRegionCorrect` | main.go:46-77 | the chain picks region i exactly when the code lies in region i's interval (region 0: code at least 631; region i: x1[i] to x1[i-1]-1), and saturates exactly below 54 |
| `Thermistor.RegionsDisjoint` | main.go:46-77 | no code lies in two region intervals |
| `Thermistor.RegionsCover` | main.go:46-77 | every code lies in some region interval or below 54 |
| `Thermistor.Interpolate` | main.go:48-72 | region i's line gives the reference temperature y1[i] at its breakpoint, less above it and more below it (every slope is negative) |
| `Thermistor.Temperature` | main.go:45-77 | below the last breakpoint 54 the temperature is the saturation value 105 |
| `Thermistor.BoundaryOwnership` | main.go:46-77 | breakpoint x1[i] belongs to region i and x1[i]-1 to region i+1 (saturation after the last) |
| `Thermistor.TemperatureAtBreakpoints` | main.go:37-72 | at every breakpoint the decoded temperature is the table's reference temperature y1[i]; code 54 gives 105, the saturation value |
| `Thermistor.TemperatureStep` | main.go:37-77 | one code step up never raises the temperature, inside a region or across any boundary |
| `Thermistor.TemperatureMonotone` | main.go:37-77 | the decoded temperature is non-increasing in the code over all integers |
| `Thermistor.TemperatureRange` | main.go:37-77 | over codes 0..1023 the temperature lies between its value at 1023 and 105 |
| `Thermistor.ConvertTempReading` | main.go:31-80 | with the corrected `unpackWord`: the error is reported exactly for bytes 0xFF 0xFF, with value -1 |
| `Thermistor.ConvertedTemperature` | main.go:31-80 | with the corrected `unpackWord`, a reading without the error is the table temperature of the code formed by the low two bits of the first byte and the second byte |
| `Thermistor.MaskedCode` | main.go:41 | masking a big-endian sample to ten bits keeps the low two bits of its high byte and all of its low byte |
| `Thermistor.SentinelBeforeMask` | main.go:32-41 | the sentinel is tested before masking: 0x03FF decodes as code 1023, while 0xFFFF, whose mask is also 1023, is the error |
| `Thermistor.OnlyLowBitsMatter` | main.go:32-43 | apart from the sentinel, two samples with equal low ten bits decode identically |
| `Thermistor.BreakpointRoundTrip` | main.go:31-80 | the big-endian bytes of a breakpoint code decode to that region's reference temperature without error |
| `MockBus.Bus.constructor` | main.go:87-95 | both sessions are open, no frame is in progress, the trace is empty and the fixture answers are as given |
| `MockBus.Bus.Start` | src/mpsse.go:229-231 | records a start and opens a frame; nothing else changes |
| `MockBus.Bus.Stop` | src/mpsse.go:251-253 | records a stop and closes the frame; nothing else changes |
| `MockBus.Bus.Write` | src/mpsse.go:237-245 | records the write of exactly those bytes; the state is unchanged |
| `MockBus.Bus.Read` | src/mpsse.go:350-352 | records a read of n bytes and returns the device's next n bytes, consuming them |
| `MockBus.Bus.GetAck` | src/mpsse.go:259-261 | returns the ACK bit the device left |
| `MockBus.Bus.SendAcks` | src/mpsse.go:274-276 | records the call and turns ACKing of read bytes on |
| `MockBus.Bus.SendNacks` | src/mpsse.go:282-284 | records the call and turns ACKing of read bytes off |
| `MockBus.Bus.PinHigh` | mpsse.go:429-437 | records the call and reports whether the transport succeeded |
| `MockBus.Bus.Close` | src/mpsse.go:168-170 | records the close of an open session and marks it closed |
| `MockBus.Bus.Sleep` | main.go:135 | records a sleep of the given milliseconds (also at main.go:97); neither the session state nor the device's bytes change |
| `MockBus.Bus.Exit` | main.go:143 | records the exit with its status and marks the process exited; nothing else changes |
| `Acquisition.AckPathFacts` | main.go:100-137 | on the ACK path, whatever the initial ACK policy, the two single-byte reads are NACKed, the 24-byte batch read is ACKed, and all three lie inside a frame; exactly one start is a repeated start on an idle bus; the path ends outside a frame with both sessions closed |
| `Acquisition.NackPathFacts` | main.go:100-144 | on the no-ACK path no read is ever issued; the path ends outside a frame with both sessions closed and the process exited |
| `Acquisition.PhaseCloses` | main.go:138-148 | only the release phase closes a session, and it closes each session once |
| `Acquisition.EachSessionClosedOnce` | main.go:138-148 | each path closes the data session and the GPIO session exactly once |
| `Acquisition.Probe` | main.go:98-104 | records sleep 1 ms, start, write 0xE3, leaves the frame open and reports whether the device ACKed |
| `Acquisition.SelectChannel` | main.go:107-116 | records the NACKed one-byte read, SendAcks, stop, then start, write 0xE2 0x08, stop; consumes one byte |
| `Acquisition.VerifySelect` | main.go:119-123 | records start, write 0xE3, SendNacks, read 1, stop; consumes one byte and does not examine it |
| `Acquisition.Configure` | main.go:126-129 | records SendAcks, start, write 0x6A 0xD2 0x0F, and leaves the frame open |
| `Acquisition.TriggerAndRead` | main.go:132-137 | records the repeated start, write 0x6B, sleep 10 ms, read 24, and returns the next 24 device bytes |
| `Acquisition.Release` | main.go:146-148 | records stop and the closes of both sessions |
| `Acquisition.Acquire` | main.go:97-148 | a failed pin write panics after that one call; otherwise the trace is exactly the ACK sequence or the no-ACK sequence, chosen by the ACK bit; on ACK it returns bytes 2..26 of what the device sends |
| `Acquisition.FromString` | main.go:151 | `[]byte(adReading)`: the bytes read come first in a backing array of their length plus the spare capacity, and the spare capacity is zero |
| `Acquisition.Channel` | main.go:154-155 | channel i is bytes 2i and 2i+1 of the backing array |
| `Acquisition.ChannelBytes` | main.go:151-155 | channel j of the converted buffer holds the bytes read where there are any and zeros past its length; within the length it is exactly those two bytes |
| `Acquisition.DecodeFrom` | main.go:152-160 | the loop from channel i prints at most the remaining channels; a loop that stops names the channel right after the last one printed, below the channel count |
| `Acquisition.DecodedPrefix` | main.go:152-160 | every temperature printed from channel i on is the decoded value of its own channel, in channel order |
| `Acquisition.StopReason` | main.go:153-157 | the channel a stopped loop names has its slice past the buffer's capacity, or lies within the capacity and holds 0xFF 0xFF |
| `Acquisition.CompletesAll` | main.go:152-160 | a loop that completes has printed every channel |
| `Acquisition.DecodedEnd` | main.go:152-160 | the loop stops at the channel right after the last one printed and names why: completed only after all channels, a no-thermistor channel, or a slice past the buffer's capacity |
| `Acquisition.DecodeLoopFacts` | main.go:152-160 | the whole loop prints channels 0..k-1 in order and stops at the first channel k that fails; no later channel is decoded |
| `Acquisition.CapacityInRange` | main.go:153-155 | when the capacity holds two bytes per channel, the slice never goes out of range, whatever the length |
| `Acquisition.DecodeTurn` | main.go:153-158 | one turn of the loop: a slice past the capacity or a missing thermistor ends it with what was printed so far; a decoded channel adds its temperature and moves on |
| `Acquisition.ConvertChannel` | main.go:154-156 | with the corrected `unpackWord`, the body of the loop converts exactly channel i's two bytes, and reports no thermistor exactly when they are 0xFF 0xFF |
| `Acquisition.DecodeReadings` | main.go:151-160 | with the corrected `unpackWord`, the loop computes exactly the specification `DecodeFrom` from channel 0 |
| `Acquisition.ShortReadDecodesZeroTail` | main.go:151-156 | a read one byte short, in a buffer with spare capacity, does not panic on the slice; the last channel's low byte is a zero |
| `Acquisition.SentinelChannelStopsLoop` | main.go:152-158 | in a buffer of two bytes per channel whose first 0xFF 0xFF channel is k, exactly k temperatures are printed and the loop stops at channel k |
| `Acquisition.AllPresentCompletes` | main.go:152-160 | a buffer of two bytes per channel without a 0xFF 0xFF channel prints all channels, each within the table's range |
| `Acquisition.ChannelInRange` | main.go:152-160 | a channel that decodes yields a temperature between the value at code 1023 and 105 |
| `Acquisition.RunScript` | main.go:83-163 | the script panics on a pin failure, or exits with status 1 after the no-ACK trace. After the ACK trace it decodes the 24 bytes read, with the corrected `unpackWord`, whatever spare capacity the conversion gives them, and never slices out of range |

## Left out

- Opening the sessions with `src.SimpleOpen` (main.go:87-95): that function is not part of this model. The bench begins with both sessions open.
- Console output (`fmt.Println`, `fmt.Printf`): the printed temperatures are the `temperatures` of the loop's report. The final dump of the raw buffer is not modelled.
- `time.Sleep` and `os.Exit` are recorded as trace events. No real time passes.
- float32 rounding in the interpolation (main.go:43-72): arithmetic is exact over `real`.
- `Read` returning fewer bytes than asked because `C.GoString` stops at a NUL (src/mpsse.go:351): `Bus.Read` requires the device to have the bytes and returns exactly n of them. The decode loop itself takes any byte slice. In a shorter buffer, channels past its length read the zero-filled spare capacity, and a slice fails only past the capacity (`ShortReadDecodesZeroTail`, `DecodedEnd`).
- FromString: how much spare capacity the Go runtime gives `[]byte(s)` depends on the allocation, so it is a parameter (`extra`) of `FromString` and `RunScript`, and every property is proved for all values of it.
- `GetAck` is a query and is not recorded in the trace.
- The status results of `Start`, `Write` and `Stop` are ignored by the script, so they are not modelled.
- The libmpsse C library behind the wrappers (clocking, USB framing, error strings) is not visible. The primitives are a recording mock.
- The `sync.Mutex` fields of the session type, the rest of `mpsse.go` and `src/mpsse.go`, `errors.go` and `doc.go`: none of them is used by the script.
- `PinHigh` follows `mpsse.go`, which returns an error that `check` can test. `src/mpsse.go`, the copy the script imports, returns an `int`.
- The decode loop follows the code: `check` panics at the first channel with no thermistor. It does not report each channel independently.

## Findings

| source | as written | input that shows it | evidently intended | confidence | as-written member | corrected member |
|---|---|---|---|---|---|---|
| main.go:26-28 | `unpackWord` reads a 32-bit big-endian value with `binary.BigEndian.Uint32`, which needs four bytes | any two-byte channel slice from main.go:155, e.g. 0x01 0x02: index out of range, panic | a 16-bit big-endian read `b[0]*256 + b[1]`, as the 0xFFFF sentinel test at main.go:33 implies | high (not executed) | `Thermistor.AsWrittenPanicsOnEverySample` | `Thermistor.UnpackWord` |
