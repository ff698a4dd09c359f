/** Bytes on the wire and the device-specific command strings of the test
    script (main.go). */
module Bytes {

  /** One octet, as Go's `byte`. */
  newtype byte = x: int | 0 <= x < 0x100

  /** Address byte that selects the ADC for reading (`READ_ADDRESS`). */
  const READ_ADDRESS: seq<byte> := [0xE3]

  /** Address byte that selects the ADC for writing (`WRITE_ADDRESS`). */
  const WRITE_ADDRESS: seq<byte> := [0xE2]

  /** Register-read command; issuing it also starts a conversion. */
  const READ_REGISTER: seq<byte> := [0x6B]

  /** Register-write command. */
  const WRITE_REGISTER: seq<byte> := [0x6A]

  /** Write address followed by the channel-select payload 0x08. */
  const SELECT_CHANNEL: seq<byte> := WRITE_ADDRESS + [0x08]

  /** Register-write command followed by the configuration payload 0xD2 0x0F. */
  const CONFIGURE: seq<byte> := WRITE_REGISTER + [0xD2, 0x0F]
}
