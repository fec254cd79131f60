/**
 * Fixed-width unsigned integers as they appear in the Go structs that the
 * model works with (discordgo.Packet, rtp.Header). Nothing in the modelled
 * code does arithmetic on them, so they are plain range-restricted newtypes.
 */
module Types {
  newtype uint8 = x: int | 0 <= x < 0x100
  newtype uint16 = x: int | 0 <= x < 0x1_0000
  newtype uint32 = x: int | 0 <= x < 0x1_0000_0000

  type byte = uint8
}
