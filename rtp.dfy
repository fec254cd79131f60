/**
 * Translation of a received Discord voice packet into the RTP packet that
 * the Ogg writer consumes (`createPionRTPPacket`). The header is the fixed
 * RTP header of section 5.1 of RFC 3550: version 2, no padding, no header
 * extension, no marker, no contributing sources, and payload type 0x78, the
 * dynamic payload type Discord uses for Opus.
 */
module Rtp {
  import opened Types

  /** The fields of discordgo.Packet that the recorder reads. */
  datatype Packet = Packet(ssrc: uint32, sequence: uint16, timestamp: uint32, opus: seq<byte>)

  /** pion's rtp.Header, without the extension list (never set here). */
  datatype Header = Header(
    version: uint8,
    padding: bool,
    extension: bool,
    marker: bool,
    payloadType: uint8,
    sequenceNumber: uint16,
    timestamp: uint32,
    ssrc: uint32,
    csrc: seq<uint32>)

  datatype RtpPacket = RtpPacket(header: Header, payload: seq<byte>)

  const RtpVersion: uint8 := 2
  const OpusPayloadType: uint8 := 0x78

  /**
   * The header fields that do not depend on the packet have their fixed
   * values; version 2 and payload type 0x78 fit the 2-bit and 7-bit fields
   * of the RTP fixed header (RFC 3550, section 5.1).
   */
  predicate IsVoiceFrame(r: RtpPacket) {
    && r.header.version == RtpVersion
    && !r.header.padding && !r.header.extension && !r.header.marker
    && r.header.payloadType == OpusPayloadType
    && r.header.csrc == []
  }

  /** What a frame carries of the packet it was made from. */
  function PacketOf(r: RtpPacket): Packet {
    Packet(r.header.ssrc, r.header.sequenceNumber, r.header.timestamp, r.payload)
  }

  /**
   * The translated packet has the fixed voice header, and sequence number,
   * timestamp, SSRC and payload are the packet's own, unchanged.
   */
  function CreatePionRtpPacket(p: Packet): (r: RtpPacket)
    ensures IsVoiceFrame(r)
    ensures PacketOf(r) == p
  {
    RtpPacket(
      Header(RtpVersion, false, false, false, OpusPayloadType, p.sequence, p.timestamp, p.ssrc, []),
      p.opus)
  }

  /** Every voice frame is the translation of exactly one packet. */
  lemma VoiceFrameIsTranslation(r: RtpPacket)
    requires IsVoiceFrame(r)
    ensures CreatePionRtpPacket(PacketOf(r)) == r
  {
  }
}
