/** The fixed header of a control packet (broker/packets/fixedheader.go; section 2.1 of MQTT 5.0). */
module FixedHeaders {
  import opened Wire

  type PacketType = t: int | 0 <= t < 16

  const Connect: PacketType := 1
  const Connack: PacketType := 2
  const Publish: PacketType := 3
  const Puback: PacketType := 4
  const Pubrec: PacketType := 5
  const Pubrel: PacketType := 6
  const Pubcomp: PacketType := 7
  const Subscribe: PacketType := 8
  const Suback: PacketType := 9
  const Unsubscribe: PacketType := 10
  const Unsuback: PacketType := 11
  const Pingreq: PacketType := 12
  const Pingresp: PacketType := 13
  const Disconnect: PacketType := 14
  const Auth: PacketType := 15

  type QoS = q: int | 0 <= q < 4

  datatype FixedHeader = FixedHeader(remaining: nat, kind: PacketType, qos: QoS, dup: bool, retain: bool)

  /** The first byte: type, DUP, QoS and RETAIN from the high bits down. */
  function HeaderByte(fh: FixedHeader): byte {
    fh.kind * 16 + EncodeBool(fh.dup) * 8 + fh.qos * 2 + EncodeBool(fh.retain)
  }

  function EncodeHeader(fh: FixedHeader): Bytes {
    [HeaderByte(fh)] + EncodedLength(fh.remaining)
  }

  datatype Header = Header(fh: FixedHeader) | BadHeader(error: Error)

  /** Decodes a first byte into a fresh header. */
  function DecodeHeader(hb: byte): Header {
    var kind: PacketType := hb / 16;
    var bit0, bit1, bit2, bit3 := hb % 2, hb / 2 % 2, hb / 4 % 2, hb / 8 % 2;
    var plain := FixedHeader(0, kind, 0, false, false);
    if kind == Publish then
      if bit1 > 0 && bit2 > 0 then BadHeader(QosOutOfRange)
      else
        var fh := plain.(dup := bit3 > 0, qos := hb / 2 % 4, retain := bit0 > 0);
        if fh.qos == 0 && fh.dup then BadHeader(DupWithoutQos) else Header(fh)
    else if kind == Pubrel || kind == Subscribe || kind == Unsubscribe then
      if bit0 != 0 || bit1 != 1 || bit2 != 0 || bit3 != 0 then BadHeader(MalformedFlags)
      else Header(plain.(qos := hb / 2 % 4))
    else if bit0 != 0 || bit1 != 0 || bit2 != 0 || bit3 != 0 then BadHeader(MalformedFlags)
    else Header(plain)
  }

  /** The headers section 2.1.3 allows, with DUP only on a message that can be acknowledged. */
  predicate ValidHeader(fh: FixedHeader) {
    if fh.kind == Publish then fh.qos < 3 && (fh.dup ==> fh.qos > 0)
    else !fh.dup && !fh.retain
         && fh.qos == if fh.kind == Pubrel || fh.kind == Subscribe || fh.kind == Unsubscribe then 1 else 0
  }

  /** Exactly the valid headers are read back, and reading accepts nothing else. */
  lemma HeaderRoundTrip(fh: FixedHeader)
    ensures DecodeHeader(HeaderByte(fh)) == Header(fh.(remaining := 0)) <==> ValidHeader(fh)
    ensures DecodeHeader(HeaderByte(fh)).Header? <==> ValidHeader(fh)
  {
    HeaderBits(fh);
  }

  lemma HeaderBits(fh: FixedHeader)
    ensures var hb := HeaderByte(fh);
            && hb / 16 == fh.kind && hb % 2 == EncodeBool(fh.retain)
            && hb / 2 % 4 == fh.qos && hb / 2 % 2 == fh.qos % 2 && hb / 4 % 2 == fh.qos / 2
            && hb / 8 % 2 == EncodeBool(fh.dup)
  {
    var hb: int, k: int, d: int, q: int := HeaderByte(fh), fh.kind, EncodeBool(fh.dup), fh.qos;
    assert hb / 2 == 8 * k + 4 * d + q;
    assert hb / 4 == 4 * k + 2 * d + q / 2;
    assert hb / 8 == 2 * k + d;
  }

  /**
   The first bytes that are accepted: for PUBLISH any flags but QoS 3, and DUP only above QoS 0; for
   all other types, the reserved type 0 included, those that sections 2.1.2 and 2.1.3 fix.
   */
  lemma FirstBytesExactly(hb: byte)
    ensures DecodeHeader(hb).Header? <==>
            || 0x30 <= hb <= 0x35 || 0x3A <= hb <= 0x3D
            || hb in {0x00, 0x10, 0x20, 0x40, 0x50, 0x62, 0x70, 0x82, 0x90, 0xA2, 0xB0, 0xC0, 0xD0, 0xE0, 0xF0}
  {
    ByteBits(hb);
  }

  /** A first byte that is accepted is the one its header is written with. */
  lemma HeaderBytesAreUnique(hb: byte)
    requires DecodeHeader(hb).Header?
    ensures HeaderByte(DecodeHeader(hb).fh) == hb && ValidHeader(DecodeHeader(hb).fh)
  {
    ByteBits(hb);
  }

  lemma ByteBits(hb: byte)
    ensures hb == hb / 16 * 16 + hb / 8 % 2 * 8 + hb / 4 % 2 * 4 + hb / 2 % 2 * 2 + hb % 2
    ensures hb / 2 % 4 == hb / 4 % 2 * 2 + hb / 2 % 2
  {
    var h1, h2, h3 := hb / 2, hb / 4, hb / 8;
    assert h1 / 2 == h2 && h2 / 2 == h3 && h3 / 2 == hb / 16;
    assert hb == 2 * h1 + hb % 2 && h1 == 2 * h2 + h1 % 2 && h2 == 2 * h3 + h2 % 2 && h3 == 2 * (hb / 16) + h3 % 2;
    assert h1 / 4 == h3;
  }
}
