/**
 Control packets on the wire: encoding, framing, and reading a stream of packets back
 (broker/packets/packets.go, broker/packets/fixedheader.go, broker/clients.go).
 */
module PacketStream {
  import opened Wrappers
  import opened Wire
  import opened FixedHeaders
  import opened PropertyBlock
  import opened PropertyWriting
  import opened ControlPackets
  import opened FilterPackets

  predicate IsAck(kind: PacketType) {
    Puback <= kind <= Pubcomp
  }

  predicate IsPing(kind: PacketType) {
    kind == Pingreq || kind == Pingresp
  }

  predicate HasFilters(kind: PacketType) {
    kind == FixedHeaders.Subscribe || kind == FixedHeaders.Unsubscribe
  }

  /** Packets that need an id are not written without one. */
  predicate MissesID(pk: Packet) {
    pk.packetID == 0 && (HasFilters(pk.header.kind) || (pk.header.kind == Publish && pk.header.qos > 0))
  }

  function Body(pk: Packet): Bytes {
    var kind := pk.header.kind;
    if kind == FixedHeaders.Connect then ConnectBody(pk)
    else if kind == Connack then ConnackBody(pk)
    else if kind == Publish then PublishBody(pk)
    else if IsAck(kind) then AckBody(pk)
    else if HasFilters(kind) then FiltersBody(pk)
    else if kind == Suback then SubackBody(pk)
    else if kind == Unsuback then UnsubackBody(pk)
    else if kind == Disconnect then DisconnectBody(pk)
    else if kind == Auth then AuthBody(pk)
    else []
  }

  /** The header a packet is written with: Remaining is the length of the body, except that pings keep theirs. */
  function WrittenHeader(pk: Packet): FixedHeader {
    if IsPing(pk.header.kind) then pk.header else pk.header.(remaining := |Body(pk)|)
  }

  function Framed(pk: Packet): Bytes {
    EncodeHeader(WrittenHeader(pk)) + Body(pk)
  }

  function Encode(pk: Packet): Result<Bytes, Error> {
    Checked(pk, Framed(pk))
  }

  /** The checks before the bytes of a packet are written. */
  function Checked(pk: Packet, framed: Bytes): Result<Bytes, Error> {
    if pk.header.kind == 0 then Failure(InvalidPacketType)
    else if MissesID(pk) then Failure(NoPacketID)
    else if pk.mods.maxSize > 0 && |framed| % 0x1_0000_0000 > pk.mods.maxSize then Failure(PacketTooLarge)
    else Success(framed)
  }

  // ---------- Reading ----------

  function DecodeBody(pk: Packet, px: Bytes): Decoded<Packet> {
    var kind := pk.header.kind;
    if kind == FixedHeaders.Connect then DecodeConnect(pk, px)
    else if kind == Connack then DecodeConnack(pk, px)
    else if kind == Publish then DecodePublish(pk, px)
    else if IsAck(kind) then DecodeAck(pk, px)
    else if HasFilters(kind) then DecodeFiltersPacket(pk, px)
    else if kind == Suback then DecodeSuback(pk, px)
    else if kind == Unsuback then DecodeUnsuback(pk, px)
    else if kind == Disconnect then DecodeDisconnect(pk, px)
    else if kind == Auth then DecodeAuth(pk, px)
    else if IsPing(kind) then Decoded(pk, 0)
    else Failed(InvalidPacketType)
  }

  /** Reads a fixed header and checks the packet size; `next` is where the body starts. */
  function ReadFixedHeader(s: Bytes, maximumPacketSize: uint32): (r: Decoded<FixedHeader>)
    ensures r.Decoded? ==> 0 < r.next <= |s|
  {
    if s == [] then Failed(EndOfInput)
    else
      match DecodeHeader(s[0])
      case BadHeader(e) => Failed(e)
      case Header(fh) =>
        match LengthOf(s[1..])
        case BadLength(e) => Failed(e)
        case Length(n, bu) =>
          if maximumPacketSize > 0 && n + 1 > maximumPacketSize then Failed(PacketTooLarge)
          else Decoded(fh.(remaining := n), 1 + bu)
  }

  /** Reads one packet off the front of a stream with a decoder of bodies; `next` is where the stream goes on. */
  function ReadFramed(decode: (Packet, Bytes) -> Decoded<Packet>, s: Bytes, version: byte, maximumPacketSize: uint32)
    : (r: Decoded<Packet>)
    ensures r.Decoded? ==> 0 < r.next <= |s|
  {
    match ReadFixedHeader(s, maximumPacketSize)
    case Failed(e) => Failed(e)
    case Decoded(fh, start) =>
      var end := start + fh.remaining;
      if |s| < end then Failed(EndOfInput)
      else
        match decode(Fresh(fh, version), s[start..end])
        case Failed(e) => Failed(e)
        case Decoded(pk, _) => Decoded(pk, end)
  }

  function ReadPacket(s: Bytes, version: byte, maximumPacketSize: uint32): (r: Decoded<Packet>)
    ensures r.Decoded? ==> 0 < r.next <= |s|
  {
    ReadFramed(DecodeBody, s, version, maximumPacketSize)
  }

  /** The version later packets are read with: a CONNECT sets it. */
  function VersionAfter(pk: Packet, version: byte): byte {
    if pk.header.kind == FixedHeaders.Connect then pk.version else version
  }

  /** All packets of a stream, after those that were read before. */
  function PacketsFrom(s: Bytes, version: byte, maximumPacketSize: uint32, done: seq<Packet>): Decoded<seq<Packet>>
    decreases |s|
  {
    if s == [] then Decoded(done, 0)
    else
      match ReadPacket(s, version, maximumPacketSize)
      case Failed(e) => Failed(e)
      case Decoded(pk, next) => PacketsFrom(s[next..], VersionAfter(pk, version), maximumPacketSize, done + [pk])
  }

  /** The reading loop of a connection, up to the end of what was sent. */
  method ReadPackets(b: Buffer, version: byte, maximumPacketSize: uint32) returns (r: Decoded<seq<Packet>>)
    modifies b
    ensures r == PacketsFrom(old(b.data), version, maximumPacketSize, [])
  {
    var pks: seq<Packet>, v := [], version;
    while b.data != []
      invariant PacketsFrom(old(b.data), version, maximumPacketSize, []) ==
                PacketsFrom(b.data, v, maximumPacketSize, pks)
      decreases |b.data|
    {
      var p := ReadPacket(b.data, v, maximumPacketSize);
      if p.Failed? {
        return Failed(p.error);
      }
      b.data := b.data[p.next..];
      pks, v := pks + [p.value], VersionAfter(p.value, v);
    }
    return Decoded(pks, 0);
  }

  // ---------- The normal form ----------

  /** The packet a reader gets for a packet that was written. */
  function Received(pk: Packet): Packet {
    var kind, into := pk.header.kind, Fresh(WrittenHeader(pk), pk.version);
    if kind == FixedHeaders.Connect then
      into.(reservedBit := 0, properties := NormalProperties(pk, 0), connect := NormalConnect(pk))
    else if kind == Connack then
      into.(sessionPresent := pk.sessionPresent, reasonCode := pk.reasonCode, properties := NormalProperties(pk, 4))
    else if kind == Publish then
      into.(topicName := pk.topicName, packetID := if pk.header.qos > 0 then pk.packetID else 0,
            properties := NormalProperties(pk, PublishN(pk)), payload := pk.payload)
    else if IsAck(kind) then
      into.(packetID := pk.packetID, reasonCode := NormalAckCode(pk), properties := NormalProperties(pk, 2))
    else if HasFilters(kind) then
      into.(packetID := pk.packetID, properties := NormalProperties(pk, FiltersN(pk)), filters := NormalFiltersOf(pk))
    else if kind == Suback then
      into.(packetID := pk.packetID, properties := NormalProperties(pk, 2 + |pk.reasonCodes|),
            reasonCodes := pk.reasonCodes)
    else if kind == Unsuback then
      if pk.version == 5 then
        into.(packetID := pk.packetID, properties := NormalProperties(pk, 2), reasonCodes := pk.reasonCodes)
      else into.(packetID := pk.packetID)
    else if kind == Disconnect then
      if pk.version == 5 then into.(reasonCode := pk.reasonCode, properties := NormalProperties(pk, 1)) else into
    else if kind == Auth then
      into.(reasonCode := pk.reasonCode, properties := Normal(pk.properties, Writing(kind, pk.mods, 1)))
    else into
  }

  /** The fields a packet is made of fit the wire. */
  predicate BodyFits(pk: Packet) {
    var kind := pk.header.kind;
    if kind == FixedHeaders.Connect then ConnectFits(pk)
    else if kind == Connack then PropertiesFit(pk, 4)
    else if kind == Publish then FitsString(pk.topicName) && PropertiesFit(pk, PublishN(pk))
    else if IsAck(kind) || kind == Unsuback then PropertiesFit(pk, 2)
    else if HasFilters(kind) then FiltersFit(FormOf(pk, 0), pk.filters) && PropertiesFit(pk, FiltersN(pk))
    else if kind == Suback then PropertiesFit(pk, 2 + |pk.reasonCodes|)
    else if kind == Disconnect then PropertiesFit(pk, 1)
    else if kind == Auth then FitsWire(pk.properties) && BlockFits(pk.properties, Writing(kind, pk.mods, 1))
    else true
  }

  /** A packet that can be sent: valid header, an id where it needs one, fields and body that fit. */
  predicate WellFormed(pk: Packet) {
    && pk.header.kind > 0 && ValidHeader(pk.header) && !MissesID(pk)
    && BodyFits(pk) && |Body(pk)| <= MaxLength
    && (IsPing(pk.header.kind) ==> pk.header.remaining == 0)
  }

  lemma BodyReadsBack(pk: Packet, version: byte)
    requires WellFormed(pk) && (pk.header.kind != FixedHeaders.Connect ==> version == pk.version)
    ensures var r := DecodeBody(Fresh(WrittenHeader(pk), version), Body(pk));
            r.Decoded? && r.value == Received(pk)
  {
    var kind, into := pk.header.kind, Fresh(WrittenHeader(pk), version);
    if kind == FixedHeaders.Connect {
      ConnectReadsBack(pk, into);
    } else if kind == Connack {
      ConnackReadsBack(pk, into);
    } else if kind == Publish {
      PublishReadsBack(pk, into);
    } else if IsAck(kind) {
      AckReadsBack(pk, into);
    } else if HasFilters(kind) {
      FiltersPacketReadsBack(pk, into);
    } else if kind == Suback {
      SubackReadsBack(pk, into);
    } else if kind == Unsuback {
      UnsubackReadsBack(pk, into);
    } else if kind == Disconnect {
      DisconnectReadsBack(pk, into);
    } else if kind == Auth {
      AuthReadsBack(pk, into);
    }
  }

  // ---------- One packet ----------

  predicate SizeAccepted(remaining: nat, maximumPacketSize: uint32) {
    maximumPacketSize == 0 || remaining + 1 <= maximumPacketSize
  }

  lemma FixedHeaderReadsBack(fh: FixedHeader, rest: Bytes, maximumPacketSize: uint32)
    requires ValidHeader(fh) && fh.remaining <= MaxLength && SizeAccepted(fh.remaining, maximumPacketSize)
    ensures Gives(ReadFixedHeader(EncodeHeader(fh) + rest, maximumPacketSize), fh, |EncodeHeader(fh)|)
  {
    var s, length := EncodeHeader(fh) + rest, EncodedLength(fh.remaining);
    assert s[0] == HeaderByte(fh) && s[1..] == length + rest;
    HeaderRoundTrip(fh);
    LengthRoundTrip(fh.remaining, rest);
  }

  lemma FramedReads(decode: (Packet, Bytes) -> Decoded<Packet>, s: Bytes, version: byte, maximumPacketSize: uint32,
                    fh: FixedHeader, head: Bytes, body: Bytes, rest: Bytes, pk: Packet, n: nat)
    requires s == head + body + rest && fh.remaining == |body|
    requires Gives(ReadFixedHeader(s, maximumPacketSize), fh, |head|)
    requires Gives(decode(Fresh(fh, version), body), pk, n)
    ensures Gives(ReadFramed(decode, s, version, maximumPacketSize), pk, |head + body|)
  {
    assert s[|head|..|head| + |body|] == body;
  }

  /** A well-formed packet is read back in its normal form, whatever follows it on the wire. */
  lemma PacketRoundTrip(pk: Packet, rest: Bytes, version: byte, maximumPacketSize: uint32)
    requires WellFormed(pk) && SizeAccepted(|Body(pk)|, maximumPacketSize)
    requires pk.header.kind != FixedHeaders.Connect ==> version == pk.version
    ensures Gives(ReadPacket(Framed(pk) + rest, version, maximumPacketSize), Received(pk), |Framed(pk)|)
    ensures Received(pk).header.remaining == |Body(pk)| && Received(pk).header.kind == pk.header.kind
  {
    var n := BodyReads(DecodeBody, pk, version);
    HeaderReads(pk, rest, maximumPacketSize);
    FramedReads(DecodeBody, Framed(pk) + rest, version, maximumPacketSize, WrittenHeader(pk),
                EncodeHeader(WrittenHeader(pk)), Body(pk), rest, Received(pk), n);
  }

  lemma BodyReads(decode: (Packet, Bytes) -> Decoded<Packet>, pk: Packet, version: byte) returns (n: nat)
    requires WellFormed(pk) && (pk.header.kind != FixedHeaders.Connect ==> version == pk.version)
             && decode == DecodeBody
    ensures Gives(decode(Fresh(WrittenHeader(pk), version), Body(pk)), Received(pk), n)
  {
    BodyReadsBack(pk, version);
    n := DecodeBody(Fresh(WrittenHeader(pk), version), Body(pk)).next;
  }

  lemma HeaderReads(pk: Packet, rest: Bytes, maximumPacketSize: uint32)
    requires WellFormed(pk) && SizeAccepted(|Body(pk)|, maximumPacketSize)
    ensures WrittenHeader(pk).remaining == |Body(pk)|
    ensures Gives(ReadFixedHeader(Framed(pk) + rest, maximumPacketSize), WrittenHeader(pk),
                  |EncodeHeader(WrittenHeader(pk))|)
  {
    Regroup(EncodeHeader(WrittenHeader(pk)), Body(pk), rest);
    FixedHeaderReadsBack(WrittenHeader(pk), Body(pk) + rest, maximumPacketSize);
  }

  // ---------- A stream of packets ----------

  function FramedAll(pks: seq<Packet>): Bytes
    decreases |pks|
  {
    if pks == [] then [] else Framed(pks[0]) + FramedAll(pks[1..])
  }

  function ReceivedAll(pks: seq<Packet>): (r: seq<Packet>)
    ensures |r| == |pks|
    decreases |pks|
  {
    if pks == [] then [] else [Received(pks[0])] + ReceivedAll(pks[1..])
  }

  /** Well-formed packets that the reader accepts, each in the version that is set when it comes. */
  predicate Readable(pks: seq<Packet>, version: byte, maximumPacketSize: uint32)
    decreases |pks|
  {
    pks == [] ||
    (&& WellFormed(pks[0]) && SizeAccepted(|Body(pks[0])|, maximumPacketSize)
     && (pks[0].header.kind == FixedHeaders.Connect || pks[0].version == version)
     && Readable(pks[1..], pks[0].version, maximumPacketSize))
  }

  lemma PacketsFromNext(s: Bytes, version: byte, maximumPacketSize: uint32, done: seq<Packet>, pk: Packet, next: nat)
    requires s != [] && Gives(ReadPacket(s, version, maximumPacketSize), pk, next) && next <= |s|
    ensures PacketsFrom(s, version, maximumPacketSize, done) ==
            PacketsFrom(s[next..], VersionAfter(pk, version), maximumPacketSize, done + [pk])
  {
  }

  lemma OnePacketThenRest(done: seq<Packet>, pk: Packet, rest: seq<Packet>)
    ensures done + [pk] + rest == done + ([pk] + rest)
  {
  }

  lemma VersionKept(pk: Packet, version: byte)
    requires WellFormed(pk) && (pk.header.kind == FixedHeaders.Connect || pk.version == version)
    ensures VersionAfter(Received(pk), version) == pk.version
  {
  }

  /** Packets that are encoded one after the other are read back as the same list, in normal form. */
  lemma {:induction false} StreamRoundTrip(pks: seq<Packet>, version: byte, maximumPacketSize: uint32,
      done: seq<Packet>)
    requires Readable(pks, version, maximumPacketSize)
    ensures PacketsFrom(FramedAll(pks), version, maximumPacketSize, done) == Decoded(done + ReceivedAll(pks), 0)
    decreases |pks|
  {
    if pks == [] {
      assert done + [] == done;
    } else {
      var pk, rest := pks[0], pks[1..];
      var s := FramedAll(pks);
      PacketRoundTrip(pk, FramedAll(rest), version, maximumPacketSize);
      VersionKept(pk, version);
      PacketsFromNext(s, version, maximumPacketSize, done, Received(pk), |Framed(pk)|);
      assert s[|Framed(pk)|..] == FramedAll(rest);
      StreamRoundTrip(rest, pk.version, maximumPacketSize, done + [Received(pk)]);
      OnePacketThenRest(done, Received(pk), ReceivedAll(rest));
    }
  }

  lemma WholeStream(pks: seq<Packet>, version: byte, maximumPacketSize: uint32)
    requires Readable(pks, version, maximumPacketSize)
    ensures PacketsFrom(FramedAll(pks), version, maximumPacketSize, []) == Decoded(ReceivedAll(pks), 0)
  {
    StreamRoundTrip(pks, version, maximumPacketSize, []);
    assert [] + ReceivedAll(pks) == ReceivedAll(pks);
  }

  /** Lists that look the same on the wire are the same in normal form. */
  lemma StreamsTellApart(pks: seq<Packet>, others: seq<Packet>, version: byte, maximumPacketSize: uint32)
    requires Readable(pks, version, maximumPacketSize) && Readable(others, version, maximumPacketSize)
    requires FramedAll(pks) == FramedAll(others)
    ensures ReceivedAll(pks) == ReceivedAll(others)
  {
    WholeStream(pks, version, maximumPacketSize);
    WholeStream(others, version, maximumPacketSize);
  }

  /**
   A packet can be sent exactly when its type is not the reserved one, it has an id where SUBSCRIBE,
   UNSUBSCRIBE and PUBLISH above QoS 0 need one, and it fits what the receiver takes.
   */
  lemma SentExactly(pk: Packet, framed: Bytes)
    requires |framed| < 0x1_0000_0000
    ensures Checked(pk, framed).Success? <==>
            && pk.header.kind > 0
            && (pk.header.kind in {8, 10} || (pk.header.kind == 3 && pk.header.qos > 0) ==> pk.packetID > 0)
            && (pk.mods.maxSize > 0 ==> |framed| <= pk.mods.maxSize)
    ensures Checked(pk, framed).Success? ==> Checked(pk, framed).value == framed
  {
  }

  /** A packet whose body and first byte pass the maximum size is refused before its body is read. */
  lemma OversizeIsRefused(pk: Packet, rest: Bytes, version: byte, maximumPacketSize: uint32)
    requires WellFormed(pk) && maximumPacketSize > 0 && |Body(pk)| + 1 > maximumPacketSize
    ensures ReadPacket(Framed(pk) + rest, version, maximumPacketSize) == Failed(PacketTooLarge)
  {
    OversizeHeader(WrittenHeader(pk), Body(pk) + rest, maximumPacketSize);
    Regroup(EncodeHeader(WrittenHeader(pk)), Body(pk), rest);
  }

  lemma OversizeHeader(fh: FixedHeader, rest: Bytes, maximumPacketSize: uint32)
    requires ValidHeader(fh) && fh.remaining <= MaxLength && maximumPacketSize > 0
    requires fh.remaining + 1 > maximumPacketSize
    ensures ReadFixedHeader(EncodeHeader(fh) + rest, maximumPacketSize) == Failed(PacketTooLarge)
  {
    var s, length := EncodeHeader(fh) + rest, EncodedLength(fh.remaining);
    assert s[0] == HeaderByte(fh) && s[1..] == length + rest;
    HeaderRoundTrip(fh);
    LengthRoundTrip(fh.remaining, rest);
  }

  /** An acknowledgement's reason code below 0x80 is read back exactly when properties come with it. */
  lemma AckReasonSurvives(pk: Packet)
    requires WellFormed(pk) && IsAck(pk.header.kind) && pk.version == 5 && 0 < pk.reasonCode
    ensures Received(pk).reasonCode == pk.reasonCode <==>
            pk.reasonCode >= 0x80 || Received(pk).properties != NoProperties
  {
  }

  /** Writing the packets of a list one after the other; a packet that cannot be sent ends it. */
  method WritePackets(pks: seq<Packet>, b: Buffer) returns (sent: nat)
    modifies b
    ensures sent <= |pks| && b.data == old(b.data) + FramedAll(pks[..sent])
    ensures sent < |pks| ==> Encode(pks[sent]).Failure?
    ensures (forall pk | pk in pks :: Encode(pk).Success?) ==> sent == |pks|
  {
    ghost var before := b.data;
    Regroup(before, [], []);
    sent := 0;
    while sent < |pks|
      invariant sent <= |pks| && b.data == before + FramedAll(pks[..sent])
    {
      var e := Encode(pks[sent]);
      if e.Failure? {
        return;
      }
      b.Write(e.value);
      FramedMore(pks, sent);
      Regroup(before, FramedAll(pks[..sent]), Framed(pks[sent]));
      sent := sent + 1;
    }
  }

  lemma {:induction false} FramedBoth(a: seq<Packet>, b: seq<Packet>)
    ensures FramedAll(a + b) == FramedAll(a) + FramedAll(b)
    decreases |a|
  {
    if a == [] {
      assert a + b == b;
    } else {
      assert (a + b)[1..] == a[1..] + b;
      FramedBoth(a[1..], b);
      Regroup(Framed(a[0]), FramedAll(a[1..]), FramedAll(b));
    }
  }

  lemma FramedMore(pks: seq<Packet>, n: nat)
    requires n < |pks|
    ensures FramedAll(pks[..n + 1]) == FramedAll(pks[..n]) + Framed(pks[n])
  {
    assert pks[..n + 1] == pks[..n] + [pks[n]];
    FramedBoth(pks[..n], [pks[n]]);
    assert [pks[n]][1..] == [];
    assert FramedAll([pks[n]]) == Framed(pks[n]) + FramedAll([]);
  }
}
