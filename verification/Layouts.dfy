/**
 Where the fields of a packet stand on the wire, section by section of MQTT 5.0 and byte by byte,
 without the encoders' own parts: the round trips hold for any layout, these lemmas fix it.
 */
module Layouts {
  import opened Wire
  import opened FixedHeaders
  import opened PropertyBlock
  import opened PropertyWriting
  import opened ControlPackets
  import opened FilterPackets
  import opened PacketStream

  /** Section 1.5.2: two bytes, the high one first. */
  function Pair(n: int): Bytes
    requires 0 <= n < 0x1_0000
  {
    [n / 0x100, n % 0x100]
  }

  /** Sections 1.5.4 and 1.5.6: a string or binary data behind its length. */
  function Prefixed(s: Bytes): Bytes
    requires |s| < 0x1_0000
  {
    Pair(|s|) + s
  }

  function If(c: bool, s: Bytes): Bytes {
    if c then s else []
  }

  /** The property block of a packet, which version 5 has. */
  function Block(pk: Packet, pkt: Owner, p: Properties, n: nat): Bytes {
    If(pk.version == 5, EncodeBlock(p, Writing(pkt, pk.mods, n)))
  }

  /** Section 2.2.2: the properties of a packet are those of its type, in version 5 only. */
  lemma PropertiesByType(pk: Packet, n: nat)
    ensures PropertyPart(pk, n) == Block(pk, pk.header.kind, pk.properties, n)
  {
  }

  /** Section 2.1: the type in the high four bits, then DUP, two bits of QoS, and RETAIN. */
  lemma FirstByte(pk: Packet)
    requires WellFormed(pk)
    ensures var b: int, h := Framed(pk)[0], pk.header;
            && b / 16 == h.kind
            && (h.kind == 3 ==> b % 16 == (if h.dup then 8 else 0) + 2 * h.qos + (if h.retain then 1 else 0))
            && (h.kind in {6, 8, 10} ==> b % 16 == 2)
            && (h.kind !in {3, 6, 8, 10} ==> b % 16 == 0)
  {
    HeaderBits(pk.header);
  }

  /** Sections 2.1.2 and 3: the numbers of the packet types. */
  lemma TypeNumbers()
    ensures [FixedHeaders.Connect, Connack, Publish, Puback, Pubrec, Pubrel, Pubcomp, FixedHeaders.Subscribe, Suback,
             FixedHeaders.Unsubscribe, Unsuback, Pingreq, Pingresp, Disconnect, Auth] ==
            [1, 2, 3, 4, 5, 6, 7, 8, 9, 10, 11, 12, 13, 14, 15]
  {
  }

  /** Which body belongs to which type. */
  lemma BodyByType(pk: Packet)
    ensures match pk.header.kind
            case 1 => Body(pk) == ConnectBody(pk)
            case 2 => Body(pk) == ConnackBody(pk)
            case 3 => Body(pk) == PublishBody(pk)
            case 4 | 5 | 6 | 7 => Body(pk) == AckBody(pk)
            case 8 | 10 => Body(pk) == FiltersBody(pk)
            case 9 => Body(pk) == SubackBody(pk)
            case 11 => Body(pk) == UnsubackBody(pk)
            case 14 => Body(pk) == DisconnectBody(pk)
            case 15 => Body(pk) == AuthBody(pk)
            case _ => Body(pk) == []
  {
  }

  /** Section 2.1.4: behind the first byte the length of all that follows. */
  lemma Frame(pk: Packet)
    requires WellFormed(pk)
    ensures Framed(pk) == [Framed(pk)[0]] + EncodedLength(|Body(pk)|) + Body(pk)
  {
  }

  /** Section 3.1.2.3, from the low bit up. */
  lemma ConnectFlags(c: ConnectParams)
    ensures var f: int := FlagsByte(c);
            && f % 2 == 0 && (f / 2 % 2 == 1 <==> c.clean) && (f / 4 % 2 == 1 <==> c.willFlag)
            && f / 8 % 4 == c.willQos && (f / 32 % 2 == 1 <==> c.willRetain)
            && (f / 64 % 2 == 1 <==> c.passwordFlag) && (f / 128 == 1 <==> c.usernameFlag)
  {
    FlagBits(c);
  }

  lemma PrefixedExactly(s: Bytes)
    requires |s| < 0x1_0000
    ensures EncodeBytes(s) == Prefixed(s)
  {
  }

  function Optional(c: bool, s: Bytes): Bytes
    requires c ==> |s| < 0x1_0000
  {
    if c then Prefixed(s) else []
  }

  /** Section 3.1: name, version, flags, keep alive, properties; then client id, will, user name, password. */
  lemma ConnectLayout(pk: Packet)
    requires ConnectFits(pk)
    ensures var c := pk.connect;
            ConnectBody(pk) ==
            Prefixed(c.protocolName) + [pk.version, FlagsByte(c)] + Pair(c.keepalive) + PropertyPart(pk, 0)
            + Prefixed(c.clientIdentifier) + WillPart(pk)
            + Optional(c.usernameFlag, c.username) + Optional(c.passwordFlag, c.password)
  {
    var c := pk.connect;
    PrefixedExactly(c.protocolName);
    PrefixedExactly(c.clientIdentifier);
    CredentialsAre(c);
    ConnectBytes(pk, PropertyPart(pk, 0), WillPart(pk), Prefixed(c.protocolName), Prefixed(c.clientIdentifier),
                 Optional(c.usernameFlag, c.username), Optional(c.passwordFlag, c.password));
  }

  lemma CredentialsAre(c: ConnectParams)
    requires (c.usernameFlag ==> |c.username| < 0x1_0000) && (c.passwordFlag ==> |c.password| < 0x1_0000)
    ensures CredentialsPart(c) == Optional(c.usernameFlag, c.username) + Optional(c.passwordFlag, c.password)
  {
    OptionalExactly(c.usernameFlag, c.username);
    OptionalExactly(c.passwordFlag, c.password);
  }

  lemma OptionalExactly(c: bool, s: Bytes)
    requires c ==> |s| < 0x1_0000
    ensures Optional(c, s) == if c then EncodeBytes(s) else []
  {
    if c {
      PrefixedExactly(s);
    }
  }

  lemma ConnectBytes(pk: Packet, block: Bytes, will: Bytes, name: Bytes, id: Bytes, user: Bytes, password: Bytes)
    requires block == PropertyPart(pk, 0) && will == WillPart(pk)
    requires name == EncodeBytes(pk.connect.protocolName) && id == EncodeBytes(pk.connect.clientIdentifier)
    requires CredentialsPart(pk.connect) == user + password
    ensures ConnectBody(pk) ==
            name + [pk.version, FlagsByte(pk.connect)] + Pair(pk.connect.keepalive) + block
            + id + will + user + password
  {
    Nine(name, pk.version, FlagsByte(pk.connect), Pair(pk.connect.keepalive), block, id, will, user, password);
  }

  /** Section 3.1.3: a will has properties of a type of their own, a topic and a payload. */
  lemma WillLayout(pk: Packet)
    requires pk.connect.willFlag && |pk.connect.willTopic| < 0x1_0000 && |pk.connect.willPayload| < 0x1_0000
    ensures var c := pk.connect;
            WillPart(pk) == Block(pk, 99, c.willProperties, 0) + Prefixed(c.willTopic) + Prefixed(c.willPayload)
  {
    var c := pk.connect;
    WillBlockIs(pk);
    PrefixedExactly(c.willTopic);
    PrefixedExactly(c.willPayload);
    WillBytes(pk, Block(pk, 99, c.willProperties, 0), Prefixed(c.willTopic), Prefixed(c.willPayload));
  }

  lemma WillBlockIs(pk: Packet)
    ensures WillBlock(pk) == Block(pk, 99, pk.connect.willProperties, 0)
    ensures !pk.connect.willFlag ==> WillPart(pk) == []
  {
  }

  lemma WillBytes(pk: Packet, block: Bytes, topic: Bytes, payload: Bytes)
    requires pk.connect.willFlag && block == WillBlock(pk)
    requires topic == EncodeBytes(pk.connect.willTopic) && payload == EncodeBytes(pk.connect.willPayload)
    ensures WillPart(pk) == block + topic + payload
  {
    Regroup(block, topic, payload);
  }

  lemma Nine(a: Bytes, v: byte, f: byte, k: Bytes, p: Bytes, i: Bytes, w: Bytes, u: Bytes, x: Bytes)
    ensures a + ([v] + ([f] + k)) + (p + (i + (w + (u + x)))) == a + [v, f] + k + p + i + w + u + x
  {
  }

  /** Section 3.2: session present, reason code, properties. */
  lemma ConnackLayout(pk: Packet)
    requires pk.header.kind == 2
    ensures ConnackBody(pk) ==
            [if pk.sessionPresent then 1 else 0, pk.reasonCode] + PropertyPart(pk, 4)
  {
  }

  /** The id of a packet, above QoS 0. */
  function IdBytes(pk: Packet): Bytes {
    if pk.header.qos > 0 then Pair(pk.packetID) else []
  }

  /** Section 3.3: topic, id above QoS 0, properties, payload. */
  lemma PublishLayout(pk: Packet, n: nat)
    requires |pk.topicName| < 0x1_0000 && n == 2 + |pk.topicName| + |IdBytes(pk)| + |pk.payload|
    ensures PublishBody(pk) == Prefixed(pk.topicName) + IdBytes(pk) + PropertyPart(pk, n) + pk.payload
  {
    PrefixedExactly(pk.topicName);
    PublishSize(pk);
    PublishBytes(pk, Prefixed(pk.topicName), IdBytes(pk), n);
  }

  lemma PublishSize(pk: Packet)
    ensures IdPart(pk) == IdBytes(pk)
    ensures PublishN(pk) == 2 + |pk.topicName| + |IdBytes(pk)| + |pk.payload|
  {
  }

  lemma PublishBytes(pk: Packet, topic: Bytes, id: Bytes, n: nat)
    requires topic == EncodeBytes(pk.topicName) && id == IdPart(pk) && n == PublishN(pk)
    ensures PublishBody(pk) == topic + id + PropertyPart(pk, n) + pk.payload
  {
    Regroup(topic + id, PropertyPart(pk, n), pk.payload);
  }

  /** Sections 3.4 to 3.7: id, and in version 5 reason code and properties, as far as they are needed. */
  lemma AckLayout(pk: Packet)
    requires 4 <= pk.header.kind <= 7 && PropertiesFit(pk, 2)
    ensures var block := PropertyPart(pk, 2);
            AckBody(pk) ==
            Pair(pk.packetID) + (if |block| > 1 then [pk.reasonCode] + block
                                 else if pk.version == 5 && pk.reasonCode >= 0x80 then [pk.reasonCode]
                                 else [])
  {
  }

  /** Section 3.8.3.1, from the low bit up; before version 5 only the QoS. */
  lemma SubscriptionOptions(version: byte, s: ControlPackets.Subscription)
    ensures var o: int := OptionByte(version, s);
            if version == 5 then
              && o % 4 == s.qos && (o / 4 % 2 == 1 <==> s.noLocal) && (o / 8 % 2 == 1 <==> s.retainAsPublished)
              && o / 16 == s.retainHandling
            else o == s.qos
  {
    var o: int, q: int, h: int := OptionByte(version, s), s.qos, s.retainHandling;
    var n: int, r: int := EncodeBool(s.noLocal), EncodeBool(s.retainAsPublished);
    if version == 5 {
      assert o == q + 4 * (n + 2 * (r + 2 * h));
      assert o / 4 == n + 2 * (r + 2 * h) && o / 8 == r + 2 * h && o / 16 == h;
    }
  }

  /** A filter behind its length, and in a SUBSCRIBE its option byte. */
  function OneFilter(s: ControlPackets.Subscription, options: bool, version: byte): Bytes
    requires |s.filter| < 0x1_0000
  {
    Prefixed(s.filter) + (if options then [OptionByte(version, s)] else [])
  }

  function FilterBytes(filters: seq<ControlPackets.Subscription>, options: bool, version: byte): Bytes
    requires forall s | s in filters :: |s.filter| < 0x1_0000
    decreases |filters|
  {
    if filters == [] then []
    else OneFilter(filters[0], options, version) + FilterBytes(filters[1..], options, version)
  }

  lemma OneFilterExactly(pk: Packet, s: ControlPackets.Subscription)
    requires |s.filter| < 0x1_0000
    ensures EncodeFilter(FormOf(pk, 0), s) == OneFilter(s, pk.header.kind == 8, pk.version)
  {
    PrefixedExactly(s.filter);
  }

  lemma {:induction false} FiltersAsBytes(pk: Packet, filters: seq<ControlPackets.Subscription>)
    requires forall s | s in filters :: |s.filter| < 0x1_0000
    ensures EncodeFilters(FormOf(pk, 0), filters) == FilterBytes(filters, pk.header.kind == 8, pk.version)
    decreases |filters|
  {
    if filters != [] {
      OneFilterExactly(pk, filters[0]);
      FiltersAsBytes(pk, filters[1..]);
    }
  }

  /** Sections 3.8 and 3.10: id, properties, filters. */
  lemma FiltersLayout(pk: Packet)
    requires pk.header.kind in {8, 10} && forall s | s in pk.filters :: |s.filter| < 0x1_0000
    ensures var filters := FilterBytes(pk.filters, pk.header.kind == 8, pk.version);
            FiltersBody(pk) == Pair(pk.packetID) + PropertyPart(pk, 2 + |filters|) + filters
  {
    FiltersAsBytes(pk, pk.filters);
    Regroup(EncodeUint16(pk.packetID), PropertyPart(pk, FiltersN(pk)), EncodeFilters(FormOf(pk, 0), pk.filters));
  }

  /** Section 3.9: id, properties, reason codes. */
  lemma SubackLayout(pk: Packet)
    requires pk.header.kind == 9
    ensures SubackBody(pk) == Pair(pk.packetID) + PropertyPart(pk, 2 + |pk.reasonCodes|) + pk.reasonCodes
  {
    Regroup(Pair(pk.packetID), PropertyPart(pk, 2 + |pk.reasonCodes|), pk.reasonCodes);
  }

  /** Section 3.11: the same, but before version 5 the id alone. */
  lemma UnsubackLayout(pk: Packet)
    requires pk.header.kind == 11
    ensures UnsubackBody(pk) ==
            Pair(pk.packetID) + PropertyPart(pk, 2) + (if pk.version == 5 then pk.reasonCodes else [])
  {
    Regroup(Pair(pk.packetID), PropertyPart(pk, 2), pk.reasonCodes);
    Regroup(Pair(pk.packetID), [], []);
  }

  /** Sections 3.14 and 3.15: a reason code and properties; before version 5 a DISCONNECT is empty. */
  lemma DisconnectLayout(pk: Packet)
    requires pk.header.kind == 14
    ensures DisconnectBody(pk) == if pk.version == 5 then [pk.reasonCode] + PropertyPart(pk, 1) else []
  {
  }

  lemma AuthLayout(pk: Packet)
    requires pk.header.kind == 15
    ensures AuthBody(pk) == [pk.reasonCode] + EncodeBlock(pk.properties, Writing(15, pk.mods, 1))
  {
  }

  /** Section 2.2.2: a block is a length and, for each property, its identifier and its value. */
  lemma ValueLayout(v: Value)
    requires v.StringValue? ==> |v.s| < 0x1_0000
    requires v.BytesValue? ==> |v.data| < 0x1_0000
    requires v.PairValue? ==> |v.pair.key| < 0x1_0000 && |v.pair.val| < 0x1_0000
    ensures match v
            case ByteValue(b) => EncodeValue(v) == [b]
            case Uint16Value(n) => EncodeValue(v) == Pair(n)
            case Uint32Value(w) => EncodeValue(v) == Pair(w / 0x1_0000) + Pair(w % 0x1_0000)
            case LengthValue(l) => EncodeValue(v) == EncodedLength(l)
            case StringValue(s) => EncodeValue(v) == Prefixed(s)
            case BytesValue(d) => EncodeValue(v) == Prefixed(d)
            case PairValue(u) => EncodeValue(v) == Prefixed(u.key) + Prefixed(u.val)
  {
    match v
    case Uint32Value(w) => FourBytesLayout(w);
    case StringValue(s) => PrefixedExactly(s);
    case BytesValue(d) => PrefixedExactly(d);
    case PairValue(u) =>
      PrefixedExactly(u.key);
      PrefixedExactly(u.val);
    case _ =>
  }

  lemma FourBytesLayout(w: uint32)
    ensures EncodeUint32(w) == Pair(w / 0x1_0000) + Pair(w % 0x1_0000)
  {
    var h: int, l: int := w / 0x1_0000, w % 0x1_0000;
    assert w / 0x100_0000 == h / 0x100;
    assert w / 0x100 == h * 0x100 + l / 0x100;
  }

  // ---------- What arrives ----------

  /** What a reader gets of a CONNECT: everything, and behind a flag that is not set nothing. */
  lemma ConnectArrives(pk: Packet)
    requires pk.header.kind == 1
    ensures var r, c := NormalConnect(pk), pk.connect;
            && r.protocolName == c.protocolName && r.clientIdentifier == c.clientIdentifier
            && r.keepalive == c.keepalive && r.clean == c.clean
            && r.willFlag == c.willFlag && r.willQos == c.willQos && r.willRetain == c.willRetain
            && r.usernameFlag == c.usernameFlag && r.passwordFlag == c.passwordFlag
            && r.willTopic == (if c.willFlag then c.willTopic else [])
            && r.willPayload == (if c.willFlag then c.willPayload else [])
            && r.username == (if c.usernameFlag then c.username else [])
            && r.password == (if c.passwordFlag then c.password else [])
            && r.willProperties == (if c.willFlag && pk.version == 5
                                    then Normal(c.willProperties, Writing(99, pk.mods, 0)) else NoProperties)
  {
  }

  /** The first subscription identifier of a packet is that of all its filters. */
  lemma IdentifierArrives(p: Properties)
    ensures p.subscriptionIdentifier == [] ==> FirstIdentifier(p) == 0
    ensures p.subscriptionIdentifier != [] ==> FirstIdentifier(p) == p.subscriptionIdentifier[0]
  {
  }

  /** What a reader gets of any other packet, but for its properties and filters. */
  lemma FieldsArrive(pk: Packet, r: Packet)
    requires r == Received(pk)
    ensures var kind := pk.header.kind;
            && r.version == pk.version && r.header.kind == kind && r.header.qos == pk.header.qos
            && r.header.dup == pk.header.dup && r.header.retain == pk.header.retain
            && (kind == 1 ==> r.connect == NormalConnect(pk))
            && (kind == 2 ==> r.sessionPresent == pk.sessionPresent && r.reasonCode == pk.reasonCode)
            && (kind == 3 ==> r.topicName == pk.topicName && r.payload == pk.payload)
            && (kind == 3 ==> r.packetID == if pk.header.qos > 0 then pk.packetID else 0)
            && (kind in {4, 5, 6, 7, 8, 9, 10, 11} ==> r.packetID == pk.packetID)
            && (kind == 9 || (kind == 11 && pk.version == 5) ==> r.reasonCodes == pk.reasonCodes)
            && (kind == 15 || (kind == 14 && pk.version == 5) ==> r.reasonCode == pk.reasonCode)
  {
  }
}
