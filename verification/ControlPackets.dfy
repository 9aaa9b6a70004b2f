/** The bodies of control packets and how they are read back (broker/packets/packets.go). */
module ControlPackets {
  import opened Wire
  import opened FixedHeaders
  import opened PropertyBlock
  import opened PropertyWriting

  type TwoBits = n: int | 0 <= n < 4

  datatype ConnectParams = ConnectParams(
    willProperties: Properties,
    password: Bytes,
    username: Bytes,
    protocolName: Bytes,
    willPayload: Bytes,
    clientIdentifier: Bytes,
    willTopic: Bytes,
    keepalive: uint16,
    passwordFlag: bool,
    usernameFlag: bool,
    willQos: TwoBits,
    willFlag: bool,
    willRetain: bool,
    clean: bool)

  datatype Subscription = Subscription(
    filter: Bytes,
    identifier: int,
    retainHandling: TwoBits,
    qos: TwoBits,
    retainAsPublished: bool,
    noLocal: bool)

  datatype Packet = Packet(
    header: FixedHeader,
    version: byte,
    connect: ConnectParams,
    properties: Properties,
    payload: Bytes,
    reasonCodes: Bytes,
    filters: seq<Subscription>,
    topicName: Bytes,
    packetID: uint16,
    sessionPresent: bool,
    reasonCode: byte,
    reservedBit: byte,
    mods: Mods)

  const NoConnect := ConnectParams(NoProperties, [], [], [], [], [], [], 0, false, false, 0, false, false, false)

  /** A packet of which only the fixed header has been read. */
  function Fresh(header: FixedHeader, version: byte): Packet {
    Packet(header, version, NoConnect, NoProperties, [], [], [], [], 0, false, 0, 0, Mods(0, false, false))
  }

  // ---------- Properties in a packet ----------

  function PropertyPart(pk: Packet, n: nat): Bytes {
    if pk.version == 5 then EncodeBlock(pk.properties, Writing(pk.header.kind, pk.mods, n)) else []
  }

  function NormalProperties(pk: Packet, n: nat): Properties {
    if pk.version == 5 then Normal(pk.properties, Writing(pk.header.kind, pk.mods, n)) else NoProperties
  }

  predicate PropertiesFit(pk: Packet, n: nat) {
    pk.version == 5 ==> FitsWire(pk.properties) && BlockFits(pk.properties, Writing(pk.header.kind, pk.mods, n))
  }

  function ReadProperties(pkt: Owner, buf: Bytes, offset: nat): (r: Decoded<Properties>)
    requires offset <= |buf|
    ensures r.Decoded? ==> r.next <= |buf|
  {
    var (p, size) :- DecodeBlock(NoProperties, pkt, buf[offset..]);
    Decoded(p, offset + size)
  }

  function ReadPropertiesIf5(version: byte, pkt: Owner, buf: Bytes, offset: nat): (r: Decoded<Properties>)
    requires offset <= |buf|
    ensures r.Decoded? ==> r.next <= |buf|
  {
    if version == 5 then ReadProperties(pkt, buf, offset) else Decoded(NoProperties, offset)
  }

  lemma BlockStandsBack(p: Properties, w: Writing, buf: Bytes, offset: nat)
    requires FitsWire(p) && BlockFits(p, w) && StandsAt(buf, offset, EncodeBlock(p, w))
    ensures ReadProperties(w.pkt, buf, offset) == Decoded(Normal(p, w), offset + |EncodeBlock(p, w)|)
  {
    var rest := buf[offset + |EncodeBlock(p, w)|..];
    assert buf[offset..] == EncodeBlock(p, w) + rest;
    PropertiesRoundTrip(p, w, rest);
  }

  lemma PropertiesReadBack(pk: Packet, n: nat, buf: Bytes, offset: nat)
    requires PropertiesFit(pk, n) && StandsAt(buf, offset, PropertyPart(pk, n))
    ensures ReadPropertiesIf5(pk.version, pk.header.kind, buf, offset) ==
            Decoded(NormalProperties(pk, n), offset + |PropertyPart(pk, n)|)
  {
    if pk.version == 5 {
      BlockStandsBack(pk.properties, Writing(pk.header.kind, pk.mods, n), buf, offset);
    }
  }

  /** The packet being read has the version and type of the one that was written. */
  predicate ReadsFor(into: Packet, pk: Packet) {
    into.version == pk.version && into.header.kind == pk.header.kind
  }

  // ---------- CONNECT ----------

  function FlagsByte(c: ConnectParams): byte {
    EncodeBool(c.clean) * 2 + EncodeBool(c.willFlag) * 4 + c.willQos * 8 + EncodeBool(c.willRetain) * 32
    + EncodeBool(c.passwordFlag) * 64 + EncodeBool(c.usernameFlag) * 128
  }

  function ConnectHead(pk: Packet): Bytes {
    EncodeBytes(pk.connect.protocolName) +
      ([pk.version] + ([FlagsByte(pk.connect)] + EncodeUint16(pk.connect.keepalive)))
  }

  function WillBlock(pk: Packet): Bytes {
    if pk.version == 5 then EncodeBlock(pk.connect.willProperties, Writing(WillProperties, pk.mods, 0)) else []
  }

  function WillPart(pk: Packet): Bytes {
    var c := pk.connect;
    if c.willFlag then WillBlock(pk) + (EncodeBytes(c.willTopic) + EncodeBytes(c.willPayload)) else []
  }

  function CredentialsPart(c: ConnectParams): Bytes {
    (if c.usernameFlag then EncodeBytes(c.username) else []) + (if c.passwordFlag then EncodeBytes(c.password) else [])
  }

  function ConnectBody(pk: Packet): Bytes {
    ConnectHead(pk)
    + (PropertyPart(pk, 0) + (EncodeBytes(pk.connect.clientIdentifier) + (WillPart(pk) + CredentialsPart(pk.connect))))
  }

  /** Protocol name, version, flags and keepalive. */
  function DecodeConnectHead(pk: Packet, buf: Bytes): (r: Decoded<Packet>)
    ensures r.Decoded? ==> r.next <= |buf|
  {
    var (name, o1) :- DecodeBytes(buf, 0);
    var (version, o2) :- DecodeByte(buf, o1);
    var (flags, o3) :- DecodeByte(buf, o2);
    var (keepalive, o4) :- DecodeUint16(buf, o3);
    var f: int := flags;
    var c := pk.connect.(
      protocolName := name, keepalive := keepalive, clean := f / 2 % 2 > 0, willFlag := f / 4 % 2 > 0,
      willQos := f / 8 % 4, willRetain := f / 32 % 2 > 0, passwordFlag := f / 64 % 2 > 0,
      usernameFlag := f / 128 % 2 > 0);
    Decoded(pk.(version := version, reservedBit := f % 2, connect := c), o4)
  }

  function DecodeWill(pk: Packet, buf: Bytes, offset: nat): (r: Decoded<Packet>)
    requires offset <= |buf|
  {
    if pk.connect.willFlag then
      var (props, o1) :- ReadPropertiesIf5(pk.version, WillProperties, buf, offset);
      var (topic, o2) :- DecodeString(buf, o1);
      var (payload, o3) :- DecodeBytes(buf, o2);
      Decoded(pk.(connect := pk.connect.(willProperties := props, willTopic := topic, willPayload := payload)), o3)
    else Decoded(pk, offset)
  }

  function DecodeUsername(pk: Packet, buf: Bytes, offset: nat): Decoded<Packet> {
    if pk.connect.usernameFlag then
      if offset >= |buf| then Failed(NoUsername)
      else
        var (username, o1) :- DecodeBytes(buf, offset);
        Decoded(pk.(connect := pk.connect.(username := username)), o1)
    else Decoded(pk, offset)
  }

  function DecodePassword(pk: Packet, buf: Bytes, offset: nat): Decoded<Packet> {
    if pk.connect.passwordFlag then
      var (password, o1) :- DecodeBytes(buf, offset);
      Decoded(pk.(connect := pk.connect.(password := password)), o1)
    else Decoded(pk, offset)
  }

  function DecodeConnect(pk: Packet, buf: Bytes): Decoded<Packet> {
    var (p1, o1) :- DecodeConnectHead(pk, buf);
    var (props, o2) :- ReadPropertiesIf5(p1.version, pk.header.kind, buf, o1);
    var (id, o3) :- DecodeString(buf, o2);
    var p2 := p1.(properties := props, connect := p1.connect.(clientIdentifier := id));
    var (p3, o4) :- DecodeWill(p2, buf, o3);
    var (p4, o5) :- DecodeUsername(p3, buf, o4);
    DecodePassword(p4, buf, o5)
  }

  function NormalWill(pk: Packet): Properties {
    if pk.version == 5 then Normal(pk.connect.willProperties, Writing(WillProperties, pk.mods, 0)) else NoProperties
  }

  /** What a reader learns of the connection parameters: nothing behind a flag that is not set. */
  function NormalConnect(pk: Packet): ConnectParams {
    var c := pk.connect;
    c.(willProperties := if c.willFlag then NormalWill(pk) else NoProperties,
       willTopic := if c.willFlag then c.willTopic else [],
       willPayload := if c.willFlag then c.willPayload else [],
       username := if c.usernameFlag then c.username else [],
       password := if c.passwordFlag then c.password else [])
  }

  predicate WillBlockFits(pk: Packet) {
    pk.version == 5 ==>
      FitsWire(pk.connect.willProperties) && BlockFits(pk.connect.willProperties, Writing(WillProperties, pk.mods, 0))
  }

  predicate WillFits(pk: Packet) {
    FitsString(pk.connect.willTopic) && |pk.connect.willPayload| < 0x1_0000 && WillBlockFits(pk)
  }

  predicate ConnectFits(pk: Packet) {
    var c := pk.connect;
    && |c.protocolName| < 0x1_0000 && FitsString(c.clientIdentifier) && PropertiesFit(pk, 0)
    && (c.willFlag ==> WillFits(pk))
    && (c.usernameFlag ==> |c.username| < 0x1_0000) && (c.passwordFlag ==> |c.password| < 0x1_0000)
  }

  lemma FlagBits(c: ConnectParams)
    ensures var f: int := FlagsByte(c);
            && f % 2 == 0 && f / 2 % 2 == EncodeBool(c.clean) && f / 4 % 2 == EncodeBool(c.willFlag)
            && f / 8 % 4 == c.willQos && f / 32 % 2 == EncodeBool(c.willRetain)
            && f / 64 % 2 == EncodeBool(c.passwordFlag) && f / 128 % 2 == EncodeBool(c.usernameFlag)
  {
    var f: int, k: int, w: int, q: int := FlagsByte(c), EncodeBool(c.clean), EncodeBool(c.willFlag), c.willQos;
    var r: int, p: int, u: int := EncodeBool(c.willRetain), EncodeBool(c.passwordFlag), EncodeBool(c.usernameFlag);
    assert f / 2 == k + 2 * (w + 2 * (q + 4 * (r + 2 * (p + 2 * u))));
    assert f / 4 == w + 2 * (q + 4 * (r + 2 * (p + 2 * u)));
    assert f / 8 == q + 4 * (r + 2 * (p + 2 * u));
    assert f / 32 == r + 2 * (p + 2 * u);
    assert f / 64 == p + 2 * u;
    assert f / 128 == u;
  }

  /** What the head tells: everything of fixed size, and the protocol name. */
  function HeadOf(c: ConnectParams): ConnectParams {
    c.(willProperties := NoProperties, password := [], username := [], willPayload := [],
       clientIdentifier := [], willTopic := [])
  }

  function WithHead(into: Packet, pk: Packet): Packet {
    into.(version := pk.version, reservedBit := 0, connect := HeadOf(pk.connect))
  }

  lemma ConnectHeadReadsBack(pk: Packet, into: Packet, buf: Bytes)
    requires |pk.connect.protocolName| < 0x1_0000 && StandsAt(buf, 0, ConnectHead(pk)) && into.connect == NoConnect
    ensures Gives(DecodeConnectHead(into, buf), WithHead(into, pk), |ConnectHead(pk)|)
  {
    var name := pk.connect.protocolName;
    var o1 := 2 + |name|;
    StandsBoth(buf, 0, EncodeBytes(name),
               [pk.version] + ([FlagsByte(pk.connect)] + EncodeUint16(pk.connect.keepalive)));
    StandsBoth(buf, o1, [pk.version], [FlagsByte(pk.connect)] + EncodeUint16(pk.connect.keepalive));
    StandsBoth(buf, o1 + 1, [FlagsByte(pk.connect)], EncodeUint16(pk.connect.keepalive));
    BytesReadBack(buf, 0, name);
    ByteReadsBack(buf, o1, pk.version);
    ByteReadsBack(buf, o1 + 1, FlagsByte(pk.connect));
    Uint16ReadsBack(buf, o1 + 2, pk.connect.keepalive);
    FlagBits(pk.connect);
  }

  function WithWill(into: Packet, props: Properties, topic: Bytes, payload: Bytes): Packet {
    into.(connect := into.connect.(willProperties := props, willTopic := topic, willPayload := payload))
  }

  lemma WillReadsBack(pk: Packet, into: Packet, buf: Bytes, offset: nat)
    requires WillFits(pk) && StandsAt(buf, offset, WillPart(pk))
    requires into.version == pk.version && into.connect.willFlag && pk.connect.willFlag
    ensures Gives(DecodeWill(into, buf, offset),
                  WithWill(into, NormalWill(pk), pk.connect.willTopic, pk.connect.willPayload),
                  offset + |WillPart(pk)|)
  {
    var o1, o2, o3 := WillPieces(pk, into.version, buf, offset);
    WillReads(into, buf, offset, NormalWill(pk), o1, pk.connect.willTopic, o2, pk.connect.willPayload, o3);
  }

  lemma WillPieces(pk: Packet, version: byte, buf: Bytes, offset: nat) returns (o1: nat, o2: nat, o3: nat)
    requires WillFits(pk) && StandsAt(buf, offset, WillPart(pk)) && pk.connect.willFlag && version == pk.version
    ensures offset <= |buf| && o3 == offset + |WillPart(pk)|
    ensures Gives(ReadPropertiesIf5(version, WillProperties, buf, offset), NormalWill(pk), o1)
    ensures Gives(DecodeString(buf, o1), pk.connect.willTopic, o2)
            && Gives(DecodeBytes(buf, o2), pk.connect.willPayload, o3)
  {
    var c := pk.connect;
    o1 := offset + |WillBlock(pk)|;
    o2 := o1 + 2 + |c.willTopic|;
    o3 := o2 + 2 + |c.willPayload|;
    WillBlockReadsBack(pk, version, buf, offset, EncodeBytes(c.willTopic) + EncodeBytes(c.willPayload));
    WillTextsReadBack(buf, offset, WillBlock(pk), c.willTopic, c.willPayload, o1, o2, o3);
  }

  lemma WillTextsReadBack(buf: Bytes, offset: nat, block: Bytes, topic: Bytes, payload: Bytes, o1: nat, o2: nat,
      o3: nat)
    requires FitsString(topic) && |payload| < 0x1_0000
    requires StandsAt(buf, offset, block + (EncodeBytes(topic) + EncodeBytes(payload)))
    requires o1 == offset + |block| && o2 == o1 + 2 + |topic| && o3 == o2 + 2 + |payload|
    ensures Gives(DecodeString(buf, o1), topic, o2) && Gives(DecodeBytes(buf, o2), payload, o3)
  {
    StandsBoth(buf, offset, block, EncodeBytes(topic) + EncodeBytes(payload));
    TextAndDataReadBack(buf, o1, topic, payload);
  }

  /** The steps of reading a will, put together. */
  lemma WillReads(into: Packet, buf: Bytes, offset: nat, props: Properties, o1: nat, topic: Bytes, o2: nat,
      payload: Bytes, o3: nat)
    requires offset <= |buf| && into.connect.willFlag
    requires Gives(ReadPropertiesIf5(into.version, WillProperties, buf, offset), props, o1)
    requires Gives(DecodeString(buf, o1), topic, o2) && Gives(DecodeBytes(buf, o2), payload, o3)
    ensures Gives(DecodeWill(into, buf, offset), WithWill(into, props, topic, payload), o3)
  {
  }

  lemma WillBlockReadsBack(pk: Packet, version: byte, buf: Bytes, offset: nat, texts: Bytes)
    requires WillBlockFits(pk) && StandsAt(buf, offset, WillBlock(pk) + texts) && version == pk.version
    ensures Gives(ReadPropertiesIf5(version, WillProperties, buf, offset), NormalWill(pk), offset + |WillBlock(pk)|)
  {
    StandsBoth(buf, offset, WillBlock(pk), texts);
    if pk.version == 5 {
      BlockStandsBack(pk.connect.willProperties, Writing(WillProperties, pk.mods, 0), buf, offset);
    }
  }

  lemma TextAndDataReadBack(buf: Bytes, offset: nat, text: Bytes, data: Bytes)
    requires FitsString(text) && |data| < 0x1_0000 && StandsAt(buf, offset, EncodeBytes(text) + EncodeBytes(data))
    ensures var next := offset + 2 + |text|;
            Gives(DecodeString(buf, offset), text, next) && Gives(DecodeBytes(buf, next), data, next + 2 + |data|)
  {
    StandsBoth(buf, offset, EncodeBytes(text), EncodeBytes(data));
    StringReadsBack(buf, offset, text);
    BytesReadBack(buf, offset + 2 + |text|, data);
  }

  function WithUsername(into: Packet, username: Bytes): Packet {
    if into.connect.usernameFlag then into.(connect := into.connect.(username := username)) else into
  }

  function WithPassword(into: Packet, password: Bytes): Packet {
    if into.connect.passwordFlag then into.(connect := into.connect.(password := password)) else into
  }

  lemma CredentialsReadBack(c: ConnectParams, p3: Packet, p4: Packet, buf: Bytes, o4: nat, o5: nat, o6: nat)
    requires StandsAt(buf, o4, if c.usernameFlag then EncodeBytes(c.username) else [])
    requires StandsAt(buf, o5, if c.passwordFlag then EncodeBytes(c.password) else [])
    requires (c.usernameFlag ==> |c.username| < 0x1_0000) && (c.passwordFlag ==> |c.password| < 0x1_0000)
    requires o5 == o4 + (if c.usernameFlag then 2 + |c.username| else 0)
    requires o6 == o5 + (if c.passwordFlag then 2 + |c.password| else 0)
    requires p3.connect.usernameFlag == c.usernameFlag && p4.connect.passwordFlag == c.passwordFlag
    ensures Gives(DecodeUsername(p3, buf, o4), WithUsername(p3, c.username), o5)
    ensures Gives(DecodePassword(p4, buf, o5), WithPassword(p4, c.password), o6)
  {
    if c.usernameFlag {
      BytesReadBack(buf, o4, c.username);
    }
    if c.passwordFlag {
      BytesReadBack(buf, o5, c.password);
    }
  }

  /** The steps of reading a CONNECT, put together. */
  lemma ConnectReads(into: Packet, buf: Bytes, p1: Packet, o1: nat, props: Properties, o2: nat, id: Bytes, o3: nat,
                     p3: Packet, o4: nat, p4: Packet, o5: nat, p5: Packet, o6: nat)
    requires Gives(DecodeConnectHead(into, buf), p1, o1)
    requires Gives(ReadPropertiesIf5(p1.version, into.header.kind, buf, o1), props, o2)
    requires Gives(DecodeString(buf, o2), id, o3) && o3 <= |buf|
    requires Gives(DecodeWill(p1.(properties := props, connect := p1.connect.(clientIdentifier := id)), buf, o3),
                   p3, o4)
    requires Gives(DecodeUsername(p3, buf, o4), p4, o5) && Gives(DecodePassword(p4, buf, o5), p5, o6)
    ensures Gives(DecodeConnect(into, buf), p5, o6)
  {
  }

  lemma SixStand(buf: Bytes, a: Bytes, b: Bytes, c: Bytes, d: Bytes, e: Bytes, f: Bytes,
                 o1: nat, o2: nat, o3: nat, o4: nat, o5: nat)
    requires buf == a + (b + (c + (d + (e + f))))
    requires o1 == |a| && o2 == o1 + |b| && o3 == o2 + |c| && o4 == o3 + |d| && o5 == o4 + |e|
    ensures StandsAt(buf, 0, a) && StandsAt(buf, o1, b) && StandsAt(buf, o2, c) && StandsAt(buf, o3, d)
    ensures StandsAt(buf, o4, e) && StandsAt(buf, o5, f)
  {
    WholeStands(a, b + (c + (d + (e + f))));
    StandsBoth(buf, o1, b, c + (d + (e + f)));
    StandsBoth(buf, o2, c, d + (e + f));
    StandsBoth(buf, o3, d, e + f);
    StandsBoth(buf, o4, e, f);
  }

  function NamedPacket(into: Packet, pk: Packet): Packet {
    var p1 := WithHead(into, pk);
    p1.(properties := NormalProperties(pk, 0), connect := p1.connect.(clientIdentifier := pk.connect.clientIdentifier))
  }

  function WilledPacket(into: Packet, pk: Packet): Packet {
    if pk.connect.willFlag then
      WithWill(NamedPacket(into, pk), NormalWill(pk), pk.connect.willTopic, pk.connect.willPayload)
    else NamedPacket(into, pk)
  }

  lemma WillIfFlagged(pk: Packet, into: Packet, buf: Bytes, o3: nat, o4: nat)
    requires (pk.connect.willFlag ==> WillFits(pk)) && StandsAt(buf, o3, WillPart(pk)) && o4 == o3 + |WillPart(pk)|
    ensures Gives(DecodeWill(NamedPacket(into, pk), buf, o3), WilledPacket(into, pk), o4)
  {
    if pk.connect.willFlag {
      WillReadsBack(pk, NamedPacket(into, pk), buf, o3);
    }
  }

  function ConnectedPacket(into: Packet, pk: Packet): Packet {
    WithPassword(WithUsername(WilledPacket(into, pk), pk.connect.username), pk.connect.password)
  }

  lemma ConnectedIsNormal(into: Packet, pk: Packet)
    requires into.connect == NoConnect
    ensures ConnectedPacket(into, pk) ==
            into.(version := pk.version, reservedBit := 0, properties := NormalProperties(pk, 0),
                  connect := NormalConnect(pk))
  {
  }

  lemma ConnectReadsBack(pk: Packet, into: Packet)
    requires ConnectFits(pk) && into.header.kind == pk.header.kind && into.connect == NoConnect
    ensures Gives(DecodeConnect(into, ConnectBody(pk)),
                  into.(version := pk.version, reservedBit := 0, properties := NormalProperties(pk, 0),
                        connect := NormalConnect(pk)),
                  |ConnectBody(pk)|)
  {
    ConnectedIsNormal(into, pk);
    ConnectReadsAsConnected(pk, into, ConnectBody(pk));
  }

  lemma ConnectReadsAsConnected(pk: Packet, into: Packet, buf: Bytes)
    requires ConnectFits(pk) && into.header.kind == pk.header.kind && into.connect == NoConnect
             && buf == ConnectBody(pk)
    ensures Gives(DecodeConnect(into, buf), ConnectedPacket(into, pk), |buf|)
  {
    var c := pk.connect;
    var o1, o2, o3, o4, o5 := ConnectStands(pk, buf);
    ConnectHeadReadsBack(pk, into, buf);
    NamedPieces(pk, buf, o1, o2, o3);
    WillIfFlagged(pk, into, buf, o3, o4);
    var p3 := WilledPacket(into, pk);
    var p4 := WithUsername(p3, c.username);
    CredentialsReadBack(c, p3, p4, buf, o4, o5, |buf|);
    ConnectReads(into, buf, WithHead(into, pk), o1, NormalProperties(pk, 0), o2, c.clientIdentifier, o3,
                 p3, o4, p4, o5, WithPassword(p4, c.password), |buf|);
  }

  lemma ConnectStands(pk: Packet, buf: Bytes) returns (o1: nat, o2: nat, o3: nat, o4: nat, o5: nat)
    requires buf == ConnectBody(pk)
    ensures o1 == |ConnectHead(pk)| && o2 == o1 + |PropertyPart(pk, 0)|
            && o3 == o2 + |EncodeBytes(pk.connect.clientIdentifier)|
    ensures o4 == o3 + |WillPart(pk)| && o5 == o4 + (if pk.connect.usernameFlag then 2 + |pk.connect.username| else 0)
    ensures |buf| == o5 + (if pk.connect.passwordFlag then 2 + |pk.connect.password| else 0)
    ensures StandsAt(buf, 0, ConnectHead(pk)) && StandsAt(buf, o1, PropertyPart(pk, 0))
    ensures StandsAt(buf, o2, EncodeBytes(pk.connect.clientIdentifier)) && StandsAt(buf, o3, WillPart(pk))
    ensures StandsAt(buf, o4, if pk.connect.usernameFlag then EncodeBytes(pk.connect.username) else [])
    ensures StandsAt(buf, o5, if pk.connect.passwordFlag then EncodeBytes(pk.connect.password) else [])
  {
    var c, head, id := pk.connect, ConnectHead(pk), EncodeBytes(pk.connect.clientIdentifier);
    var user := if c.usernameFlag then EncodeBytes(c.username) else [];
    var pass := if c.passwordFlag then EncodeBytes(c.password) else [];
    o1, o2 := |head|, |head| + |PropertyPart(pk, 0)|;
    o3 := o2 + |id|;
    o4 := o3 + |WillPart(pk)|;
    o5 := o4 + |user|;
    SixStand(buf, head, PropertyPart(pk, 0), id, WillPart(pk), user, pass, o1, o2, o3, o4, o5);
  }

  lemma NamedPieces(pk: Packet, buf: Bytes, o1: nat, o2: nat, o3: nat)
    requires PropertiesFit(pk, 0) && FitsString(pk.connect.clientIdentifier)
    requires StandsAt(buf, o1, PropertyPart(pk, 0)) && StandsAt(buf, o2, EncodeBytes(pk.connect.clientIdentifier))
    requires o2 == o1 + |PropertyPart(pk, 0)| && o3 == o2 + |EncodeBytes(pk.connect.clientIdentifier)|
    ensures Gives(ReadPropertiesIf5(pk.version, pk.header.kind, buf, o1), NormalProperties(pk, 0), o2)
    ensures Gives(DecodeString(buf, o2), pk.connect.clientIdentifier, o3) && o3 <= |buf|
  {
    PropertiesReadBack(pk, 0, buf, o1);
    StringReadsBack(buf, o2, pk.connect.clientIdentifier);
  }

  // ---------- CONNACK, DISCONNECT, AUTH ----------

  function ConnackBody(pk: Packet): Bytes {
    [EncodeBool(pk.sessionPresent), pk.reasonCode] + PropertyPart(pk, 4)
  }

  function DecodeConnack(pk: Packet, buf: Bytes): Decoded<Packet> {
    var (present, o1) :- DecodeByteBool(buf, 0);
    var (code, o2) :- DecodeByte(buf, o1);
    var (props, o3) :- ReadPropertiesIf5(pk.version, pk.header.kind, buf, o2);
    Decoded(pk.(sessionPresent := present, reasonCode := code, properties := props), o3)
  }

  lemma ConnackReadsBack(pk: Packet, into: Packet)
    requires PropertiesFit(pk, 4) && ReadsFor(into, pk)
    ensures DecodeConnack(into, ConnackBody(pk)) ==
            Decoded(into.(sessionPresent := pk.sessionPresent, reasonCode := pk.reasonCode,
                          properties := NormalProperties(pk, 4)),
                    |ConnackBody(pk)|)
  {
    var buf, head, part := ConnackBody(pk), [EncodeBool(pk.sessionPresent), pk.reasonCode], PropertyPart(pk, 4);
    WholeStands(head, part);
    assert buf[0] == head[0] && buf[1] == head[1];
    PropertiesReadBack(pk, 4, buf, 2);
  }

  lemma ThreeStand(a: Bytes, b: Bytes, c: Bytes)
    ensures var buf, o := a + (b + c), |a| + |b|;
            StandsAt(buf, 0, a) && StandsAt(buf, |a|, b) && |buf| == o + |c| && buf[o..] == c
  {
    WholeStands(a, b + c);
    StandsBoth(a + (b + c), |a|, b, c);
  }

  lemma WholeStands(head: Bytes, tail: Bytes)
    ensures StandsAt(head + tail, 0, head) && StandsAt(head + tail, |head|, tail)
  {
    assert (head + tail)[|head|..|head| + |tail|] == tail;
  }

  /** Before version 5 a DISCONNECT has no body. */
  function DisconnectBody(pk: Packet): Bytes {
    if pk.version == 5 then [pk.reasonCode] + PropertyPart(pk, 1) else []
  }

  function DecodeDisconnect(pk: Packet, buf: Bytes): Decoded<Packet> {
    if pk.version == 5 && pk.header.remaining > 1 then
      var (code, o1) :- DecodeByte(buf, 0);
      if pk.header.remaining > 2 then
        var (props, o2) :- ReadProperties(pk.header.kind, buf, o1);
        Decoded(pk.(reasonCode := code, properties := props), o2)
      else Decoded(pk.(reasonCode := code), o1)
    else Decoded(pk, 0)
  }

  /** A block of one byte has no properties. */
  lemma EmptyBlock(p: Properties, w: Writing)
    requires FitsWire(p) && BlockFits(p, w) && |EncodeBlock(p, w)| <= 1
    ensures Normal(p, w) == NoProperties && |EncodeBlock(p, w)| == 1
  {
    var items := ItemsOf(p, w);
    NoItems(items);
    ItemsGiveNormal(p, w, Count);
    NormalIsAll(p, w);
    assert ApplyAll(NoProperties, []) == NoProperties;
  }

  lemma DisconnectReadsBack(pk: Packet, into: Packet)
    requires PropertiesFit(pk, 1) && ReadsFor(into, pk) && into.header.remaining == |DisconnectBody(pk)|
    requires into.properties == NoProperties && into.reasonCode == 0
    ensures var r := DecodeDisconnect(into, DisconnectBody(pk));
            && r.Decoded?
            && r.value == if pk.version != 5 then into
                          else into.(reasonCode := pk.reasonCode, properties := NormalProperties(pk, 1))
  {
    if pk.version == 5 {
      var buf, part := DisconnectBody(pk), PropertyPart(pk, 1);
      WholeStands([pk.reasonCode], part);
      assert buf[0] == pk.reasonCode;
      BlockStandsBack(pk.properties, Writing(pk.header.kind, pk.mods, 1), buf, 1);
      if |part| <= 1 {
        EmptyBlock(pk.properties, Writing(pk.header.kind, pk.mods, 1));
      }
    }
  }

  /** AUTH carries properties whatever the version. */
  function AuthBody(pk: Packet): Bytes {
    [pk.reasonCode] + EncodeBlock(pk.properties, Writing(pk.header.kind, pk.mods, 1))
  }

  function DecodeAuth(pk: Packet, buf: Bytes): Decoded<Packet> {
    var (code, o1) :- DecodeByte(buf, 0);
    var (props, o2) :- ReadProperties(pk.header.kind, buf, o1);
    Decoded(pk.(reasonCode := code, properties := props), o2)
  }

  lemma AuthReadsBack(pk: Packet, into: Packet)
    requires var w := Writing(pk.header.kind, pk.mods, 1);
             FitsWire(pk.properties) && BlockFits(pk.properties, w) && ReadsFor(into, pk)
    ensures DecodeAuth(into, AuthBody(pk)) ==
            Decoded(into.(reasonCode := pk.reasonCode,
                          properties := Normal(pk.properties, Writing(pk.header.kind, pk.mods, 1))),
                    |AuthBody(pk)|)
  {
    var w := Writing(pk.header.kind, pk.mods, 1);
    WholeStands([pk.reasonCode], EncodeBlock(pk.properties, w));
    assert AuthBody(pk)[0] == pk.reasonCode;
    BlockStandsBack(pk.properties, w, AuthBody(pk), 1);
  }

  // ---------- PUBLISH ----------

  function IdPart(pk: Packet): Bytes {
    if pk.header.qos > 0 then EncodeUint16(pk.packetID) else []
  }

  function PublishN(pk: Packet): nat {
    |EncodeBytes(pk.topicName)| + |IdPart(pk)| + |pk.payload|
  }

  function PublishBody(pk: Packet): Bytes {
    EncodeBytes(pk.topicName) + IdPart(pk) + (PropertyPart(pk, PublishN(pk)) + pk.payload)
  }

  function DecodePublish(pk: Packet, buf: Bytes): Decoded<Packet> {
    var (topic, o1) :- DecodeString(buf, 0);
    var (id, o2) :- if pk.header.qos > 0 then DecodeUint16(buf, o1) else Decoded(pk.packetID, o1);
    var (props, o3) :- ReadPropertiesIf5(pk.version, pk.header.kind, buf, o2);
    Decoded(pk.(topicName := topic, packetID := id, properties := props, payload := buf[o3..]), |buf|)
  }

  lemma PublishReadsBack(pk: Packet, into: Packet)
    requires FitsString(pk.topicName) && PropertiesFit(pk, PublishN(pk)) && ReadsFor(into, pk)
    requires into.header.qos == pk.header.qos
    ensures DecodePublish(into, PublishBody(pk)) ==
            Decoded(into.(topicName := pk.topicName,
                          packetID := if into.header.qos > 0 then pk.packetID else into.packetID,
                          properties := NormalProperties(pk, PublishN(pk)), payload := pk.payload),
                    |PublishBody(pk)|)
  {
    PublishReadsBackAt(pk, into, PublishBody(pk), PublishN(pk));
  }

  lemma PublishReadsBackAt(pk: Packet, into: Packet, buf: Bytes, n: nat)
    requires FitsString(pk.topicName) && PropertiesFit(pk, n) && ReadsFor(into, pk)
    requires into.header.qos == pk.header.qos
    requires buf == EncodeBytes(pk.topicName) + IdPart(pk) + (PropertyPart(pk, n) + pk.payload)
    ensures DecodePublish(into, buf) ==
            Decoded(into.(topicName := pk.topicName,
                          packetID := if into.header.qos > 0 then pk.packetID else into.packetID,
                          properties := NormalProperties(pk, n), payload := pk.payload),
                    |buf|)
  {
    var head, part := EncodeBytes(pk.topicName) + IdPart(pk), PropertyPart(pk, n);
    var o1, o2, o3 := 2 + |pk.topicName|, |head|, |head| + |part|;
    ThreeStand(head, part, pk.payload);
    TopicAndIdReadBack(pk, buf);
    PropertiesReadBack(pk, n, buf, o2);
    PublishReads(into, buf, pk.topicName, o1, pk.packetID, o2, NormalProperties(pk, n), o3, pk.payload);
  }

  lemma TopicAndIdReadBack(pk: Packet, buf: Bytes)
    requires FitsString(pk.topicName) && StandsAt(buf, 0, EncodeBytes(pk.topicName) + IdPart(pk))
    ensures DecodeString(buf, 0) == Decoded(pk.topicName, 2 + |pk.topicName|)
    ensures pk.header.qos > 0 ==> DecodeUint16(buf, 2 + |pk.topicName|) == Decoded(pk.packetID, 4 + |pk.topicName|)
  {
    StandsBoth(buf, 0, EncodeBytes(pk.topicName), IdPart(pk));
    StringReadsBack(buf, 0, pk.topicName);
    if pk.header.qos > 0 {
      Uint16ReadsBack(buf, 2 + |pk.topicName|, pk.packetID);
    }
  }

  /** The steps of reading a PUBLISH, put together. */
  lemma PublishReads(into: Packet, buf: Bytes, topic: Bytes, o1: nat, id: uint16, o2: nat, props: Properties, o3: nat,
                     payload: Bytes)
    requires DecodeString(buf, 0) == Decoded(topic, o1) && o1 <= o2 <= o3 <= |buf|
    requires if into.header.qos > 0 then DecodeUint16(buf, o1) == Decoded(id, o2) else o2 == o1
    requires ReadPropertiesIf5(into.version, into.header.kind, buf, o2) == Decoded(props, o3) && buf[o3..] == payload
    ensures DecodePublish(into, buf) ==
            Decoded(into.(topicName := topic, packetID := if into.header.qos > 0 then id else into.packetID,
                          properties := props, payload := payload), |buf|)
  {
  }

  // ---------- PUBACK, PUBREC, PUBREL, PUBCOMP ----------

  /** A reason code below 0x80 is only written in front of properties. */
  function AckTail(pk: Packet): Bytes {
    if pk.version == 5 then
      var part := PropertyPart(pk, 2);
      (if pk.reasonCode >= 0x80 || |part| > 1 then [pk.reasonCode] else []) + (if |part| > 1 then part else [])
    else []
  }

  function AckBody(pk: Packet): Bytes {
    EncodeUint16(pk.packetID) + AckTail(pk)
  }

  function DecodeAck(pk: Packet, buf: Bytes): Decoded<Packet> {
    var (id, o1) :- DecodeUint16(buf, 0);
    if pk.version == 5 && pk.header.remaining > 2 then
      var (code, o2) :- DecodeByte(buf, o1);
      if pk.header.remaining > 3 then
        var (props, o3) :- ReadProperties(pk.header.kind, buf, o2);
        Decoded(pk.(packetID := id, reasonCode := code, properties := props), o3)
      else Decoded(pk.(packetID := id, reasonCode := code), o2)
    else Decoded(pk.(packetID := id), o1)
  }

  /** The reason code an acknowledgement is read with. */
  function NormalAckCode(pk: Packet): byte {
    if pk.version == 5 && (pk.reasonCode >= 0x80 || NormalProperties(pk, 2) != NoProperties) then pk.reasonCode else 0
  }

  /** There are properties in a block exactly when it is longer than its length byte. */
  lemma BlockIsEmpty(p: Properties, w: Writing)
    requires FitsWire(p) && BlockFits(p, w)
    ensures |EncodeBlock(p, w)| > 1 <==> Normal(p, w) != NoProperties
  {
    if |EncodeBlock(p, w)| <= 1 {
      EmptyBlock(p, w);
    } else {
      var items := ItemsOf(p, w);
      NoItems(items);
      ItemsGiveNormal(p, w, Count);
      NormalIsAll(p, w);
      SomethingApplied(NoProperties, items);
    }
  }

  /** Properties that are read are never lost again. */
  lemma {:induction false} SomethingApplied(p: Properties, items: seq<Item>)
    ensures p != NoProperties || items != [] ==> ApplyAll(p, items) != NoProperties
    decreases |items|
  {
    if items != [] {
      var q := Apply(p, items[0]);
      match items[0].value {
        case LengthValue(l) => assert |q.subscriptionIdentifier| > 0;
        case PairValue(u) => assert |q.user| > 0;
        case _ => assert items[0].id in q.single;
      }
      SomethingApplied(q, items[1..]);
    }
  }

  lemma AckReadsBack(pk: Packet, into: Packet)
    requires PropertiesFit(pk, 2) && ReadsFor(into, pk) && into.header.remaining == |AckBody(pk)|
    requires into.properties == NoProperties && into.reasonCode == 0
    ensures var r := DecodeAck(into, AckBody(pk));
            && r.Decoded?
            && r.value == into.(packetID := pk.packetID, reasonCode := NormalAckCode(pk),
                                properties := NormalProperties(pk, 2))
  {
    var buf, part := AckBody(pk), PropertyPart(pk, 2);
    WholeStands(EncodeUint16(pk.packetID), AckTail(pk));
    Uint16ReadsBack(buf, 0, pk.packetID);
    if pk.version == 5 {
      var w := Writing(pk.header.kind, pk.mods, 2);
      BlockIsEmpty(pk.properties, w);
      if |part| > 1 {
        StandsBoth(buf, 2, [pk.reasonCode], part);
        ByteReadsBack(buf, 2, pk.reasonCode);
        BlockStandsBack(pk.properties, w, buf, 3);
      } else if pk.reasonCode >= 0x80 {
        StandsBoth(buf, 2, [pk.reasonCode], []);
        ByteReadsBack(buf, 2, pk.reasonCode);
      }
    }
  }

  // ---------- SUBACK, UNSUBACK ----------

  function SubackBody(pk: Packet): Bytes {
    EncodeUint16(pk.packetID) + (PropertyPart(pk, 2 + |pk.reasonCodes|) + pk.reasonCodes)
  }

  function DecodeSuback(pk: Packet, buf: Bytes): Decoded<Packet> {
    var (id, o1) :- DecodeUint16(buf, 0);
    var (props, o2) :- ReadPropertiesIf5(pk.version, pk.header.kind, buf, o1);
    Decoded(pk.(packetID := id, properties := props, reasonCodes := buf[o2..]), |buf|)
  }

  lemma SubackReadsBack(pk: Packet, into: Packet)
    requires PropertiesFit(pk, 2 + |pk.reasonCodes|) && ReadsFor(into, pk)
    ensures DecodeSuback(into, SubackBody(pk)) ==
            Decoded(into.(packetID := pk.packetID, properties := NormalProperties(pk, 2 + |pk.reasonCodes|),
                          reasonCodes := pk.reasonCodes), |SubackBody(pk)|)
  {
    var buf, n := SubackBody(pk), 2 + |pk.reasonCodes|;
    var part := PropertyPart(pk, n);
    ThreeStand(EncodeUint16(pk.packetID), part, pk.reasonCodes);
    Uint16ReadsBack(buf, 0, pk.packetID);
    PropertiesReadBack(pk, n, buf, 2);
  }

  /** Before version 5 an UNSUBACK has no reason codes. */
  function UnsubackBody(pk: Packet): Bytes {
    EncodeUint16(pk.packetID) + (if pk.version == 5 then PropertyPart(pk, 2) + pk.reasonCodes else [])
  }

  function DecodeUnsuback(pk: Packet, buf: Bytes): Decoded<Packet> {
    var (id, o1) :- DecodeUint16(buf, 0);
    if pk.version == 5 then
      var (props, o2) :- ReadProperties(pk.header.kind, buf, o1);
      Decoded(pk.(packetID := id, properties := props, reasonCodes := buf[o2..]), |buf|)
    else Decoded(pk.(packetID := id), o1)
  }

  lemma UnsubackReadsBack(pk: Packet, into: Packet)
    requires PropertiesFit(pk, 2) && ReadsFor(into, pk)
    ensures var r := DecodeUnsuback(into, UnsubackBody(pk));
            && r.Decoded?
            && r.value == if pk.version == 5 then
                            into.(packetID := pk.packetID, properties := NormalProperties(pk, 2),
                                  reasonCodes := pk.reasonCodes)
                          else into.(packetID := pk.packetID)
  {
    var buf, part := UnsubackBody(pk), PropertyPart(pk, 2);
    WholeStands(EncodeUint16(pk.packetID), if pk.version == 5 then part + pk.reasonCodes else []);
    Uint16ReadsBack(buf, 0, pk.packetID);
    if pk.version == 5 {
      StandsBoth(buf, 2, part, pk.reasonCodes);
      PropertiesReadBack(pk, 2, buf, 2);
      assert buf[2 + |part|..] == pk.reasonCodes;
    }
  }
}
