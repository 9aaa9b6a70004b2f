/**
 The property block of an MQTT 5.0 packet (broker/packets/properties.go; section 2.2.2): a length
 and a list of properties, each an identifier and a value.
 */
module PropertyBlock {
  import opened Wire
  import opened FixedHeaders

  /** What a property block belongs to: a packet type, or the will of a CONNECT packet. */
  type Owner = t: int | 0 <= t < 100

  const WillProperties: Owner := 99

  datatype UserProperty = UserProperty(key: Bytes, val: Bytes)

  /** What a client asked to be sent, and the greatest packet it takes (0 for any). */
  datatype Mods = Mods(maxSize: uint32, disallowProblemInfo: bool, allowResponseInfo: bool)

  const PayloadFormat: byte := 1
  const MessageExpiryInterval: byte := 2
  const ContentType: byte := 3
  const ResponseTopic: byte := 8
  const CorrelationData: byte := 9
  const SubscriptionIdentifier: byte := 11
  const SessionExpiryInterval: byte := 17
  const AssignedClientID: byte := 18
  const ServerKeepAlive: byte := 19
  const AuthenticationMethod: byte := 21
  const AuthenticationData: byte := 22
  const RequestProblemInfo: byte := 23
  const WillDelayInterval: byte := 24
  const RequestResponseInfo: byte := 25
  const ResponseInfo: byte := 26
  const ServerReference: byte := 28
  const ReasonString: byte := 31
  const ReceiveMaximum: byte := 33
  const TopicAliasMaximum: byte := 34
  const TopicAlias: byte := 35
  const MaximumQos: byte := 36
  const RetainAvailable: byte := 37
  const User: byte := 38
  const MaximumPacketSize: byte := 39
  const WildcardSubAvailable: byte := 40
  const SubIDAvailable: byte := 41
  const SharedSubAvailable: byte := 42

  /** Which properties may stand in which packets. */
  predicate CanEncode(pkt: Owner, k: byte) {
    match k
    case 1 | 2 | 3 | 8 | 9 => pkt == Publish || pkt == WillProperties
    case 11 => pkt == Publish || pkt == Subscribe
    case 17 => pkt == Connect || pkt == Connack || pkt == Disconnect
    case 18 | 19 | 26 | 36 | 37 | 40 | 41 | 42 => pkt == Connack
    case 21 | 22 => pkt == Connect || pkt == Connack || pkt == Auth
    case 23 | 25 => pkt == Connect
    case 24 => pkt == WillProperties
    case 28 => pkt == Connack || pkt == Disconnect
    case 31 => (Connack <= pkt <= Pubcomp && pkt != Publish) || pkt == Suback || pkt == Unsuback || pkt == Disconnect
               || pkt == Auth
    case 33 | 34 | 39 => pkt == Connect || pkt == Connack
    case 35 => pkt == Publish
    case 38 => Connect <= pkt <= Unsuback || pkt == Disconnect || pkt == Auth || pkt == WillProperties
    case _ => false
  }

  /** Section 2.2.2.2: the identifiers allowed in each packet type, by its number, and in a will. */
  function AllowedIn(pkt: Owner): set<int> {
    if pkt == 1 then {17, 21, 22, 23, 25, 33, 34, 38, 39}
    else if pkt == 2 then {17, 18, 19, 21, 22, 26, 28, 31, 33, 34, 36, 37, 38, 39, 40, 41, 42}
    else if pkt == 3 then {1, 2, 3, 8, 9, 11, 35, 38}
    else if 4 <= pkt <= 7 || pkt == 9 || pkt == 11 then {31, 38}
    else if pkt == 8 then {11, 38}
    else if pkt == 10 then {38}
    else if pkt == 14 then {17, 28, 31, 38}
    else if pkt == 15 then {21, 22, 31, 38}
    else if pkt == 99 then {1, 2, 3, 8, 9, 24, 38}
    else {}
  }

  /** The broker's table, which goes by property, is that of the standard, which goes by packet. */
  lemma AllowedExactly(pkt: Owner, k: byte)
    ensures CanEncode(pkt, k) <==> k in AllowedIn(pkt)
  {
  }

  // ---------- Property values ----------

  datatype Value =
    | ByteValue(b: byte)
    | Uint16Value(n: uint16)
    | Uint32Value(w: uint32)
    | LengthValue(l: nat)
    | StringValue(s: Bytes)
    | BytesValue(data: Bytes)
    | PairValue(pair: UserProperty)

  datatype Item = Item(id: byte, value: Value)

  /**
   The properties of a packet.  Each single-valued one stands under its identifier once its field,
   or its presence flag where it has one, is set; a field without a flag is not set when it is zero.
   */
  datatype Properties = Properties(
    single: map<byte, Value>,
    subscriptionIdentifier: seq<int>,
    user: seq<UserProperty>)

  const NoProperties := Properties(map[], [], [])

  predicate HasFlag(k: byte) {
    k in {PayloadFormat, SessionExpiryInterval, ServerKeepAlive, RequestProblemInfo, TopicAlias, MaximumQos,
          RetainAvailable, WildcardSubAvailable, SubIDAvailable, SharedSubAvailable}
  }

  predicate IsZero(v: Value) {
    match v
    case ByteValue(b) => b == 0
    case Uint16Value(n) => n == 0
    case Uint32Value(w) => w == 0
    case LengthValue(l) => l == 0
    case StringValue(s) => s == []
    case BytesValue(d) => d == []
    case PairValue(_) => false
  }

  datatype Kind = OneByte | TwoBytes | FourBytes | VariableLength | Text | Binary | Pair

  /** The kind of value of each property; the broker only asks for those in its table. */
  function KindOf(id: byte): Kind {
    match id
    case 1 | 23 | 25 | 36 | 37 | 40 | 41 | 42 => OneByte
    case 19 | 33 | 34 | 35 => TwoBytes
    case 2 | 17 | 24 | 39 => FourBytes
    case 11 => VariableLength
    case 9 | 22 => Binary
    case 38 => Pair
    case _ => Text
  }

  /** Section 2.2.2.2: the type of each property. */
  lemma KindExactly(k: byte)
    requires exists pkt: Owner :: k in AllowedIn(pkt)
    ensures KindOf(k).OneByte? <==> k in {1, 23, 25, 36, 37, 40, 41, 42}
    ensures KindOf(k).TwoBytes? <==> k in {19, 33, 34, 35}
    ensures KindOf(k).FourBytes? <==> k in {2, 17, 24, 39}
    ensures KindOf(k).VariableLength? <==> k == 11
    ensures KindOf(k).Text? <==> k in {3, 8, 18, 21, 26, 28, 31}
    ensures KindOf(k).Binary? <==> k in {9, 22}
    ensures KindOf(k).Pair? <==> k == 38
  {
  }

  /** Whether a value is of a kind, and fits the wire. */
  predicate FitsKind(kind: Kind, v: Value) {
    match v
    case ByteValue(_) => kind == OneByte
    case Uint16Value(_) => kind == TwoBytes
    case Uint32Value(_) => kind == FourBytes
    case LengthValue(l) => kind == VariableLength && l <= MaxLength
    case StringValue(s) => kind == Text && FitsString(s)
    case BytesValue(d) => kind == Binary && |d| < 0x1_0000
    case PairValue(u) => kind == Pair && FitsString(u.key) && FitsString(u.val)
  }

  predicate FitsString(s: Bytes) {
    |s| < 0x1_0000 && ValidUTF8(s)
  }

  function EncodeValue(v: Value): Bytes {
    match v
    case ByteValue(b) => [b]
    case Uint16Value(n) => EncodeUint16(n)
    case Uint32Value(w) => EncodeUint32(w)
    case LengthValue(l) => EncodedLength(l)
    case StringValue(s) => EncodeBytes(s)
    case BytesValue(d) => EncodeBytes(d)
    case PairValue(u) => EncodeBytes(u.key) + EncodeBytes(u.val)
  }

  function EncodeItem(item: Item): Bytes {
    [item.id] + EncodeValue(item.value)
  }

  function EncodeItems(items: seq<Item>): Bytes
    decreases |items|
  {
    if items == [] then [] else EncodeItem(items[0]) + EncodeItems(items[1..])
  }

  lemma {:induction false} EncodeBoth(a: seq<Item>, b: seq<Item>)
    ensures EncodeItems(a + b) == EncodeItems(a) + EncodeItems(b)
    decreases |a|
  {
    if a == [] {
      assert a + b == b;
    } else {
      assert (a + b)[1..] == a[1..] + b;
      EncodeBoth(a[1..], b);
    }
  }

  /** Reads a value of a kind. */
  function DecodeValue(kind: Kind, buf: Bytes, offset: nat): (r: Decoded<Value>)
    requires offset <= |buf|
    ensures r.Decoded? ==> offset <= r.next <= |buf|
  {
    match kind
    case OneByte =>
      (match DecodeByte(buf, offset)
       case Failed(e) => Failed(e)
       case Decoded(b, next) => Decoded(ByteValue(b), next))
    case TwoBytes =>
      (match DecodeUint16(buf, offset)
       case Failed(e) => Failed(e)
       case Decoded(n, next) => Decoded(Uint16Value(n), next))
    case FourBytes =>
      (match DecodeUint32(buf, offset)
       case Failed(e) => Failed(e)
       case Decoded(w, next) => Decoded(Uint32Value(w), next))
    case VariableLength =>
      (match LengthOf(buf[offset..])
       case BadLength(e) => Failed(e)
       case Length(l, size) => Decoded(LengthValue(l), offset + size))
    case Binary =>
      (match DecodeBytes(buf, offset)
       case Failed(e) => Failed(e)
       case Decoded(d, next) => Decoded(BytesValue(d), next))
    case Pair =>
      (match DecodeString(buf, offset)
       case Failed(e) => Failed(e)
       case Decoded(k, next) =>
         match DecodeString(buf, next)
         case Failed(e) => Failed(e)
         case Decoded(v, last) => Decoded(PairValue(UserProperty(k, v)), last))
    case Text =>
      (match DecodeString(buf, offset)
       case Failed(e) => Failed(e)
       case Decoded(s, next) => Decoded(StringValue(s), next))
  }

  lemma ValueReadsBack(kind: Kind, v: Value, buf: Bytes, offset: nat)
    requires FitsKind(kind, v) && StandsAt(buf, offset, EncodeValue(v))
    ensures DecodeValue(kind, buf, offset) == Decoded(v, offset + |EncodeValue(v)|)
  {
    if kind == OneByte || kind == TwoBytes || kind == FourBytes || kind == VariableLength {
      NumberReadsBack(kind, v, buf, offset);
    } else {
      TextReadsBack(kind, v, buf, offset);
    }
  }

  lemma NumberReadsBack(kind: Kind, v: Value, buf: Bytes, offset: nat)
    requires FitsKind(kind, v) && StandsAt(buf, offset, EncodeValue(v)) && !kind.Text? && !kind.Binary? && !kind.Pair?
    ensures DecodeValue(kind, buf, offset) == Decoded(v, offset + |EncodeValue(v)|)
  {
    match v
    case ByteValue(b) => ByteReadsBack(buf, offset, b);
    case Uint16Value(n) => Uint16ReadsBack(buf, offset, n);
    case Uint32Value(w) => Uint32ReadsBack(buf, offset, w);
    case LengthValue(l) => LengthStandsBack(buf, offset, l);
  }

  lemma TextReadsBack(kind: Kind, v: Value, buf: Bytes, offset: nat)
    requires FitsKind(kind, v) && StandsAt(buf, offset, EncodeValue(v)) && (kind.Text? || kind.Binary? || kind.Pair?)
    ensures DecodeValue(kind, buf, offset) == Decoded(v, offset + |EncodeValue(v)|)
  {
    match v
    case StringValue(s) => StringReadsBack(buf, offset, s);
    case BytesValue(d) => BytesReadBack(buf, offset, d);
    case PairValue(u) => PairReadsBack(buf, offset, u);
  }

  lemma PairReadsBack(buf: Bytes, offset: nat, u: UserProperty)
    requires FitsString(u.key) && FitsString(u.val)
    requires StandsAt(buf, offset, EncodeBytes(u.key) + EncodeBytes(u.val))
    ensures var next := offset + 2 + |u.key|;
            && DecodeString(buf, offset) == Decoded(u.key, next)
            && DecodeString(buf, next) == Decoded(u.val, next + 2 + |u.val|)
  {
    StandsBoth(buf, offset, EncodeBytes(u.key), EncodeBytes(u.val));
    StringReadsBack(buf, offset, u.key);
    StringReadsBack(buf, offset + 2 + |u.key|, u.val);
  }

  lemma LengthStandsBack(buf: Bytes, offset: nat, l: nat)
    requires l <= MaxLength && StandsAt(buf, offset, EncodedLength(l))
    ensures LengthOf(buf[offset..]) == Length(l, |EncodedLength(l)|)
  {
    var size := |EncodedLength(l)|;
    assert buf[offset..] == EncodedLength(l) + buf[offset + size..];
    LengthRoundTrip(l, buf[offset + size..]);
  }

  // ---------- Reading ----------

  /** Stores a property that was read. */
  function Apply(p: Properties, item: Item): Properties {
    match item.value
    case LengthValue(l) => p.(subscriptionIdentifier := p.subscriptionIdentifier + [l])
    case PairValue(u) => p.(user := p.user + [u])
    case v => p.(single := p.single[item.id := v])
  }

  function ApplyAll(p: Properties, items: seq<Item>): Properties
    decreases |items|
  {
    if items == [] then p else ApplyAll(Apply(p, items[0]), items[1..])
  }

  lemma {:induction false} ApplyBoth(p: Properties, a: seq<Item>, b: seq<Item>)
    ensures ApplyAll(p, a + b) == ApplyAll(ApplyAll(p, a), b)
    decreases |a|
  {
    if a == [] {
      assert a + b == b;
    } else {
      assert (a + b)[1..] == a[1..] + b;
      ApplyBoth(Apply(p, a[0]), a[1..], b);
    }
  }

  /**
   The properties that stand from an offset up to n.  The bytes may go on behind n, and the last
   property of a malformed block may be read across it.
   */
  function ReadItems(bt: Bytes, offset: nat, n: nat, pkt: Owner): (r: Decoded<seq<Item>>)
    requires offset <= |bt|
    ensures r.Decoded? ==> r.next == n <= |bt|
    decreases |bt| - offset
  {
    if offset >= n then Decoded([], n)
    else
      match DecodeByte(bt, offset)
      case Failed(e) => Failed(e)
      case Decoded(k, next) =>
        if !CanEncode(pkt, k) then Failed(UnsupportedProperty)
        else
          match DecodeValue(KindOf(k), bt, next)
          case Failed(e) => Failed(e)
          case Decoded(v, last) => Preceded(Item(k, v), ReadItems(bt, last, n, pkt))
  }

  function Preceded(item: Item, rest: Decoded<seq<Item>>): Decoded<seq<Item>> {
    match rest
    case Failed(e) => Failed(e)
    case Decoded(items, n) => Decoded([item] + items, n)
  }

  /** Reads a block into p; the `next` of the result is the size of the block. */
  function DecodeBlock(p: Properties, pkt: Owner, b: Bytes): (r: Decoded<Properties>)
    ensures r.Decoded? ==> r.next <= |b|
  {
    match LengthOf(b)
    case BadLength(e) => Failed(e)
    case Length(n, bu) =>
      if n == 0 then Decoded(p, bu)
      else
        match ReadItems(b[bu..], 0, n, pkt)
        case Failed(e) => Failed(e)
        case Decoded(items, _) => Decoded(ApplyAll(p, items), n + bu)
  }

  /** What a list of properties read so far and the rest make together. */
  ghost predicate ReadsOn(whole: Decoded<seq<Item>>, done: seq<Item>, rest: Decoded<seq<Item>>) {
    match rest
    case Failed(e) => whole == Failed(e)
    case Decoded(items, n) => whole == Decoded(done + items, n)
  }

  lemma ReadsOnEnds(whole: Decoded<seq<Item>>, done: seq<Item>, n: nat)
    ensures ReadsOn(whole, [], whole)
    ensures ReadsOn(whole, done, Decoded([], n)) <==> whole == Decoded(done, n)
  {
    if whole.Decoded? {
      assert [] + whole.value == whole.value;
    }
    assert done + [] == done;
  }

  lemma ReadsOnOne(whole: Decoded<seq<Item>>, done: seq<Item>, item: Item, rest: Decoded<seq<Item>>)
    requires ReadsOn(whole, done, Preceded(item, rest))
    ensures ReadsOn(whole, done + [item], rest)
  {
    if rest.Decoded? {
      assert done + [item] + rest.value == done + ([item] + rest.value);
    }
  }

  lemma ApplyOne(p: Properties, done: seq<Item>, item: Item)
    ensures ApplyAll(p, done + [item]) == Apply(ApplyAll(p, done), item)
  {
    ApplyBoth(p, done, [item]);
    var q := ApplyAll(p, done);
    assert [item][1..] == [];
    assert ApplyAll(q, [item]) == ApplyAll(Apply(q, item), []);
  }

  /** The decoding loop. */
  method Decode(p0: Properties, pkt: Owner, b: Buffer) returns (r: Decoded<Properties>)
    modifies b
    ensures r == DecodeBlock(p0, pkt, old(b.data))
  {
    var length := DecodeLength(b);
    if length.BadLength? {
      return Failed(length.error);
    }
    var n, bu := length.value, length.size;
    if n == 0 {
      return Decoded(p0, bu);
    }
    var bt, p, offset := b.data, p0, 0;
    ghost var done: seq<Item> := [];
    ReadsOnEnds(ReadItems(bt, 0, n, pkt), done, n);
    while offset < n
      invariant offset <= |bt|
      invariant ReadsOn(ReadItems(bt, 0, n, pkt), done, ReadItems(bt, offset, n, pkt))
      invariant p == ApplyAll(p0, done)
      decreases |bt| - offset
    {
      var k := DecodeByte(bt, offset);
      if k.Failed? {
        return Failed(k.error);
      }
      if !CanEncode(pkt, k.value) {
        return Failed(UnsupportedProperty);
      }
      var v := DecodeValue(KindOf(k.value), bt, k.next);
      if v.Failed? {
        return Failed(v.error);
      }
      var item := Item(k.value, v.value);
      ReadsOnOne(ReadItems(bt, 0, n, pkt), done, item, ReadItems(bt, v.next, n, pkt));
      ApplyOne(p0, done, item);
      p, offset := Apply(p, item), v.next;
      done := done + [item];
    }
    ReadsOnEnds(ReadItems(bt, 0, n, pkt), done, n);
    return Decoded(p, n + bu);
  }

  /** A property that may stand in a packet, with a value that fits. */
  predicate CanSend(item: Item, pkt: Owner) {
    CanEncode(pkt, item.id) && FitsKind(KindOf(item.id), item.value)
  }

  predicate Sendable(items: seq<Item>, pkt: Owner)
    decreases |items|
  {
    items == [] || (CanSend(items[0], pkt) && Sendable(items[1..], pkt))
  }

  lemma ReadOne(item: Item, bt: Bytes, offset: nat, n: nat, pkt: Owner, last: nat)
    requires offset < n && offset < |bt| && CanEncode(pkt, item.id)
    requires DecodeByte(bt, offset) == Decoded(item.id, offset + 1)
    requires DecodeValue(KindOf(item.id), bt, offset + 1) == Decoded(item.value, last)
    ensures ReadItems(bt, offset, n, pkt) == Preceded(item, ReadItems(bt, last, n, pkt))
  {
  }

  lemma ItemReadsBack(item: Item, bt: Bytes, offset: nat, n: nat, pkt: Owner)
    requires CanSend(item, pkt) && StandsAt(bt, offset, EncodeItem(item)) && offset < n
    ensures ReadItems(bt, offset, n, pkt) == Preceded(item, ReadItems(bt, offset + |EncodeItem(item)|, n, pkt))
  {
    StandsBoth(bt, offset, [item.id], EncodeValue(item.value));
    ByteReadsBack(bt, offset, item.id);
    ValueReadsBack(KindOf(item.id), item.value, bt, offset + 1);
    ReadOne(item, bt, offset, n, pkt, offset + |EncodeItem(item)|);
  }

  lemma PrecededByFirst(r: Decoded<seq<Item>>, rest: Decoded<seq<Item>>, items: seq<Item>, n: nat)
    requires items != [] && r == Preceded(items[0], rest) && rest == Decoded(items[1..], n)
    ensures r == Decoded(items, n)
  {
    assert items == [items[0]] + items[1..];
  }

  /** A list of properties is read back one by one. */
  lemma {:induction false} ItemsReadBack(items: seq<Item>, bt: Bytes, offset: nat, n: nat, pkt: Owner)
    requires Sendable(items, pkt) && StandsAt(bt, offset, EncodeItems(items)) && n == offset + |EncodeItems(items)|
    ensures ReadItems(bt, offset, n, pkt) == Decoded(items, n)
    decreases |items|
  {
    if items != [] {
      var next := FirstReadsBack(items, bt, offset, n, pkt);
      ItemsReadBack(items[1..], bt, next, n, pkt);
      PrecededByFirst(ReadItems(bt, offset, n, pkt), ReadItems(bt, next, n, pkt), items, n);
    }
  }

  lemma FirstReadsBack(items: seq<Item>, bt: Bytes, offset: nat, n: nat, pkt: Owner) returns (next: nat)
    requires items != [] && Sendable(items, pkt)
    requires StandsAt(bt, offset, EncodeItems(items)) && n == offset + |EncodeItems(items)|
    ensures next <= |bt| && Sendable(items[1..], pkt)
    ensures StandsAt(bt, next, EncodeItems(items[1..])) && n == next + |EncodeItems(items[1..])|
    ensures ReadItems(bt, offset, n, pkt) == Preceded(items[0], ReadItems(bt, next, n, pkt))
  {
    var item := items[0];
    next := offset + |EncodeItem(item)|;
    StandsBoth(bt, offset, EncodeItem(item), EncodeItems(items[1..]));
    ItemReadsBack(item, bt, offset, n, pkt);
  }
}
