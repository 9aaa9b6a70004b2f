/** Writing property blocks, and the normal form in which they are read back (broker/packets/properties.go). */
module PropertyWriting {
  import opened Wire
  import opened PropertyBlock

  /** What is written for: the packet, the receiver's wishes, and the size of the packet so far. */
  datatype Writing = Writing(pkt: Owner, mods: Mods, n: nat)

  /** Optional texts are left out when they would take the packet to the receiver's maximum or past it. */
  predicate HasRoom(w: Writing, size: nat) {
    w.mods.maxSize == 0 || (w.n + size + 1) % 0x1_0000_0000 < w.mods.maxSize
  }

  predicate HasWildcards(topic: Bytes) {
    0x2B in topic || 0x23 in topic
  }

  /** The number of properties there are. */
  const Count: nat := 27

  /** The property written at each place. */
  function Order(i: nat): byte
    requires i < Count
  {
    match i
    case 0 => PayloadFormat
    case 1 => MessageExpiryInterval
    case 2 => ContentType
    case 3 => ResponseTopic
    case 4 => CorrelationData
    case 5 => SubscriptionIdentifier
    case 6 => SessionExpiryInterval
    case 7 => AssignedClientID
    case 8 => ServerKeepAlive
    case 9 => AuthenticationMethod
    case 10 => AuthenticationData
    case 11 => RequestProblemInfo
    case 12 => WillDelayInterval
    case 13 => RequestResponseInfo
    case 14 => ResponseInfo
    case 15 => ServerReference
    case 16 => ReasonString
    case 17 => ReceiveMaximum
    case 18 => TopicAliasMaximum
    case 19 => TopicAlias
    case 20 => MaximumQos
    case 21 => RetainAvailable
    case 22 => User
    case 23 => MaximumPacketSize
    case 24 => WildcardSubAvailable
    case 25 => SubIDAvailable
    case _ => SharedSubAvailable
  }

  /** What some properties need beside being allowed in the packet. */
  predicate Wanted(k: byte, v: Value, w: Writing) {
    if k == ResponseTopic then w.mods.allowResponseInfo && !(v.StringValue? && HasWildcards(v.s))
    else if k == CorrelationData || k == ResponseInfo then w.mods.allowResponseInfo
    else if k == ReasonString then !w.mods.disallowProblemInfo && HasRoom(w, |EncodeValue(v)|)
    else if k == TopicAlias then !IsZero(v)
    else if k == MaximumQos then v.ByteValue? && v.b < 2
    else true
  }

  predicate Writes(k: byte, v: Value, w: Writing) {
    CanEncode(w.pkt, k) && (HasFlag(k) || !IsZero(v)) && Wanted(k, v, w)
  }

  /** The positive ones among the first k subscription identifiers. */
  function Positive(ids: seq<int>, k: nat): seq<int>
    requires k <= |ids|
  {
    if k == 0 then [] else if ids[k - 1] > 0 then Positive(ids, k - 1) + [ids[k - 1]] else Positive(ids, k - 1)
  }

  function IdentifierItems(ids: seq<int>, k: nat): seq<Item>
    requires k <= |ids|
  {
    if k == 0 then []
    else if ids[k - 1] > 0 then IdentifierItems(ids, k - 1) + [Item(SubscriptionIdentifier, LengthValue(ids[k - 1]))]
    else IdentifierItems(ids, k - 1)
  }

  function UserItems(user: seq<UserProperty>, k: nat): seq<Item>
    requires k <= |user|
  {
    if k == 0 then [] else UserItems(user, k - 1) + [Item(User, PairValue(user[k - 1]))]
  }

  predicate WritesIdentifiers(w: Writing) {
    CanEncode(w.pkt, SubscriptionIdentifier)
  }

  /** The user properties are written all together or not at all. */
  predicate WritesUser(p: Properties, w: Writing) {
    && !w.mods.disallowProblemInfo && CanEncode(w.pkt, User)
    && HasRoom(w, |EncodeItems(UserItems(p.user, |p.user|))|)
  }

  /** What is written at one place of the order. */
  function ItemsAt(p: Properties, w: Writing, k: byte): seq<Item> {
    if k == SubscriptionIdentifier then
      (if WritesIdentifiers(w) then IdentifierItems(p.subscriptionIdentifier, |p.subscriptionIdentifier|) else [])
    else if k == User then (if WritesUser(p, w) then UserItems(p.user, |p.user|) else [])
    else if k in p.single && Writes(k, p.single[k], w) then [Item(k, p.single[k])]
    else []
  }

  function Parts(p: Properties, w: Writing): nat -> seq<Item> {
    (i: nat) => if i < Count then ItemsAt(p, w, Order(i)) else []
  }

  /** What stands at the first i places. */
  function Flat(parts: nat -> seq<Item>, i: nat): seq<Item> {
    if i == 0 then [] else Flat(parts, i - 1) + parts(i - 1)
  }

  function FlatBytes(parts: nat -> seq<Item>, i: nat): Bytes {
    if i == 0 then [] else FlatBytes(parts, i - 1) + EncodeItems(parts(i - 1))
  }

  lemma {:induction false} FlatBytesOfItems(parts: nat -> seq<Item>, i: nat)
    ensures FlatBytes(parts, i) == EncodeItems(Flat(parts, i))
  {
    if i > 0 {
      FlatBytesOfItems(parts, i - 1);
      EncodeBoth(Flat(parts, i - 1), parts(i - 1));
    }
  }

  function ItemsOf(p: Properties, w: Writing): seq<Item> {
    Flat(Parts(p, w), Count)
  }

  /** The block: its length, and the properties that are written. */
  function EncodeBlock(p: Properties, w: Writing): Bytes {
    var body := EncodeItems(ItemsOf(p, w));
    EncodedLength(|body|) + body
  }

  // ---------- Writing ----------

  lemma EncodeOne(item: Item)
    ensures EncodeItems([item]) == EncodeItem(item)
  {
    assert [item][1..] == [];
    assert EncodeItems([item]) == EncodeItem(item) + EncodeItems([]);
  }

  lemma EncodeMore(before: Bytes, done: seq<Item>, item: Item)
    ensures before + EncodeItems(done) + EncodeItem(item) == before + EncodeItems(done + [item])
  {
    EncodeBoth(done, [item]);
    EncodeOne(item);
    Regroup(before, EncodeItems(done), EncodeItem(item));
  }

  lemma Regroup(a: Bytes, b: Bytes, c: Bytes)
    ensures a + b + c == a + (b + c) && [] + c == c && a + [] == a
  {
  }

  method WriteItem(buf: Buffer, item: Item)
    modifies buf
    ensures buf.data == old(buf.data) + EncodeItem(item)
  {
    buf.WriteByte(item.id);
    buf.Write(EncodeValue(item.value));
    Regroup(old(buf.data), [item.id], EncodeValue(item.value));
  }

  /** Writes a single-valued property if it is to be written. */
  method WriteSingle(buf: Buffer, p: Properties, w: Writing, k: byte)
    requires k != SubscriptionIdentifier && k != User
    modifies buf
    ensures buf.data == old(buf.data) + EncodeItems(ItemsAt(p, w, k))
  {
    Regroup(buf.data, [], []);
    if k in p.single && Writes(k, p.single[k], w) {
      WriteItem(buf, Item(k, p.single[k]));
      EncodeOne(Item(k, p.single[k]));
    }
  }

  /** A property stands at a place. */
  predicate StandsIn(i: nat, k: byte) {
    i < Count && Order(i) == k
  }

  lemma MessagePlaces(i: nat)
    requires i == 0
    ensures StandsIn(i, PayloadFormat)
    ensures StandsIn(i + 1, MessageExpiryInterval)
    ensures StandsIn(i + 2, ContentType)
    ensures StandsIn(i + 3, ResponseTopic)
    ensures StandsIn(i + 4, CorrelationData)
    ensures StandsIn(i + 5, SubscriptionIdentifier)
  {
  }

  lemma SessionPlaces(i: nat)
    requires i == 6
    ensures StandsIn(i, SessionExpiryInterval)
    ensures StandsIn(i + 1, AssignedClientID)
    ensures StandsIn(i + 2, ServerKeepAlive)
    ensures StandsIn(i + 3, AuthenticationMethod)
    ensures StandsIn(i + 4, AuthenticationData)
  {
  }

  lemma RequestPlaces(i: nat)
    requires i == 11
    ensures StandsIn(i, RequestProblemInfo)
    ensures StandsIn(i + 1, WillDelayInterval)
    ensures StandsIn(i + 2, RequestResponseInfo)
  {
  }

  lemma ResponsePlaces(i: nat)
    requires i == 14
    ensures StandsIn(i, ResponseInfo)
    ensures StandsIn(i + 1, ServerReference)
    ensures StandsIn(i + 2, ReasonString)
  {
  }

  lemma LimitsPlaces(i: nat)
    requires i == 17
    ensures StandsIn(i, ReceiveMaximum)
    ensures StandsIn(i + 1, TopicAliasMaximum)
    ensures StandsIn(i + 2, TopicAlias)
    ensures StandsIn(i + 3, MaximumQos)
    ensures StandsIn(i + 4, RetainAvailable)
  {
  }

  lemma SizePlaces(i: nat)
    requires i == 22
    ensures StandsIn(i, User)
    ensures StandsIn(i + 1, MaximumPacketSize)
  {
  }

  lemma FeaturesPlaces(i: nat)
    requires i == 24
    ensures StandsIn(i, WildcardSubAvailable)
    ensures StandsIn(i + 1, SubIDAvailable)
    ensures StandsIn(i + 2, SharedSubAvailable)
  {
  }

  /** The same, at its place in the order. */
  method WriteNext(buf: Buffer, p: Properties, w: Writing, ghost parts: nat -> seq<Item>, ghost i: nat,
      k: byte) returns (ghost next: nat)
    requires StandsIn(i, k) && k != SubscriptionIdentifier && k != User
    requires buf.data == FlatBytes(parts, i)
    requires parts == Parts(p, w)
    modifies buf
    ensures next == i + 1 && buf.data == FlatBytes(parts, next)
  {
    next := i + 1;
    WriteSingle(buf, p, w, k);
  }

  method WriteIdentifiers(buf: Buffer, ids: seq<int>)
    modifies buf
    ensures buf.data == old(buf.data) + EncodeItems(IdentifierItems(ids, |ids|))
  {
    ghost var before := buf.data;
    Regroup(before, [], []);
    for k := 0 to |ids|
      invariant buf.data == before + EncodeItems(IdentifierItems(ids, k))
    {
      if ids[k] > 0 {
        var item := Item(SubscriptionIdentifier, LengthValue(ids[k]));
        EncodeMore(before, IdentifierItems(ids, k), item);
        WriteItem(buf, item);
      }
    }
  }

  method WriteUser(buf: Buffer, user: seq<UserProperty>)
    modifies buf
    ensures buf.data == old(buf.data) + EncodeItems(UserItems(user, |user|))
  {
    ghost var before := buf.data;
    Regroup(before, [], []);
    for k := 0 to |user|
      invariant buf.data == before + EncodeItems(UserItems(user, k))
    {
      var item := Item(User, PairValue(user[k]));
      EncodeMore(before, UserItems(user, k), item);
      WriteItem(buf, item);
    }
  }

  method WriteIdentifiersNext(buf: Buffer, p: Properties, w: Writing, ghost parts: nat -> seq<Item>,
      ghost i: nat) returns (ghost next: nat)
    requires StandsIn(i, SubscriptionIdentifier) && buf.data == FlatBytes(parts, i)
    requires parts == Parts(p, w)
    modifies buf
    ensures next == i + 1 && buf.data == FlatBytes(parts, next)
  {
    next := i + 1;
    Regroup(buf.data, [], []);
    if CanEncode(w.pkt, SubscriptionIdentifier) && |p.subscriptionIdentifier| > 0 {
      WriteIdentifiers(buf, p.subscriptionIdentifier);
    }
  }

  method WriteUserIfRoom(buf: Buffer, p: Properties, w: Writing)
    modifies buf
    ensures buf.data == old(buf.data) + EncodeItems(ItemsAt(p, w, User))
  {
    Regroup(buf.data, [], []);
    if !w.mods.disallowProblemInfo && CanEncode(w.pkt, User) {
      var pb := new Buffer();
      WriteUser(pb, p.user);
      Regroup([], [], pb.data);
      if HasRoom(w, |pb.data|) {
        buf.Write(pb.data);
      }
    }
  }

  method WriteUserNext(buf: Buffer, p: Properties, w: Writing, ghost parts: nat -> seq<Item>,
      ghost i: nat) returns (ghost next: nat)
    requires StandsIn(i, User) && buf.data == FlatBytes(parts, i)
    requires parts == Parts(p, w)
    modifies buf
    ensures next == i + 1 && buf.data == FlatBytes(parts, next)
  {
    next := i + 1;
    WriteUserIfRoom(buf, p, w);
  }

  method WriteMessage(buf: Buffer, p: Properties, w: Writing, ghost parts: nat -> seq<Item>,
      ghost i: nat) returns (ghost next: nat)
    requires i == 0 && buf.data == FlatBytes(parts, i)
    requires parts == Parts(p, w)
    modifies buf
    ensures next == i + 6 && buf.data == FlatBytes(parts, next)
  {
    MessagePlaces(i);
    next := i;
    next := WriteNext(buf, p, w, parts, next, PayloadFormat);
    next := WriteNext(buf, p, w, parts, next, MessageExpiryInterval);
    next := WriteNext(buf, p, w, parts, next, ContentType);
    next := WriteNext(buf, p, w, parts, next, ResponseTopic);
    next := WriteNext(buf, p, w, parts, next, CorrelationData);
    next := WriteIdentifiersNext(buf, p, w, parts, next);
  }

  method WriteSession(buf: Buffer, p: Properties, w: Writing, ghost parts: nat -> seq<Item>,
      ghost i: nat) returns (ghost next: nat)
    requires i == 6 && buf.data == FlatBytes(parts, i)
    requires parts == Parts(p, w)
    modifies buf
    ensures next == i + 5 && buf.data == FlatBytes(parts, next)
  {
    SessionPlaces(i);
    next := i;
    next := WriteNext(buf, p, w, parts, next, SessionExpiryInterval);
    next := WriteNext(buf, p, w, parts, next, AssignedClientID);
    next := WriteNext(buf, p, w, parts, next, ServerKeepAlive);
    next := WriteNext(buf, p, w, parts, next, AuthenticationMethod);
    next := WriteNext(buf, p, w, parts, next, AuthenticationData);
  }

  method WriteRequest(buf: Buffer, p: Properties, w: Writing, ghost parts: nat -> seq<Item>,
      ghost i: nat) returns (ghost next: nat)
    requires i == 11 && buf.data == FlatBytes(parts, i)
    requires parts == Parts(p, w)
    modifies buf
    ensures next == i + 3 && buf.data == FlatBytes(parts, next)
  {
    RequestPlaces(i);
    next := i;
    next := WriteNext(buf, p, w, parts, next, RequestProblemInfo);
    next := WriteNext(buf, p, w, parts, next, WillDelayInterval);
    next := WriteNext(buf, p, w, parts, next, RequestResponseInfo);
  }

  method WriteResponse(buf: Buffer, p: Properties, w: Writing, ghost parts: nat -> seq<Item>,
      ghost i: nat) returns (ghost next: nat)
    requires i == 14 && buf.data == FlatBytes(parts, i)
    requires parts == Parts(p, w)
    modifies buf
    ensures next == i + 3 && buf.data == FlatBytes(parts, next)
  {
    ResponsePlaces(i);
    next := i;
    next := WriteNext(buf, p, w, parts, next, ResponseInfo);
    next := WriteNext(buf, p, w, parts, next, ServerReference);
    next := WriteNext(buf, p, w, parts, next, ReasonString);
  }

  method WriteLimits(buf: Buffer, p: Properties, w: Writing, ghost parts: nat -> seq<Item>,
      ghost i: nat) returns (ghost next: nat)
    requires i == 17 && buf.data == FlatBytes(parts, i)
    requires parts == Parts(p, w)
    modifies buf
    ensures next == i + 5 && buf.data == FlatBytes(parts, next)
  {
    LimitsPlaces(i);
    next := i;
    next := WriteNext(buf, p, w, parts, next, ReceiveMaximum);
    next := WriteNext(buf, p, w, parts, next, TopicAliasMaximum);
    next := WriteNext(buf, p, w, parts, next, TopicAlias);
    next := WriteNext(buf, p, w, parts, next, MaximumQos);
    next := WriteNext(buf, p, w, parts, next, RetainAvailable);
  }

  method WriteSize(buf: Buffer, p: Properties, w: Writing, ghost parts: nat -> seq<Item>,
      ghost i: nat) returns (ghost next: nat)
    requires i == 22 && buf.data == FlatBytes(parts, i)
    requires parts == Parts(p, w)
    modifies buf
    ensures next == i + 2 && buf.data == FlatBytes(parts, next)
  {
    SizePlaces(i);
    next := i;
    next := WriteUserNext(buf, p, w, parts, next);
    next := WriteNext(buf, p, w, parts, next, MaximumPacketSize);
  }

  method WriteFeatures(buf: Buffer, p: Properties, w: Writing, ghost parts: nat -> seq<Item>,
      ghost i: nat) returns (ghost next: nat)
    requires i == 24 && buf.data == FlatBytes(parts, i)
    requires parts == Parts(p, w)
    modifies buf
    ensures next == i + 3 && buf.data == FlatBytes(parts, next)
  {
    FeaturesPlaces(i);
    next := i;
    next := WriteNext(buf, p, w, parts, next, WildcardSubAvailable);
    next := WriteNext(buf, p, w, parts, next, SubIDAvailable);
    next := WriteNext(buf, p, w, parts, next, SharedSubAvailable);
  }

  /** Properties.Encode: the properties that may and need be written, in a fixed order, after their length. */
  method Encode(p: Properties, w: Writing, b: Buffer)
    modifies b
    ensures b.data == old(b.data) + EncodeBlock(p, w)
  {
    var buf := new Buffer();
    ghost var i, parts := 0, Parts(p, w);
    i := WriteMessage(buf, p, w, parts, i);
    i := WriteSession(buf, p, w, parts, i);
    i := WriteRequest(buf, p, w, parts, i);
    i := WriteResponse(buf, p, w, parts, i);
    i := WriteLimits(buf, p, w, parts, i);
    i := WriteSize(buf, p, w, parts, i);
    i := WriteFeatures(buf, p, w, parts, i);
    FlatBytesOfItems(Parts(p, w), Count);
    EncodeLength(b, |buf.data|);
    b.Write(buf.data);
    Regroup(old(b.data), EncodedLength(|buf.data|), buf.data);
  }

  // ---------- What is read back ----------

  /** The form in which properties are read back: those that were written. */
  function Normal(p: Properties, w: Writing): Properties {
    Properties(
      map k | k in p.single && Writes(k, p.single[k], w) :: p.single[k],
      if WritesIdentifiers(w) then Positive(p.subscriptionIdentifier, |p.subscriptionIdentifier|) else [],
      if WritesUser(p, w) then p.user else [])
  }

  /** A value of the kind its property takes, which fits the wire: sixteen-bit lengths and valid UTF-8. */
  predicate FitsSingle(k: byte, v: Value) {
    (exists i: nat :: i < Count && Order(i) == k) && FitsKind(KindOf(k), v)
  }

  predicate FitsWire(p: Properties) {
    && (forall k | k in p.single :: k != SubscriptionIdentifier && k != User && FitsSingle(k, p.single[k]))
    && (forall i | 0 <= i < |p.subscriptionIdentifier| :: p.subscriptionIdentifier[i] <= MaxLength)
    && (forall i | 0 <= i < |p.user| :: FitsString(p.user[i].key) && FitsString(p.user[i].val))
  }

  lemma {:induction false} ApplyIdentifiers(q: Properties, ids: seq<int>, k: nat)
    requires k <= |ids|
    ensures ApplyAll(q, IdentifierItems(ids, k)) ==
            q.(subscriptionIdentifier := q.subscriptionIdentifier + Positive(ids, k))
  {
    if k > 0 {
      ApplyIdentifiers(q, ids, k - 1);
      if ids[k - 1] > 0 {
        ApplyOne(q, IdentifierItems(ids, k - 1), Item(SubscriptionIdentifier, LengthValue(ids[k - 1])));
      }
    }
  }

  lemma {:induction false} ApplyUser(q: Properties, user: seq<UserProperty>, k: nat)
    requires k <= |user|
    ensures ApplyAll(q, UserItems(user, k)) == q.(user := q.user + user[..k])
  {
    if k > 0 {
      ApplyUser(q, user, k - 1);
      ApplyOne(q, UserItems(user, k - 1), Item(User, PairValue(user[k - 1])));
      assert user[..k] == user[..k - 1] + [user[k - 1]];
    }
  }

  // ---------- The round trip ----------

  /** The property stands at one of the first i places. */
  ghost predicate Reached(k: byte, i: nat) {
    exists j: nat :: j < i && j < Count && Order(j) == k
  }

  /** What the first i places leave behind when they are read. */
  ghost function NormalTo(p: Properties, w: Writing, i: nat): Properties {
    var all := Normal(p, w);
    Properties(
      map k | k in all.single && Reached(k, i) :: all.single[k],
      if i > 5 then all.subscriptionIdentifier else [],
      if i > 22 then all.user else [])
  }

  /** What reading one place adds. */
  function After(q: Properties, p: Properties, w: Writing, k: byte): Properties {
    var all := Normal(p, w);
    if k == SubscriptionIdentifier then
      q.(subscriptionIdentifier := q.subscriptionIdentifier + all.subscriptionIdentifier)
    else if k == User then q.(user := q.user + all.user)
    else if k in all.single then q.(single := q.single[k := all.single[k]])
    else q
  }

  lemma NothingApplied(q: Properties)
    ensures q.subscriptionIdentifier + [] == q.subscriptionIdentifier && q.user + [] == q.user
    ensures q.(subscriptionIdentifier := q.subscriptionIdentifier) == q
  {
  }

  lemma ApplyAt(q: Properties, p: Properties, w: Writing, k: byte)
    requires FitsWire(p)
    ensures ApplyAll(q, ItemsAt(p, w, k)) == After(q, p, w, k)
  {
    NothingApplied(q);
    if k == SubscriptionIdentifier {
      ApplyIdentifiers(q, p.subscriptionIdentifier, |p.subscriptionIdentifier|);
    } else if k == User {
      ApplyUser(q, p.user, |p.user|);
      assert p.user[..|p.user|] == p.user;
    } else if k in p.single && Writes(k, p.single[k], w) {
      assert !p.single[k].LengthValue? && !p.single[k].PairValue?;
      ApplyOne(q, [], Item(k, p.single[k]));
      assert [] + [Item(k, p.single[k])] == [Item(k, p.single[k])];
    }
  }

  lemma OrderOfLists(i: nat)
    requires i < Count
    ensures Order(i) == SubscriptionIdentifier <==> i == 5
    ensures Order(i) == User <==> i == 22
  {
  }

  ghost predicate ReachesNext(i: nat, k: byte) {
    forall g: byte :: Reached(g, i + 1) <==> Reached(g, i) || g == k
  }

  lemma ReachedNext(i: nat)
    requires i < Count
    ensures ReachesNext(i, Order(i))
  {
    forall g: byte ensures Reached(g, i + 1) <==> Reached(g, i) || g == Order(i) {
      if j: nat :| j < i && j < Count && Order(j) == g {
        assert j < i + 1;
      }
      if g == Order(i) {
        assert i < i + 1;
      }
    }
  }

  lemma NormalNext(p: Properties, w: Writing, i: nat)
    requires FitsWire(p) && i < Count
    ensures After(NormalTo(p, w, i), p, w, Order(i)) == NormalTo(p, w, i + 1)
  {
    OrderOfLists(i);
    ReachedNext(i);
    NextPlace(Normal(p, w), NormalTo(p, w, i), NormalTo(p, w, i + 1), Order(i), i);
  }

  lemma NextPlace(all: Properties, q: Properties, r: Properties, k: byte, i: nat)
    requires k == SubscriptionIdentifier <==> i == 5
    requires k == User <==> i == 22
    requires SubscriptionIdentifier !in all.single && User !in all.single
    requires ReachesNext(i, k)
    requires q.single == (map g | g in all.single && Reached(g, i) :: all.single[g])
    requires r.single == (map g | g in all.single && Reached(g, i + 1) :: all.single[g])
    ensures r.single == if k in all.single then q.single[k := all.single[k]] else q.single
  {
  }

  lemma {:induction false} ItemsGiveNormal(p: Properties, w: Writing, i: nat)
    requires FitsWire(p) && i <= Count
    ensures ApplyAll(NoProperties, Flat(Parts(p, w), i)) == NormalTo(p, w, i)
  {
    if i == 0 {
      assert NormalTo(p, w, 0).single == map[];
    } else {
      ItemsGiveNormal(p, w, i - 1);
      ApplyBoth(NoProperties, Flat(Parts(p, w), i - 1), Parts(p, w)(i - 1));
      ApplyAt(NormalTo(p, w, i - 1), p, w, Order(i - 1));
      NormalNext(p, w, i - 1);
    }
  }

  lemma NormalIsAll(p: Properties, w: Writing)
    requires FitsWire(p)
    ensures NormalTo(p, w, Count) == Normal(p, w)
  {
    var all := Normal(p, w);
    forall k | k in all.single ensures Reached(k, Count) {
    }
    assert NormalTo(p, w, Count).single == all.single;
  }

  lemma {:induction false} SendableBoth(a: seq<Item>, b: seq<Item>, pkt: Owner)
    requires Sendable(a, pkt) && Sendable(b, pkt)
    ensures Sendable(a + b, pkt)
    decreases |a|
  {
    if a == [] {
      assert a + b == b;
    } else {
      assert (a + b)[1..] == a[1..] + b;
      SendableBoth(a[1..], b, pkt);
    }
  }

  lemma SendableMore(done: seq<Item>, item: Item, pkt: Owner)
    requires Sendable(done, pkt) && CanSend(item, pkt)
    ensures Sendable(done + [item], pkt)
  {
    assert [item][1..] == [];
    SendableBoth(done, [item], pkt);
  }

  lemma {:induction false} SendableIdentifiers(ids: seq<int>, k: nat, pkt: Owner)
    requires k <= |ids| && CanEncode(pkt, SubscriptionIdentifier) && forall i | 0 <= i < |ids| :: ids[i] <= MaxLength
    ensures Sendable(IdentifierItems(ids, k), pkt)
  {
    if k > 0 {
      SendableIdentifiers(ids, k - 1, pkt);
      if ids[k - 1] > 0 {
        SendableMore(IdentifierItems(ids, k - 1), Item(SubscriptionIdentifier, LengthValue(ids[k - 1])), pkt);
      }
    }
  }

  lemma {:induction false} SendableUser(user: seq<UserProperty>, k: nat, pkt: Owner)
    requires k <= |user| && CanEncode(pkt, User)
    requires forall i | 0 <= i < |user| :: FitsString(user[i].key) && FitsString(user[i].val)
    ensures Sendable(UserItems(user, k), pkt)
  {
    if k > 0 {
      SendableUser(user, k - 1, pkt);
      SendableMore(UserItems(user, k - 1), Item(User, PairValue(user[k - 1])), pkt);
    }
  }

  lemma SendableAt(p: Properties, w: Writing, k: byte)
    requires FitsWire(p)
    ensures Sendable(ItemsAt(p, w, k), w.pkt)
  {
    if k == SubscriptionIdentifier {
      if WritesIdentifiers(w) {
        SendableIdentifiers(p.subscriptionIdentifier, |p.subscriptionIdentifier|, w.pkt);
      }
    } else if k == User {
      if WritesUser(p, w) {
        SendableUser(p.user, |p.user|, w.pkt);
      }
    } else if k in p.single && Writes(k, p.single[k], w) {
      SendableMore([], Item(k, p.single[k]), w.pkt);
      assert [] + [Item(k, p.single[k])] == [Item(k, p.single[k])];
    }
  }

  lemma {:induction false} FlatSendable(p: Properties, w: Writing, i: nat)
    requires FitsWire(p) && i <= Count
    ensures Sendable(Flat(Parts(p, w), i), w.pkt)
  {
    if i > 0 {
      FlatSendable(p, w, i - 1);
      SendableAt(p, w, Order(i - 1));
      SendableBoth(Flat(Parts(p, w), i - 1), ItemsAt(p, w, Order(i - 1)), w.pkt);
    }
  }

  /** Only a block that is not longer than the greatest length can be sent. */
  predicate BlockFits(p: Properties, w: Writing) {
    |EncodeItems(ItemsOf(p, w))| <= MaxLength
  }

  /**
   Whatever follows, a written block is read back as the normal form of its properties, and exactly
   its own bytes are consumed.
   */
  lemma PropertiesRoundTrip(p: Properties, w: Writing, rest: Bytes)
    requires FitsWire(p) && BlockFits(p, w)
    ensures DecodeBlock(NoProperties, w.pkt, EncodeBlock(p, w) + rest) == Decoded(Normal(p, w), |EncodeBlock(p, w)|)
  {
    var items := ItemsOf(p, w);
    var body := EncodeItems(items);
    var length := EncodedLength(|body|);
    Regroup(length, body, rest);
    LengthRoundTrip(|body|, body + rest);
    ItemsGiveNormal(p, w, Count);
    NormalIsAll(p, w);
    FlatSendable(p, w, Count);
    BlockReadsBack(items, w.pkt, rest);
  }

  lemma BlockReadsBack(items: seq<Item>, pkt: Owner, rest: Bytes)
    requires Sendable(items, pkt) && |EncodeItems(items)| <= MaxLength
    ensures var body := EncodeItems(items);
            DecodeBlock(NoProperties, pkt, EncodedLength(|body|) + body + rest) ==
            Decoded(ApplyAll(NoProperties, items), |EncodedLength(|body|)| + |body|)
  {
    var body := EncodeItems(items);
    var length := EncodedLength(|body|);
    var b := length + body + rest;
    Regroup(length, body, rest);
    LengthRoundTrip(|body|, body + rest);
    assert b[|length|..] == body + rest;
    StandsInFront(body, rest);
    ItemsReadBack(items, body + rest, 0, |body|, pkt);
    if |body| == 0 {
      NoItems(items);
    }
  }

  lemma NoItems(items: seq<Item>)
    ensures EncodeItems(items) == [] <==> items == []
  {
    if items != [] {
      assert |EncodeItem(items[0])| > 0;
    }
  }

  lemma {:induction false} PositiveAgain(ids: seq<int>, k: nat)
    requires k <= |ids|
    ensures Positive(Positive(ids, k), |Positive(ids, k)|) == Positive(ids, k)
  {
    if k > 0 {
      PositiveAgain(ids, k - 1);
      var before := Positive(ids, k - 1);
      if ids[k - 1] > 0 {
        PositivePrefix(before, [ids[k - 1]], |before|);
      }
    }
  }

  lemma {:induction false} PositivePrefix(ids: seq<int>, more: seq<int>, k: nat)
    requires k <= |ids|
    ensures Positive(ids + more, k) == Positive(ids, k)
  {
    if k > 0 {
      PositivePrefix(ids, more, k - 1);
    }
  }

  /** What was read is already in normal form: sent on in the same way, it arrives unchanged. */
  lemma NormalIsStable(p: Properties, w: Writing)
    ensures Normal(Normal(p, w), w) == Normal(p, w)
  {
    PositiveAgain(p.subscriptionIdentifier, |p.subscriptionIdentifier|);
    assert Normal(Normal(p, w), w).single == Normal(p, w).single;
    if WritesIdentifiers(w) {
      assert Normal(p, w).subscriptionIdentifier == Positive(p.subscriptionIdentifier, |p.subscriptionIdentifier|);
    }
  }

  // ---------- What is lost, told without the writer ----------

  /** The properties that can be told from absent ones when they are zero. */
  predicate Flagged(k: byte) {
    k in {1, 17, 19, 23, 35, 36, 37, 40, 41, 42}
  }

  predicate NotZero(v: Value) {
    v !in {ByteValue(0), Uint16Value(0), Uint32Value(0), LengthValue(0), StringValue([]), BytesValue([])}
  }

  /** A text of this length still fits the receiver's maximum packet size, which the last byte must not reach. */
  predicate Fits(w: Writing, size: nat) {
    w.mods.maxSize > 0 ==> (w.n + size + 1) % 0x1_0000_0000 < w.mods.maxSize
  }

  /**
   A property arrives when it may stand in the packet and differs from an absent one, unless it is
   withheld: a response topic with wildcards; response information that was not asked for; a reason
   that is not wanted or too long; the topic alias 0; a maximum QoS other than 0 and 1.
   */
  predicate Arrives(k: byte, v: Value, w: Writing) {
    && k in AllowedIn(w.pkt) && (Flagged(k) || NotZero(v))
    && (k in {8, 9, 26} ==> w.mods.allowResponseInfo)
    && (k == 8 && v.StringValue? ==> 0x2B !in v.s && 0x23 !in v.s)
    && (k == 31 ==> !w.mods.disallowProblemInfo && Fits(w, if v.StringValue? then 2 + |v.s| else |EncodeValue(v)|))
    && (k == 35 ==> NotZero(v))
    && (k == 36 ==> v == ByteValue(0) || v == ByteValue(1))
  }

  /** The size of user properties on the wire. */
  function UserSize(user: seq<UserProperty>): nat {
    if user == [] then 0
    else
      var u := user[|user| - 1];
      UserSize(user[..|user| - 1]) + 5 + |u.key| + |u.val|
  }

  lemma WritesExactly(k: byte, v: Value, w: Writing)
    ensures Writes(k, v, w) <==> Arrives(k, v, w)
  {
    AllowedExactly(w.pkt, k);
    assert IsZero(v) <==> !NotZero(v);
    assert HasFlag(k) <==> Flagged(k);
    if v.StringValue? {
      assert |EncodeValue(v)| == 2 + |v.s|;
    }
  }

  lemma {:induction false} UserSizeExactly(user: seq<UserProperty>, k: nat)
    requires k <= |user|
    ensures |EncodeItems(UserItems(user, k))| == UserSize(user[..k])
  {
    if k > 0 {
      var item := Item(User, PairValue(user[k - 1]));
      UserSizeExactly(user, k - 1);
      EncodeBoth(UserItems(user, k - 1), [item]);
      EncodeOne(item);
      assert user[..k][..k - 1] == user[..k - 1];
      PairSize(user[k - 1]);
    }
  }

  lemma PairSize(u: UserProperty)
    ensures |EncodeItem(Item(User, PairValue(u)))| == 5 + |u.key| + |u.val|
  {
  }

  /** Exactly what a reader gets: the properties that arrive, the positive identifiers, and the user properties. */
  lemma ArrivesExactly(p: Properties, w: Writing, rest: Bytes)
    requires FitsWire(p) && BlockFits(p, w)
    ensures var r := DecodeBlock(NoProperties, w.pkt, EncodeBlock(p, w) + rest);
            && r.Decoded? && r.next == |EncodeBlock(p, w)|
            && (forall k: byte :: k in r.value.single <==> k in p.single && Arrives(k, p.single[k], w))
            && (forall k | k in r.value.single :: r.value.single[k] == p.single[k])
            && r.value.subscriptionIdentifier ==
               (if 11 in AllowedIn(w.pkt) then Positive(p.subscriptionIdentifier, |p.subscriptionIdentifier|) else [])
            && r.value.user ==
               (if 38 in AllowedIn(w.pkt) && !w.mods.disallowProblemInfo && Fits(w, UserSize(p.user)) then p.user
                else [])
  {
    PropertiesRoundTrip(p, w, rest);
    forall k: byte | k in p.single
      ensures Writes(k, p.single[k], w) <==> Arrives(k, p.single[k], w)
    {
      WritesExactly(k, p.single[k], w);
    }
    AllowedExactly(w.pkt, SubscriptionIdentifier);
    AllowedExactly(w.pkt, User);
    UserSizeExactly(p.user, |p.user|);
    assert p.user[..|p.user|] == p.user;
  }

  lemma {:induction false} AllPositive(ids: seq<int>, k: nat)
    requires k <= |ids|
    ensures |Positive(ids, k)| <= k
    ensures Positive(ids, k) == ids[..k] <==> forall i | 0 <= i < k :: ids[i] > 0
  {
    if k > 0 {
      AllPositive(ids, k - 1);
      var before, last := Positive(ids, k - 1), ids[k - 1];
      assert ids[..k] == ids[..k - 1] + [last];
      if last > 0 && before + [last] == ids[..k] {
        assert before == (before + [last])[..k - 1];
      }
    }
  }

  /** Every property arrives, and so do all the identifiers and user properties. */
  predicate AllArrive(p: Properties, w: Writing) {
    && (forall k | k in p.single :: Arrives(k, p.single[k], w))
    && (p.subscriptionIdentifier != [] ==> 11 in AllowedIn(w.pkt))
    && (forall i | 0 <= i < |p.subscriptionIdentifier| :: p.subscriptionIdentifier[i] > 0)
    && (p.user != [] ==> 38 in AllowedIn(w.pkt) && !w.mods.disallowProblemInfo && Fits(w, UserSize(p.user)))
  }

  /** The properties of the standard in ascending order: the places they are written at. */
  function Ascending(): seq<byte> {
    [1, 2, 3, 8, 9, 11, 17, 18, 19, 21, 22, 23, 24, 25, 26, 28, 31, 33, 34, 35, 36, 37, 38, 39, 40, 41, 42]
  }

  lemma OrderIsAscending(i: nat)
    requires i < Count
    ensures |Ascending()| == Count && Order(i) == Ascending()[i]
  {
  }

  lemma PlaceOf(pkt: Owner, k: byte) returns (i: nat)
    requires k in AllowedIn(pkt)
    ensures i < |Ascending()| && Ascending()[i] == k
  {
    i := if k <= 3 then k - 1 else if k <= 9 then k - 5 else if k == 11 then 5 else if k <= 19 then k - 11
         else if k <= 26 then k - 12 else if k == 28 then 15 else if k == 31 then 16 else k - 16;
  }

  /** Every property that may stand in some packet has its place. */
  lemma EveryPropertyIsWritten(pkt: Owner, k: byte)
    requires k in AllowedIn(pkt)
    ensures Reached(k, Count)
  {
    var i := PlaceOf(pkt, k);
    OrderIsAscending(i);
  }

  /** Properties are read back as they are if and only if all of them arrive. */
  lemma NothingLostExactly(p: Properties, w: Writing, rest: Bytes)
    requires FitsWire(p) && BlockFits(p, w)
    ensures DecodeBlock(NoProperties, w.pkt, EncodeBlock(p, w) + rest) == Decoded(p, |EncodeBlock(p, w)|) <==>
            AllArrive(p, w)
  {
    ArrivesExactly(p, w, rest);
    var q := DecodeBlock(NoProperties, w.pkt, EncodeBlock(p, w) + rest).value;
    IdentifiersArrive(p.subscriptionIdentifier, 11 in AllowedIn(w.pkt));
    SameSingle(p, q, w);
  }

  lemma IdentifiersArrive(ids: seq<int>, allowed: bool)
    ensures (if allowed then Positive(ids, |ids|) else []) == ids <==>
            (ids != [] ==> allowed) && forall i | 0 <= i < |ids| :: ids[i] > 0
  {
    AllPositive(ids, |ids|);
    assert ids[..|ids|] == ids;
  }

  lemma SameSingle(p: Properties, q: Properties, w: Writing)
    requires forall k: byte :: k in q.single <==> k in p.single && Arrives(k, p.single[k], w)
    requires forall k | k in q.single :: q.single[k] == p.single[k]
    ensures q.single == p.single <==> forall k | k in p.single :: Arrives(k, p.single[k], w)
  {
  }

  /** A property that may stand in a packet, and that the code does not withhold by its value. */
  predicate MayStand(k: byte, v: Value, pkt: Owner) {
    && k in AllowedIn(pkt) && (Flagged(k) || NotZero(v))
    && (k == 8 && v.StringValue? ==> 0x2B !in v.s && 0x23 !in v.s)
    && (k == 35 ==> NotZero(v))
    && (k == 36 ==> v == ByteValue(0) || v == ByteValue(1))
  }

  /** For a receiver that wants everything and sets no limit, nothing that may stand in the packet is lost. */
  lemma NothingLost(p: Properties, w: Writing, rest: Bytes)
    requires FitsWire(p) && BlockFits(p, w) && w.mods == Mods(0, false, true)
    requires forall k | k in p.single :: MayStand(k, p.single[k], w.pkt)
    requires p.subscriptionIdentifier != [] ==> 11 in AllowedIn(w.pkt)
    requires forall i | 0 <= i < |p.subscriptionIdentifier| :: p.subscriptionIdentifier[i] > 0
    requires p.user != [] ==> 38 in AllowedIn(w.pkt)
    ensures DecodeBlock(NoProperties, w.pkt, EncodeBlock(p, w) + rest) == Decoded(p, |EncodeBlock(p, w)|)
  {
    forall k | k in p.single ensures Arrives(k, p.single[k], w) {
      StandsArrives(k, p.single[k], w);
    }
    NothingLostExactly(p, w, rest);
  }

  lemma StandsArrives(k: byte, v: Value, w: Writing)
    requires MayStand(k, v, w.pkt) && w.mods == Mods(0, false, true)
    ensures Arrives(k, v, w)
  {
  }
}
