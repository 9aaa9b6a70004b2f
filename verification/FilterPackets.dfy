/** SUBSCRIBE and UNSUBSCRIBE: packets that carry a list of filters (broker/packets/packets.go). */
module FilterPackets {
  import opened Wire
  import opened FixedHeaders
  import opened PropertyBlock
  import opened PropertyWriting
  import opened ControlPackets

  /** Filters with an option byte each, or only their names. */
  datatype Form = WithOptions(version: byte, identifier: int) | NamesOnly

  /** Before version 5 the option byte is the QoS. */
  function OptionByte(version: byte, s: Subscription): byte {
    if version == 5 then s.qos + EncodeBool(s.noLocal) * 4 + EncodeBool(s.retainAsPublished) * 8 + s.retainHandling * 16
    else s.qos
  }

  function EncodeFilter(form: Form, s: Subscription): Bytes {
    EncodeBytes(s.filter) + (if form.WithOptions? then [OptionByte(form.version, s)] else [])
  }

  function EncodeFilters(form: Form, filters: seq<Subscription>): Bytes
    decreases |filters|
  {
    if filters == [] then [] else EncodeFilter(form, filters[0]) + EncodeFilters(form, filters[1..])
  }

  method WriteFilters(xb: Buffer, form: Form, filters: seq<Subscription>)
    modifies xb
    ensures xb.data == old(xb.data) + EncodeFilters(form, filters)
  {
    ghost var all := xb.data + EncodeFilters(form, filters);
    assert filters[0..] == filters;
    for i := 0 to |filters|
      invariant xb.data + EncodeFilters(form, filters[i..]) == all
    {
      assert filters[i..][0] == filters[i] && filters[i..][1..] == filters[i + 1..];
      Regroup(xb.data, EncodeFilter(form, filters[i]), EncodeFilters(form, filters[i + 1..]));
      Regroup(xb.data, EncodeBytes(filters[i].filter),
              if form.WithOptions? then [OptionByte(form.version, filters[i])] else []);
      xb.Write(EncodeBytes(filters[i].filter));
      if form.WithOptions? {
        xb.WriteByte(OptionByte(form.version, filters[i]));
      } else {
        Regroup(xb.data, [], []);
      }
    }
    Regroup(xb.data, [], []);
  }

  /** Subscription.decode, or the QoS of an earlier version; either must be at most 2. */
  function DecodeOption(form: Form, filter: Bytes, b: byte): Decoded<Subscription>
    requires form.WithOptions?
  {
    var option: int := b;
    var qos := if form.version == 5 then option % 4 else option;
    if qos > 2 then Failed(QosOutOfRange)
    else if form.version == 5 then
      Decoded(Subscription(filter, form.identifier, option / 16 % 4, qos, option / 8 % 2 > 0, option / 4 % 2 > 0), 0)
    else Decoded(Subscription(filter, form.identifier, 0, qos, false, false), 0)
  }

  function DecodeFilter(form: Form, buf: Bytes, offset: nat): (r: Decoded<Subscription>)
    ensures r.Decoded? ==> offset < r.next <= |buf|
  {
    var (filter, o1) :- DecodeString(buf, offset);
    if form.NamesOnly? then Decoded(Subscription(filter, 0, 0, 0, false, false), o1)
    else
      var (b, o2) :- DecodeOptionByte(form, buf, o1);
      var (s, _) :- DecodeOption(form, filter, b);
      Decoded(s, o2)
  }

  /** The option byte of version 5 is indexed without a check. */
  function DecodeOptionByte(form: Form, buf: Bytes, offset: nat): (r: Decoded<byte>)
    requires form.WithOptions?
    ensures r.Decoded? ==> r.next == offset + 1 <= |buf|
  {
    if form.version != 5 then DecodeByte(buf, offset)
    else if offset < |buf| then Decoded(buf[offset], offset + 1)
    else Failed(IndexOutOfRange)
  }

  /** The filters from an offset to the end, after those that were read before. */
  function FiltersFrom(form: Form, buf: Bytes, offset: nat, done: seq<Subscription>): Decoded<seq<Subscription>>
    decreases |buf| - offset
  {
    if offset >= |buf| then Decoded(done, offset)
    else
      var (s, next) :- DecodeFilter(form, buf, offset);
      FiltersFrom(form, buf, next, done + [s])
  }

  method ReadFilters(form: Form, buf: Bytes, start: nat) returns (r: Decoded<seq<Subscription>>)
    ensures r == FiltersFrom(form, buf, start, [])
  {
    var filters: seq<Subscription>, offset := [], start;
    while offset < |buf|
      invariant FiltersFrom(form, buf, start, []) == FiltersFrom(form, buf, offset, filters)
      decreases |buf| - offset
    {
      var f := DecodeFilter(form, buf, offset);
      if f.Failed? {
        return Failed(f.error);
      }
      filters, offset := filters + [f.value], f.next;
    }
    return Decoded(filters, offset);
  }

  /**
   Reading runs past the end exactly when a version 5 packet ends right behind the name of one of
   its filters, the filters before it being well formed.
   */
  lemma {:induction false} RunsPastTheEnd(form: Form, buf: Bytes, offset: nat, done: seq<Subscription>)
    ensures FiltersFrom(form, buf, offset, done) == Failed(IndexOutOfRange) <==>
            form.WithOptions? && form.version == 5 && EndsBehindName(form, buf, offset)
    decreases |buf| - offset
  {
    if offset < |buf| {
      var name, r := DecodeString(buf, offset), DecodeFilter(form, buf, offset);
      assert name.Failed? ==> name.error != IndexOutOfRange;
      if r.Decoded? {
        RunsPastTheEnd(form, buf, r.next, done + [r.value]);
      }
    }
  }

  predicate EndsBehindName(form: Form, buf: Bytes, offset: nat)
    decreases |buf| - offset
  {
    && offset < |buf|
    && var name, r := DecodeString(buf, offset), DecodeFilter(form, buf, offset);
       || (name.Decoded? && name.next == |buf|)
       || (r.Decoded? && EndsBehindName(form, buf, r.next))
  }

  /** A filter as it is read: earlier versions have no options but the QoS. */
  function NormalFilter(form: Form, s: Subscription): Subscription {
    match form
    case NamesOnly => Subscription(s.filter, 0, 0, 0, false, false)
    case WithOptions(version, identifier) =>
      if version == 5 then s.(identifier := identifier)
      else Subscription(s.filter, identifier, 0, s.qos, false, false)
  }

  function NormalFilters(form: Form, filters: seq<Subscription>): (r: seq<Subscription>)
    ensures |r| == |filters|
    decreases |filters|
  {
    if filters == [] then [] else [NormalFilter(form, filters[0])] + NormalFilters(form, filters[1..])
  }

  /** What arrives of the filters of a packet: in version 5 all of each, before it the QoS, and names alone. */
  lemma {:induction false} FiltersArrive(pk: Packet, identifier: int, filters: seq<Subscription>, i: nat)
    requires i < |filters|
    ensures |NormalFilters(FormOf(pk, identifier), filters)| == |filters|
    ensures var r, s := NormalFilters(FormOf(pk, identifier), filters)[i], filters[i];
            && r.filter == s.filter
            && (if pk.header.kind == 8 then r.identifier == identifier && r.qos == s.qos
                else r.identifier == 0 && r.qos == 0)
            && (if pk.header.kind == 8 && pk.version == 5 then
                  r.noLocal == s.noLocal && r.retainAsPublished == s.retainAsPublished
                  && r.retainHandling == s.retainHandling
                else !r.noLocal && !r.retainAsPublished && r.retainHandling == 0)
    decreases |filters|
  {
    if i > 0 {
      FiltersArrive(pk, identifier, filters[1..], i - 1);
    }
  }

  predicate FilterFits(form: Form, s: Subscription) {
    FitsString(s.filter) && (form.WithOptions? ==> s.qos <= 2)
  }

  predicate FiltersFit(form: Form, filters: seq<Subscription>)
    decreases |filters|
  {
    filters == [] || (FilterFits(form, filters[0]) && FiltersFit(form, filters[1..]))
  }

  lemma OptionReadsBack(form: Form, s: Subscription)
    requires form.WithOptions? && s.qos <= 2
    ensures DecodeOption(form, s.filter, OptionByte(form.version, s)) == Decoded(NormalFilter(form, s), 0)
  {
    if form.version == 5 {
      var b: int, q: int, n: int, p: int, h: int :=
        OptionByte(5, s), s.qos, EncodeBool(s.noLocal), EncodeBool(s.retainAsPublished), s.retainHandling;
      assert b == q + 4 * (n + 2 * (p + 2 * h));
      assert b / 4 == n + 2 * (p + 2 * h);
      assert b / 8 == p + 2 * h;
      assert b / 16 == h;
    }
  }

  lemma FilterReadsBack(form: Form, s: Subscription, buf: Bytes, offset: nat)
    requires FilterFits(form, s) && StandsAt(buf, offset, EncodeFilter(form, s))
    ensures Gives(DecodeFilter(form, buf, offset), NormalFilter(form, s), offset + |EncodeFilter(form, s)|)
  {
    var tail := if form.WithOptions? then [OptionByte(form.version, s)] else [];
    StandsBoth(buf, offset, EncodeBytes(s.filter), tail);
    StringReadsBack(buf, offset, s.filter);
    if form.WithOptions? {
      ByteReadsBack(buf, offset + 2 + |s.filter|, OptionByte(form.version, s));
      OptionReadsBack(form, s);
    }
  }

  /** A list of filters up to the end of the packet is read back filter by filter. */
  lemma {:induction false} FiltersReadBack(form: Form, filters: seq<Subscription>, buf: Bytes, offset: nat,
      done: seq<Subscription>)
    requires FiltersFit(form, filters) && StandsAt(buf, offset, EncodeFilters(form, filters))
    requires offset + |EncodeFilters(form, filters)| == |buf|
    ensures Gives(FiltersFrom(form, buf, offset, done), done + NormalFilters(form, filters), |buf|)
    decreases |filters|
  {
    if filters == [] {
      assert done + [] == done;
    } else {
      var s, rest := filters[0], filters[1..];
      var n, next := NormalFilter(form, s), offset + |EncodeFilter(form, s)|;
      StandsBoth(buf, offset, EncodeFilter(form, s), EncodeFilters(form, rest));
      FilterReadsBack(form, s, buf, offset);
      FiltersFromNext(form, buf, offset, done, n, next);
      FiltersReadBack(form, rest, buf, next, done + [n]);
      OneThenRest(done, n, NormalFilters(form, rest));
    }
  }

  lemma FiltersFromNext(form: Form, buf: Bytes, offset: nat, done: seq<Subscription>, s: Subscription, next: nat)
    requires Gives(DecodeFilter(form, buf, offset), s, next)
    ensures FiltersFrom(form, buf, offset, done) == FiltersFrom(form, buf, next, done + [s])
  {
  }

  lemma OneThenRest(done: seq<Subscription>, s: Subscription, rest: seq<Subscription>)
    ensures done + [s] + rest == done + ([s] + rest)
  {
  }

  // ---------- The packets ----------

  function FormOf(pk: Packet, identifier: int): Form {
    if pk.header.kind == FixedHeaders.Subscribe then WithOptions(pk.version, identifier) else NamesOnly
  }

  /** The identifier a subscription gets: the first one in the properties of its packet. */
  function FirstIdentifier(p: Properties): int {
    if p.subscriptionIdentifier == [] then 0 else p.subscriptionIdentifier[0]
  }

  function FiltersN(pk: Packet): nat {
    2 + |EncodeFilters(FormOf(pk, 0), pk.filters)|
  }

  function FiltersBody(pk: Packet): Bytes {
    EncodeUint16(pk.packetID) + (PropertyPart(pk, FiltersN(pk)) + EncodeFilters(FormOf(pk, 0), pk.filters))
  }

  function DecodeFiltersPacket(pk: Packet, buf: Bytes): Decoded<Packet> {
    var (id, o1) :- DecodeUint16(buf, 0);
    var (props, o2) :- ReadPropertiesIf5(pk.version, pk.header.kind, buf, o1);
    var (filters, o3) :- FiltersFrom(FormOf(pk, FirstIdentifier(props)), buf, o2, []);
    Decoded(pk.(packetID := id, properties := props, filters := filters), o3)
  }

  function NormalFiltersOf(pk: Packet): seq<Subscription> {
    NormalFilters(FormOf(pk, FirstIdentifier(NormalProperties(pk, FiltersN(pk)))), pk.filters)
  }

  /** The identifier does not show on the wire. */
  lemma {:induction false} IdentifierUnseen(pk: Packet, i: int, filters: seq<Subscription>)
    ensures EncodeFilters(FormOf(pk, i), filters) == EncodeFilters(FormOf(pk, 0), filters)
    ensures FiltersFit(FormOf(pk, i), filters) == FiltersFit(FormOf(pk, 0), filters)
    decreases |filters|
  {
    if filters != [] {
      IdentifierUnseen(pk, i, filters[1..]);
    }
  }

  lemma FiltersPacketReads(into: Packet, buf: Bytes, id: uint16, props: Properties, o2: nat,
      filters: seq<Subscription>, o3: nat)
    requires Gives(DecodeUint16(buf, 0), id, 2) && 2 <= |buf|
    requires Gives(ReadPropertiesIf5(into.version, into.header.kind, buf, 2), props, o2)
    requires Gives(FiltersFrom(FormOf(into, FirstIdentifier(props)), buf, o2, []), filters, o3)
    ensures Gives(DecodeFiltersPacket(into, buf), into.(packetID := id, properties := props, filters := filters), o3)
  {
  }

  lemma FiltersPacketReadsBack(pk: Packet, into: Packet)
    requires FiltersFit(FormOf(pk, 0), pk.filters) && PropertiesFit(pk, FiltersN(pk)) && ReadsFor(into, pk)
    ensures Gives(DecodeFiltersPacket(into, FiltersBody(pk)),
                  into.(packetID := pk.packetID, properties := NormalProperties(pk, FiltersN(pk)),
                        filters := NormalFiltersOf(pk)),
                  |FiltersBody(pk)|)
  {
    var props := NormalProperties(pk, FiltersN(pk));
    var o2 := FiltersPieces(pk, FiltersBody(pk), FirstIdentifier(props));
    FiltersPacketReads(into, FiltersBody(pk), pk.packetID, props, o2, NormalFiltersOf(pk), |FiltersBody(pk)|);
  }

  lemma FiltersPieces(pk: Packet, buf: Bytes, i: int) returns (o2: nat)
    requires FiltersFit(FormOf(pk, 0), pk.filters) && PropertiesFit(pk, FiltersN(pk)) && buf == FiltersBody(pk)
    ensures Gives(DecodeUint16(buf, 0), pk.packetID, 2) && 2 <= |buf|
    ensures Gives(ReadPropertiesIf5(pk.version, pk.header.kind, buf, 2), NormalProperties(pk, FiltersN(pk)), o2)
    ensures Gives(FiltersFrom(FormOf(pk, i), buf, o2, []), NormalFilters(FormOf(pk, i), pk.filters), |buf|)
  {
    o2 := FiltersStand(pk, buf);
    Uint16ReadsBack(buf, 0, pk.packetID);
    PropertiesReadBack(pk, FiltersN(pk), buf, 2);
    ListReadsBack(pk, buf, i, o2);
  }

  lemma FiltersStand(pk: Packet, buf: Bytes) returns (o2: nat)
    requires buf == FiltersBody(pk)
    ensures StandsAt(buf, 0, EncodeUint16(pk.packetID)) && StandsAt(buf, 2, PropertyPart(pk, FiltersN(pk)))
    ensures o2 == 2 + |PropertyPart(pk, FiltersN(pk))| && StandsAt(buf, o2, EncodeFilters(FormOf(pk, 0), pk.filters))
    ensures o2 + |EncodeFilters(FormOf(pk, 0), pk.filters)| == |buf|
  {
    o2 := PartsStand(EncodeUint16(pk.packetID), PropertyPart(pk, FiltersN(pk)),
                     EncodeFilters(FormOf(pk, 0), pk.filters), buf);
  }

  lemma PartsStand(id: Bytes, part: Bytes, list: Bytes, buf: Bytes) returns (o2: nat)
    requires buf == id + (part + list)
    ensures StandsAt(buf, 0, id) && StandsAt(buf, |id|, part) && StandsAt(buf, o2, list)
    ensures o2 == |id| + |part| && o2 + |list| == |buf|
  {
    o2 := |id| + |part|;
    ThreeStand(id, part, list);
    assert buf[o2..o2 + |list|] == buf[o2..];
  }

  lemma ListReadsBack(pk: Packet, buf: Bytes, i: int, o2: nat)
    requires FiltersFit(FormOf(pk, 0), pk.filters) && StandsAt(buf, o2, EncodeFilters(FormOf(pk, 0), pk.filters))
    requires o2 + |EncodeFilters(FormOf(pk, 0), pk.filters)| == |buf|
    ensures Gives(FiltersFrom(FormOf(pk, i), buf, o2, []), NormalFilters(FormOf(pk, i), pk.filters), |buf|)
  {
    IdentifierUnseen(pk, i, pk.filters);
    FiltersReadBack(FormOf(pk, i), pk.filters, buf, o2, []);
    assert [] + NormalFilters(FormOf(pk, i), pk.filters) == NormalFilters(FormOf(pk, i), pk.filters);
  }
}
