/**
 The QoS 1 and QoS 2 handshakes of one client session as steps (broker/server.go,
 broker/clients.go, broker/inflight.go; sections 4.3 and 4.9 of MQTT 5.0).

 A session is its in-flight map, shared by inbound and outbound packet ids, its two quotas, and
 the packet id cursor.  Each handler is one atomic step.  What the broker cannot control
 (hook answers, whether a write succeeds, the clock) comes with the event.
 */
module QosSpec {
  import opened Wrappers

  type uint16 = x: int | 0 <= x < 0x1_0000

  datatype Kind = Publish | Puback | Pubrec | Pubrel | Pubcomp

  datatype Packet = Packet(kind: Kind, id: uint16, qos: nat, created: int, expiry: int, protocolVersion: nat)

  datatype Flight = Flight(
    msgs: map<uint16, Packet>,
    receiveQuota: int,
    sendQuota: int,
    maximumReceiveQuota: int,
    maximumSendQuota: int)

  datatype Session = Session(flight: Flight, packetID: uint16)

  datatype Config = Config(
    maximumQos: nat,
    retainAvailable: bool,
    maximumInflight: uint16,
    maximumPacketID: uint16,
    maximumMessageExpiryInterval: int)

  // ---------- The in-flight map and the quotas ----------

  function Put(f: Flight, m: Packet): Flight {
    f.(msgs := f.msgs[m.id := m])
  }

  function Drop(f: Flight, id: uint16): Flight {
    f.(msgs := f.msgs - {id})
  }

  function TakeReceive(f: Flight): Flight {
    if f.receiveQuota > 0 then f.(receiveQuota := f.receiveQuota - 1) else f
  }

  function GiveReceive(f: Flight): Flight {
    if f.receiveQuota < f.maximumReceiveQuota then f.(receiveQuota := f.receiveQuota + 1) else f
  }

  function TakeSend(f: Flight): Flight {
    if f.sendQuota > 0 then f.(sendQuota := f.sendQuota - 1) else f
  }

  function GiveSend(f: Flight): Flight {
    if f.sendQuota < f.maximumSendQuota then f.(sendQuota := f.sendQuota + 1) else f
  }

  /** Quotas stay within their maxima; entries are filed under their own id; only publishes are held. */
  ghost predicate Valid(f: Flight) {
    && 0 <= f.receiveQuota <= f.maximumReceiveQuota
    && 0 <= f.sendQuota <= f.maximumSendQuota
    && (forall id | id in f.msgs :: f.msgs[id].id == id)
    && (forall id | id in f.msgs && f.msgs[id].expiry < 0 :: f.msgs[id].kind == Publish)
  }

  /** An acknowledgement kept in flight, as buildAck makes it. */
  function Ack(kind: Kind, id: uint16, qos: nat, now: int, config: Config): Packet {
    Packet(kind, id, qos, now, now + config.maximumMessageExpiryInterval, 0)
  }

  // ---------- Packet ids ----------

  /** The first id in lo..hi that is not in use. */
  function FirstFree(used: set<uint16>, lo: int, hi: uint16): (r: Option<uint16>)
    requires 1 <= lo
    ensures r.Some? ==> lo <= r.value <= hi && r.value !in used && forall i: uint16 | lo <= i < r.value :: i in used
    ensures r.None? ==> forall i: uint16 | lo <= i <= hi :: i in used
    decreases hi - lo
  {
    if lo > hi then None
    else if lo !in used then Some(lo)
    else FirstFree(used, lo + 1, hi)
  }

  /** The next free id after the cursor, cyclically in 1..maximum. */
  function NextId(used: set<uint16>, cursor: uint16, maximum: uint16): Option<uint16> {
    match FirstFree(used, cursor + 1, maximum)
    case Some(id) => Some(id)
    case None => FirstFree(used, 1, cursor)
  }

  /** There is no next id exactly when all of 1..maximum are in use. */
  lemma NextIdExists(used: set<uint16>, cursor: uint16, maximum: uint16)
    requires cursor <= maximum
    ensures NextId(used, cursor, maximum).None? <==> forall i: uint16 | 1 <= i <= maximum :: i in used
    ensures NextId(used, cursor, maximum).Some? ==>
              1 <= NextId(used, cursor, maximum).value <= maximum && NextId(used, cursor, maximum).value !in used
  {
  }

  /** The next id is the first free one after the cursor, or else from 1 on. */
  lemma NextIdIsFirst(used: set<uint16>, cursor: uint16, maximum: uint16)
    requires cursor <= maximum && NextId(used, cursor, maximum).Some?
    ensures var id := NextId(used, cursor, maximum).value;
            if id > cursor then forall i: uint16 | cursor < i < id :: i in used
            else && (forall i: uint16 | cursor < i <= maximum :: i in used)
                 && (forall i: uint16 | 1 <= i < id :: i in used)
  {
  }

  lemma {:induction false} IdsUpTo(n: uint16) returns (ids: set<uint16>)
    ensures forall i: uint16 :: i in ids <==> 1 <= i <= n
    ensures |ids| == n
  {
    if n == 0 {
      ids := {};
    } else {
      var fewer := IdsUpTo(n - 1);
      ids := fewer + {n};
    }
  }

  /** With fewer entries than ids, one is free: after the in-flight limit check no id allocation fails. */
  lemma FreeIdWhenNotFull(used: set<uint16>, cursor: uint16, maximum: uint16)
    requires cursor <= maximum && |used| < maximum
    ensures NextId(used, cursor, maximum).Some?
  {
    NextIdExists(used, cursor, maximum);
    if NextId(used, cursor, maximum).None? {
      var ids := IdsUpTo(maximum);
      assert ids <= used;
      Smaller(ids, used);
    }
  }

  lemma {:induction false} Smaller<T>(a: set<T>, b: set<T>)
    requires a <= b
    ensures |a| <= |b|
  {
    if a != {} {
      var x :| x in a;
      Smaller(a - {x}, b - {x});
    }
  }

  // ---------- Inbound publish ----------

  datatype HookAnswer = Accept | Reject | Ignore | Refuse | Fail

  /** QoS is a two-bit field and 3 never passes the fixed header decoder. */
  datatype Inbound = Inbound(id: uint16, qos: nat, retain: bool)

  datatype Circumstances = Circumstances(
    inline: bool,        // the built-in client, which bypasses checks
    validTopic: bool,    // IsValidFilter(topic, true)
    aclAllowed: bool,    // OnACLCheck
    version: nat,        // protocol version of the client
    hook: HookAnswer,    // OnPublish
    writeOk: bool,       // whether the acknowledgement is written
    now: int)

  /** The effect of a handler: the session's flight, the change of Info.Inflight, what goes on. */
  datatype Effect = Effect(flight: Flight, info: int, retained: bool, forwarded: bool)

  function Nothing(f: Flight): Effect {
    Effect(f, 0, false, false)
  }

  /** Past the checks: an entry other than PUBREC under the id gives way to the new publish. */
  function ClearSlot(f: Flight, pk: Inbound, inline: bool): Flight {
    if inline then f else Drop(f, pk.id)
  }

  function SlotDelta(f: Flight, pk: Inbound, inline: bool): int {
    if !inline && pk.id in f.msgs then -1 else 0
  }

  predicate ReachesSlot(f: Flight, c: Circumstances) {
    (c.inline || (c.validTopic && c.aclAllowed)) && f.receiveQuota != 0
  }

  predicate PubrecOpen(f: Flight, id: uint16) {
    id in f.msgs && f.msgs[id].kind == Pubrec
  }

  function GrantedQos(pk: Inbound, config: Config): nat {
    if pk.qos > config.maximumQos then config.maximumQos else pk.qos
  }

  /** A v5 client with QoS above 0 is told of a refused publish; any other refusal is ignored. */
  predicate RefusalHeeded(pk: Inbound, c: Circumstances, config: Config) {
    c.hook.Refuse? && c.version == 5 && GrantedQos(pk, config) > 0
  }

  function OnPublish(f: Flight, pk: Inbound, c: Circumstances, config: Config): Effect {
    if !ReachesSlot(f, c) then Nothing(f)
    else if !c.inline && PubrecOpen(f, pk.id) then Nothing(f)
    else
      var cleared, delta := ClearSlot(f, pk, c.inline), SlotDelta(f, pk, c.inline);
      var qos := GrantedQos(pk, config);
      if c.hook.Reject? || RefusalHeeded(pk, c, config) then Effect(cleared, delta, false, false)
      else
        var goesOn := !c.hook.Ignore?;
        var retained := pk.retain && config.retainAvailable && goesOn;
        if qos == 0 || c.inline then Effect(cleared, delta, retained, goesOn)
        else
          var (acked, more) := Acknowledge(cleared, pk.id, qos, c.writeOk, c.now, config);
          Effect(acked, delta + more, retained, goesOn && c.writeOk)
  }

  /**
   The acknowledgement of an accepted publish: kept in flight for QoS 2, and for QoS 1 only when
   it could not be written.  A publish whose acknowledgement fails is not forwarded.
   */
  function Acknowledge(f: Flight, id: uint16, qos: nat, writeOk: bool, now: int, config: Config): (Flight, int) {
    var acked := Put(TakeReceive(f), Ack(if qos == 2 then Pubrec else Puback, id, 0, now, config));
    var added := if id in f.msgs then 0 else 1;
    if writeOk && qos == 1 then (GiveReceive(Drop(acked, id)), added - 1) else (acked, added)
  }

  /** What a publish must pass to be taken at all. */
  predicate Taken(f: Flight, pk: Inbound, c: Circumstances) {
    && f.receiveQuota != 0
    && (c.inline || (c.validTopic && c.aclAllowed && !(pk.id in f.msgs && f.msgs[pk.id].kind.Pubrec?)))
  }

  /** What the hook lets through: an error that is no answer to a version 5 client above QoS 0 does not stop it. */
  predicate HookPasses(pk: Inbound, c: Circumstances, config: Config) {
    && !c.hook.Reject?
    && !(c.hook.Refuse? && c.version == 5 && pk.qos > 0 && config.maximumQos > 0)
  }

  /**
   A publish is forwarded exactly when it passes the checks, no hook stops it or takes it over, and,
   for a network client above QoS 0, its acknowledgement was written.  It is retained exactly when
   it passes the same up to the hook, asks for it, and the broker retains.
   */
  lemma ForwardedExactly(f: Flight, pk: Inbound, c: Circumstances, config: Config)
    ensures var r := OnPublish(f, pk, c, config);
            var passes := Taken(f, pk, c) && HookPasses(pk, c, config) && !c.hook.Ignore?;
            && (r.forwarded <==> passes && (c.inline || pk.qos == 0 || config.maximumQos == 0 || c.writeOk))
            && (r.retained <==> passes && pk.retain && config.retainAvailable)
  {
  }

  /**
   What a publish leaves in flight.  One that is not taken changes nothing.  Otherwise its id is
   free again, unless the handshake of QoS 2 begins, or the acknowledgement of QoS 1 was not
   written; only then it takes receive quota.
   */
  lemma InFlightAfterPublish(f: Flight, pk: Inbound, c: Circumstances, config: Config)
    requires f.receiveQuota <= f.maximumReceiveQuota && pk.qos <= 2
    ensures var g := OnPublish(f, pk, c, config).flight;
            var acknowledged := !c.inline && HookPasses(pk, c, config) && pk.qos > 0 && config.maximumQos > 0;
            var second := pk.qos > 1 && config.maximumQos > 1;
            && g.sendQuota == f.sendQuota
            && (if !Taken(f, pk, c) || c.inline then g == f
                else if acknowledged && (second || !c.writeOk) then
                  && pk.id in g.msgs && g.msgs[pk.id].kind == (if second then Pubrec else Puback)
                  && g.msgs - {pk.id} == f.msgs - {pk.id}
                  && g.receiveQuota == (if f.receiveQuota > 0 then f.receiveQuota - 1 else f.receiveQuota)
                else g.msgs == f.msgs - {pk.id} && (f.receiveQuota >= 0 ==> g.receiveQuota == f.receiveQuota))
  {
    var ack := Ack(if pk.qos > 1 && config.maximumQos > 1 then Pubrec else Puback, pk.id, 0, c.now, config);
    var rest := f.msgs - {pk.id};
    assert rest[pk.id := ack] - {pk.id} == rest;
  }

  // ---------- Acknowledgements ----------

  /** Reason codes the broker takes for a refusal of the handshake. */
  predicate RefusedPubrec(code: nat) {
    code >= 0x80 || code !in {0x00, 0x10, 0x80, 0x83, 0x87, 0x90, 0x91, 0x97, 0x99}
  }

  predicate RefusedPubrel(code: nat) {
    code >= 0x80 || code !in {0x00, 0x92}
  }

  function OnPuback(f: Flight, id: uint16): Effect {
    if id !in f.msgs then Nothing(f) else Effect(GiveSend(Drop(f, id)), -1, false, false)
  }

  function OnPubrec(f: Flight, id: uint16, code: nat, now: int, config: Config): Effect {
    if id !in f.msgs then Nothing(f)
    else if RefusedPubrec(code) then Effect(Drop(f, id), -1, false, false)
    else Effect(Put(TakeReceive(f), Ack(Pubrel, id, 1, now, config)), 0, false, false)
  }

  function OnPubrel(f: Flight, id: uint16, code: nat, writeOk: bool, now: int, config: Config): Effect {
    if id !in f.msgs then Nothing(f)
    else if RefusedPubrel(code) then Effect(Drop(f, id), -1, false, false)
    else if !writeOk then Effect(Put(f, Ack(Pubcomp, id, 0, now, config)), 0, false, false)
    else Effect(Drop(GiveSend(GiveReceive(f)), id), -1, false, false)
  }

  function OnPubcomp(f: Flight, id: uint16): Effect {
    Effect(Drop(GiveSend(GiveReceive(f)), id), if id in f.msgs then -1 else 0, false, false)
  }

  function Less(quota: int): int {
    if quota > 0 then quota - 1 else quota
  }

  function More(quota: int, maximum: int): int {
    if quota < maximum then quota + 1 else quota
  }

  /** A PUBACK frees its id and gives send quota, if the id is in use. */
  lemma PubackExactly(f: Flight, id: uint16)
    ensures OnPuback(f, id).flight ==
            if id in f.msgs then f.(msgs := f.msgs - {id}, sendQuota := More(f.sendQuota, f.maximumSendQuota)) else f
  {
  }

  /** A PUBREC is answered for codes 0x00 and 0x10; any other ends the handshake and gives no quota back. */
  lemma PubrecExactly(f: Flight, id: uint16, code: nat, now: int, config: Config)
    requires id in f.msgs
    ensures var g := OnPubrec(f, id, code, now, config).flight;
            if code == 0x00 || code == 0x10 then
              && id in g.msgs && g.msgs[id].kind == Pubrel && g.msgs - {id} == f.msgs - {id}
              && g == f.(msgs := g.msgs, receiveQuota := Less(f.receiveQuota))
            else g == f.(msgs := f.msgs - {id})
  {
  }

  /** A PUBREL ends the handshake, with quota only for code 0x00; a PUBCOMP that is not written stays. */
  lemma PubrelExactly(f: Flight, id: uint16, code: nat, writeOk: bool, now: int, config: Config)
    requires id in f.msgs
    ensures var g := OnPubrel(f, id, code, writeOk, now, config).flight;
            if code != 0x00 then g == f.(msgs := f.msgs - {id})
            else if !writeOk then
              && id in g.msgs && g.msgs[id].kind == Pubcomp && g.msgs - {id} == f.msgs - {id}
              && g == f.(msgs := g.msgs)
            else
              g == f.(msgs := f.msgs - {id}, receiveQuota := More(f.receiveQuota, f.maximumReceiveQuota),
                      sendQuota := More(f.sendQuota, f.maximumSendQuota))
  {
  }

  // ---------- Release of held messages ----------

  predicate CanRelease(f: Flight, id: uint16) {
    f.sendQuota > 0 && id in f.msgs && f.msgs[id].expiry < 0
  }

  /** After a packet was processed, one held message may go out; its entry goes with it. */
  function Release(f: Flight, id: uint16): Effect {
    if CanRelease(f, id) then Effect(TakeSend(Drop(f, id)), -1, false, false) else Nothing(f)
  }

  /** A message goes out exactly when it is held and there is send quota, which it takes. */
  lemma ReleaseExactly(f: Flight, id: uint16)
    ensures Release(f, id).flight ==
            if f.sendQuota > 0 && id in f.msgs && f.msgs[id].expiry < 0 then
              f.(msgs := f.msgs - {id}, sendQuota := f.sendQuota - 1)
            else f
  {
  }

  // ---------- Outbound delivery ----------

  datatype Outbound = Outbound(
    skipped: bool,     // NoLocal, or refused by the access check
    qos: nat,          // already reduced to the subscription's and the server's maximum
    created: int,
    expiry: int,
    protocolVersion: nat,
    connected: bool,
    queueHasRoom: bool)

  datatype Delivery = Skipped | QuotaExceeded | Held(id: uint16) | Disconnected | Dropped | Queued(id: uint16)

  datatype Delivered = Delivered(session: Session, info: int, result: Delivery)

  function PublishToClient(s: Session, out: Outbound, config: Config): Delivered {
    var f := s.flight;
    if out.skipped then Delivered(s, 0, Skipped)
    else if out.qos == 0 then
      Delivered(s, 0, if !out.connected then Disconnected else if out.queueHasRoom then Queued(0) else Dropped)
    else if |f.msgs| >= config.maximumInflight then Delivered(s, 0, QuotaExceeded)
    else
      match NextId(f.msgs.Keys, s.packetID, config.maximumPacketID)
      case None => Delivered(s, 0, QuotaExceeded)
      case Some(id) =>
        var pk := Packet(Publish, id, out.qos, out.created, out.expiry, out.protocolVersion);
        var taken := TakeSend(Put(f, pk));
        if f.sendQuota == 0 && f.maximumSendQuota > 0 then
          Delivered(Session(Put(taken, pk.(expiry := -1)), id), 1, Held(id))
        else if !out.connected then Delivered(Session(taken, id), 1, Disconnected)
        else if out.queueHasRoom then Delivered(Session(taken, id), 1, Queued(id))
        else Delivered(Session(GiveSend(Drop(taken, id)), id), 1, Dropped)
  }

  /** g has one more entry than f, at an id that was free. */
  ghost predicate AddedOne(f: Flight, g: Flight, id: uint16) {
    id !in f.msgs && id in g.msgs && g.msgs[id].kind == Publish && g.msgs - {id} == f.msgs
  }

  lemma PutThenDrop<K, V>(m: map<K, V>, k: K, v: V, w: V)
    requires k !in m
    ensures m[k := v] - {k} == m
    ensures m[k := v][k := w] - {k} == m
  {
  }

  /**
   A delivery with QoS above 0 either adds exactly one entry, at an id that was free, or leaves
   the flight as it was.  When the client's queue is full, the map and the send quota are restored
   exactly; only Info.Inflight keeps the count.
   */
  lemma DeliveryAddsOneOrNothing(s: Session, out: Outbound, config: Config)
    requires Valid(s.flight) && !out.skipped && out.qos > 0
    ensures var d := PublishToClient(s, out, config);
            match d.result
            case Skipped => false
            case QuotaExceeded => d.session == s && d.info == 0
            case Dropped => d.session.flight == s.flight && d.info == 1
            case _ => AddedOne(s.flight, d.session.flight, d.session.packetID) && d.info == 1
  {
    var f := s.flight;
    if |f.msgs| < config.maximumInflight {
      match NextId(f.msgs.Keys, s.packetID, config.maximumPacketID)
      case None =>
      case Some(id) =>
        var pk := Packet(Publish, id, out.qos, out.created, out.expiry, out.protocolVersion);
        PutThenDrop(f.msgs, id, pk, pk.(expiry := -1));
    }
  }

  /** The in-flight limit is at most 65535, so a delivery is never refused for want of a packet id. */
  lemma DeliveryFindsId(s: Session, out: Outbound, config: Config)
    requires Valid(s.flight) && s.packetID <= config.maximumPacketID == 0xFFFF
    requires !out.skipped && out.qos > 0
    ensures PublishToClient(s, out, config).result.QuotaExceeded? <==> |s.flight.msgs| >= config.maximumInflight
  {
    if |s.flight.msgs| < config.maximumInflight {
      assert |s.flight.msgs.Keys| == |s.flight.msgs|;
      FreeIdWhenNotFull(s.flight.msgs.Keys, s.packetID, config.maximumPacketID);
    }
  }

  /** The answer to a delivery above QoS 0 within the in-flight limit: held, not connected, queued, or dropped. */
  predicate Answers(result: Delivery, f: Flight, out: Outbound) {
    var held := f.sendQuota == 0 && f.maximumSendQuota > 0;
    && (result.Held? <==> held)
    && (result.Disconnected? <==> !held && !out.connected)
    && (result.Queued? <==> !held && out.connected && out.queueHasRoom)
    && (result.Dropped? <==> !held && out.connected && !out.queueHasRoom)
  }

  /** What is kept in flight for a delivery: only a held one is marked, and each takes send quota if there is some. */
  predicate KeepsDelivery(f: Flight, g: Flight, id: uint16, out: Outbound, held: bool) {
    && id in g.msgs && id !in f.msgs && g.msgs - {id} == f.msgs
    && g.msgs[id] == Packet(Publish, id, out.qos, out.created, if held then -1 else out.expiry, out.protocolVersion)
    && g == f.(msgs := g.msgs, sendQuota := Less(f.sendQuota))
  }

  /** When a delivery is answered how, and what each answer leaves in flight. */
  lemma DeliveryExactly(s: Session, out: Outbound, config: Config)
    requires Valid(s.flight) && s.packetID <= config.maximumPacketID == 0xFFFF
    ensures var d := PublishToClient(s, out, config);
            var f, g := s.flight, d.session.flight;
            if out.skipped then d.result == Skipped && d.session == s
            else if out.qos == 0 then
              && d.session == s
              && d.result == if !out.connected then Disconnected else if out.queueHasRoom then Queued(0) else Dropped
            else if |f.msgs| >= config.maximumInflight then d.result == QuotaExceeded && d.session == s
            else
              && Answers(d.result, f, out)
              && NextId(f.msgs.Keys, s.packetID, config.maximumPacketID) == Some(d.session.packetID)
              && (d.result.Held? || d.result.Queued? ==> d.result.id == d.session.packetID)
              && if d.result.Dropped? then g == f
                 else KeepsDelivery(f, g, d.session.packetID, out, d.result.Held?)
  {
    if !out.skipped && out.qos > 0 {
      DeliveryFindsId(s, out, config);
      DeliveryAddsOneOrNothing(s, out, config);
    }
  }

  // ---------- Session upkeep ----------

  /** Resending drops the written PUBACK and PUBCOMP entries; a failed write stops it. */
  predicate Finished(m: Packet) {
    m.kind == Puback || m.kind == Pubcomp
  }

  function FinishedIds(f: Flight, written: set<uint16>): set<uint16> {
    set id | id in f.msgs && id in written && Finished(f.msgs[id])
  }

  function DropAll(f: Flight, ids: set<uint16>): Flight {
    f.(msgs := f.msgs - ids)
  }

  function Resend(f: Flight, written: set<uint16>): Effect {
    Effect(DropAll(f, FinishedIds(f, written)), -|FinishedIds(f, written)|, false, false)
  }

  function Clear(f: Flight): Effect {
    Effect(f.(msgs := map[]), -|f.msgs|, false, false)
  }

  predicate ExpiredMessage(m: Packet, now: int, maximumExpiry: int) {
    || (m.protocolVersion == 5 && 0 < m.expiry < now)
    || (maximumExpiry > 0 && now - m.created > maximumExpiry)
  }

  function ExpiredIds(f: Flight, ids: set<uint16>, now: int, config: Config): set<uint16> {
    set id | id in f.msgs && id in ids && ExpiredMessage(f.msgs[id], now, config.maximumMessageExpiryInterval)
  }

  function Expire(f: Flight, now: int, config: Config): Effect {
    var gone := ExpiredIds(f, f.msgs.Keys, now, config);
    Effect(DropAll(f, gone), -|gone|, false, false)
  }

  lemma FinishedMore(f: Flight, written: set<uint16>, id: uint16)
    requires id in f.msgs && id !in written
    ensures var done := FinishedIds(f, written);
            && id !in done
            && FinishedIds(f, written + {id}) == (if Finished(f.msgs[id]) then done + {id} else done)
            && DropAll(f, done + {id}) == Drop(DropAll(f, done), id)
  {
    var done := FinishedIds(f, written);
    assert f.msgs - (done + {id}) == (f.msgs - done) - {id};
  }

  lemma ExpiredMore(f: Flight, ids: set<uint16>, id: uint16, now: int, config: Config)
    requires id in f.msgs && id !in ids
    ensures var gone := ExpiredIds(f, ids, now, config);
            && id !in gone
            && ExpiredIds(f, ids + {id}, now, config) ==
               (if ExpiredMessage(f.msgs[id], now, config.maximumMessageExpiryInterval) then gone + {id} else gone)
            && DropAll(f, gone + {id}) == Drop(DropAll(f, gone), id)
  {
    var gone := ExpiredIds(f, ids, now, config);
    assert f.msgs - (gone + {id}) == (f.msgs - gone) - {id};
  }

  /** Resending is done with exactly the PUBACK and PUBCOMP entries that were written. */
  lemma ResendExactly(f: Flight, written: set<uint16>, id: uint16)
    ensures var g := Resend(f, written).flight;
            && (id in g.msgs <==>
                id in f.msgs && !(id in written && (f.msgs[id].kind.Puback? || f.msgs[id].kind.Pubcomp?)))
            && (id in g.msgs ==> g.msgs[id] == f.msgs[id])
  {
  }

  /** A sweep keeps exactly the entries that are not past their own expiry, nor past the broker's maximum age. */
  lemma ExpireExactly(f: Flight, now: int, config: Config, id: uint16)
    ensures var g, max := Expire(f, now, config).flight, config.maximumMessageExpiryInterval;
            && (id in g.msgs <==>
                && id in f.msgs
                && (f.msgs[id].protocolVersion != 5 || f.msgs[id].expiry <= 0 || now <= f.msgs[id].expiry)
                && (max <= 0 || now <= f.msgs[id].created + max))
            && (id in g.msgs ==> g.msgs[id] == f.msgs[id])
  {
  }

  // ---------- Runs of one session ----------

  datatype Event =
    | PublishIn(pk: Inbound, c: Circumstances)
    | PubackIn(id: uint16)
    | PubrecIn(id: uint16, code: nat, now: int)
    | PubrelIn(id: uint16, code: nat, writeOk: bool, now: int)
    | PubcompIn(id: uint16)
    | ReleaseHeld(id: uint16)
    | Deliver(out: Outbound)
    | ResendAll(written: set<uint16>)
    | ClearAll
    | ExpireAll(now: int)

  function StepEffect(s: Session, e: Event, config: Config): (Session, Effect) {
    var f := s.flight;
    match e
    case PublishIn(pk, c) => (s, OnPublish(f, pk, c, config))
    case PubackIn(id) => (s, OnPuback(f, id))
    case PubrecIn(id, code, now) => (s, OnPubrec(f, id, code, now, config))
    case PubrelIn(id, code, writeOk, now) => (s, OnPubrel(f, id, code, writeOk, now, config))
    case PubcompIn(id) => (s, OnPubcomp(f, id))
    case ReleaseHeld(id) => (s, Release(f, id))
    case Deliver(out) =>
      var d := PublishToClient(s, out, config);
      (d.session, Effect(d.session.flight, d.info, false, false))
    case ResendAll(written) => (s, Resend(f, written))
    case ClearAll => (s, Clear(f))
    case ExpireAll(now) => (s, Expire(f, now, config))
  }

  function Step(s: Session, e: Event, config: Config): Session {
    var r := StepEffect(s, e, config);
    r.0.(flight := r.1.flight)
  }

  /** Events happen after the epoch, and retention intervals are not negative. */
  predicate Timely(e: Event, config: Config) {
    match e
    case PublishIn(_, c) => c.now + config.maximumMessageExpiryInterval >= 0
    case PubrecIn(_, _, now) => now + config.maximumMessageExpiryInterval >= 0
    case PubrelIn(_, _, _, now) => now + config.maximumMessageExpiryInterval >= 0
    case _ => true
  }

  /** Every event keeps the quotas within their maxima and the map well filed. */
  lemma StepKeepsValid(s: Session, e: Event, config: Config)
    requires Valid(s.flight) && Timely(e, config)
    ensures Valid(Step(s, e, config).flight)
    ensures SameMaxima(s.flight, Step(s, e, config).flight)
  {
    match e
    case PublishIn(pk, c) => PublishKeepsValid(s.flight, pk, c, config);
    case Deliver(out) => DeliverKeepsValid(s, out, config);
    case PubackIn(id) =>
    case PubrecIn(id, code, now) =>
    case PubrelIn(id, code, writeOk, now) =>
    case PubcompIn(id) =>
    case ReleaseHeld(id) =>
    case ResendAll(written) =>
    case ClearAll =>
    case ExpireAll(now) =>
  }

  predicate SameMaxima(f: Flight, g: Flight) {
    g.maximumReceiveQuota == f.maximumReceiveQuota && g.maximumSendQuota == f.maximumSendQuota
  }

  lemma PublishKeepsValid(f: Flight, pk: Inbound, c: Circumstances, config: Config)
    requires Valid(f) && c.now + config.maximumMessageExpiryInterval >= 0
    ensures Valid(OnPublish(f, pk, c, config).flight) && SameMaxima(f, OnPublish(f, pk, c, config).flight)
  {
  }

  lemma DeliverKeepsValid(s: Session, out: Outbound, config: Config)
    requires Valid(s.flight)
    ensures Valid(PublishToClient(s, out, config).session.flight)
    ensures SameMaxima(s.flight, PublishToClient(s, out, config).session.flight)
  {
  }

  // ---------- Info.Inflight ----------

  lemma SizeOfPut(f: Flight, m: Packet)
    ensures |Put(f, m).msgs| == |f.msgs| + if m.id in f.msgs then 0 else 1
  {
    if m.id in f.msgs {
      assert f.msgs[m.id := m].Keys == f.msgs.Keys;
      assert |f.msgs[m.id := m]| == |f.msgs[m.id := m].Keys| == |f.msgs.Keys|;
    }
  }

  lemma SizeOfDrop(f: Flight, id: uint16)
    ensures |Drop(f, id).msgs| == |f.msgs| - if id in f.msgs then 1 else 0
  {
    if id !in f.msgs {
      assert f.msgs - {id} == f.msgs;
    } else {
      SizeOfDropAll(f.msgs, {id});
    }
  }

  lemma SizeOfDropAll(m: map<uint16, Packet>, ids: set<uint16>)
    requires ids <= m.Keys
    ensures |m - ids| == |m| - |ids|
  {
    assert (m - ids).Keys == m.Keys - ids;
    assert |m - ids| == |(m - ids).Keys| && |m| == |m.Keys|;
  }

  /**
   Every event changes Info.Inflight by as much as it changes the size of the in-flight map, but
   for a QoS delivery dropped on a full queue: it leaves the map alone and counts one more.
   */
  lemma StepConservesInfo(s: Session, e: Event, config: Config)
    requires Valid(s.flight)
    ensures var r := StepEffect(s, e, config).1;
            r.info == |r.flight.msgs| - |s.flight.msgs| + RolledBack(s, e, config)
  {
    match e
    case PublishIn(pk, c) => PublishConservesInfo(s.flight, pk, c, config);
    case Deliver(out) => DeliverConservesInfo(s, out, config);
    case PubackIn(_) => AcksConserveInfo(s, e, config);
    case PubrecIn(_, _, _) => AcksConserveInfo(s, e, config);
    case PubrelIn(_, _, _, _) => AcksConserveInfo(s, e, config);
    case PubcompIn(_) => AcksConserveInfo(s, e, config);
    case ReleaseHeld(id) => SizeOfDrop(s.flight, id);
    case _ => UpkeepConservesInfo(s, e, config);
  }

  lemma AcksConserveInfo(s: Session, e: Event, config: Config)
    requires e.PubackIn? || e.PubrecIn? || e.PubrelIn? || e.PubcompIn?
    ensures var r := StepEffect(s, e, config).1;
            r.info == |r.flight.msgs| - |s.flight.msgs|
  {
    var f := s.flight;
    match e
    case PubackIn(id) => SizeOfDrop(f, id);
    case PubrecIn(id, code, now) => PubrecConservesInfo(f, id, code, now, config);
    case PubrelIn(id, code, writeOk, now) => PubrelConservesInfo(f, id, code, writeOk, now, config);
    case PubcompIn(id) => SizeOfDrop(f, id);
  }

  lemma PubrecConservesInfo(f: Flight, id: uint16, code: nat, now: int, config: Config)
    ensures var r := OnPubrec(f, id, code, now, config);
            r.info == |r.flight.msgs| - |f.msgs|
  {
    SizeOfDrop(f, id);
    SizeOfPut(TakeReceive(f), Ack(Pubrel, id, 1, now, config));
  }

  lemma PubrelConservesInfo(f: Flight, id: uint16, code: nat, writeOk: bool, now: int, config: Config)
    ensures var r := OnPubrel(f, id, code, writeOk, now, config);
            r.info == |r.flight.msgs| - |f.msgs|
  {
    SizeOfDrop(f, id);
    SizeOfPut(f, Ack(Pubcomp, id, 0, now, config));
  }

  lemma UpkeepConservesInfo(s: Session, e: Event, config: Config)
    requires e.ResendAll? || e.ClearAll? || e.ExpireAll?
    ensures var r := StepEffect(s, e, config).1;
            r.info == |r.flight.msgs| - |s.flight.msgs|
  {
    var f := s.flight;
    match e
    case ResendAll(written) =>
      SizeOfDropAll(f.msgs, FinishedIds(f, written));
    case ExpireAll(now) =>
      SizeOfDropAll(f.msgs, ExpiredIds(f, f.msgs.Keys, now, config));
    case _ =>
  }

  /** 1 for a delivery whose in-flight entry was rolled back. */
  function RolledBack(s: Session, e: Event, config: Config): int {
    if e.Deliver? && !e.out.skipped && e.out.qos > 0 && PublishToClient(s, e.out, config).result.Dropped? then 1 else 0
  }

  lemma PublishConservesInfo(f: Flight, pk: Inbound, c: Circumstances, config: Config)
    ensures var r := OnPublish(f, pk, c, config);
            r.info == |r.flight.msgs| - |f.msgs|
  {
    if ReachesSlot(f, c) && (c.inline || !PubrecOpen(f, pk.id)) {
      ClearSlotConservesInfo(f, pk, c.inline);
      var cleared, qos := ClearSlot(f, pk, c.inline), GrantedQos(pk, config);
      if !(c.hook.Reject? || RefusalHeeded(pk, c, config) || qos == 0 || c.inline) {
        AcknowledgeConservesInfo(cleared, pk.id, qos, c.writeOk, c.now, config);
      }
    }
  }

  lemma ClearSlotConservesInfo(f: Flight, pk: Inbound, inline: bool)
    ensures SlotDelta(f, pk, inline) == |ClearSlot(f, pk, inline).msgs| - |f.msgs|
  {
    SizeOfDrop(f, pk.id);
  }

  lemma AcknowledgeConservesInfo(f: Flight, id: uint16, qos: nat, writeOk: bool, now: int, config: Config)
    ensures var r := Acknowledge(f, id, qos, writeOk, now, config);
            r.1 == |r.0.msgs| - |f.msgs|
  {
    var ack := Ack(if qos == 2 then Pubrec else Puback, id, 0, now, config);
    SizeOfPut(TakeReceive(f), ack);
    SizeOfDrop(Put(TakeReceive(f), ack), id);
  }

  lemma DeliverConservesInfo(s: Session, out: Outbound, config: Config)
    requires Valid(s.flight)
    ensures var d := PublishToClient(s, out, config);
            d.info == |d.session.flight.msgs| - |s.flight.msgs| + RolledBack(s, Deliver(out), config)
  {
    if !out.skipped && out.qos > 0 {
      DeliveryAddsOneOrNothing(s, out, config);
      var d := PublishToClient(s, out, config);
      if AddedOne(s.flight, d.session.flight, d.session.packetID) {
        SizeOfDrop(d.session.flight, d.session.packetID);
      }
    }
  }

  // ---------- QoS 2, exactly once ----------

  /** An acknowledgement packet for p, a clear, or an expiry sweep: all that can end a handshake. */
  predicate EndsHandshake(e: Event, p: uint16) {
    match e
    case PubackIn(id) => id == p
    case PubrecIn(id, _, _) => id == p
    case PubrelIn(id, _, _, _) => id == p
    case PubcompIn(id) => id == p
    case ClearAll => true
    case ExpireAll(_) => true
    case _ => false
  }

  /** The event forwards or retains an inbound publish with id p. */
  predicate Forwards(s: Session, e: Event, config: Config, p: uint16) {
    var r := StepEffect(s, e, config).1;
    e.PublishIn? && !e.c.inline && e.pk.id == p && (r.forwarded || r.retained)
  }

  /** The event gives id p to an outbound delivery. */
  predicate Allocates(s: Session, e: Event, config: Config, p: uint16) {
    e.Deliver? && match PublishToClient(s, e.out, config).result
                  case Held(id) => id == p
                  case Queued(id) => e.out.qos > 0 && id == p
                  case Disconnected => !e.out.skipped && e.out.qos > 0
                                       && PublishToClient(s, e.out, config).session.packetID == p
                  case _ => false
  }

  lemma PubrecSurvivesStep(s: Session, e: Event, config: Config, p: uint16)
    requires Valid(s.flight) && PubrecOpen(s.flight, p) && !EndsHandshake(e, p)
    requires e.PublishIn? ==> !e.c.inline
    ensures var t := Step(s, e, config).flight;
            PubrecOpen(t, p) && t.msgs[p] == s.flight.msgs[p]
    ensures !Forwards(s, e, config, p) && !Allocates(s, e, config, p)
  {
    match e
    case PublishIn(pk, c) =>
    case Deliver(out) =>
      if !out.skipped && out.qos > 0 {
        DeliveryAddsOneOrNothing(s, out, config);
        var d := PublishToClient(s, out, config);
        var f, g, id := s.flight, d.session.flight, d.session.packetID;
        if AddedOne(f, g, id) {
          assert p in g.msgs - {id} && (g.msgs - {id})[p] == f.msgs[p];
        }
      }
    case _ =>
  }

  function Run(s: Session, events: seq<Event>, config: Config): Session
    decreases |events|
  {
    if events == [] then s else Run(Step(s, events[0], config), events[1..], config)
  }

  /** How often a run forwards or retains an inbound publish with id p. */
  function ForwardCount(s: Session, events: seq<Event>, config: Config, p: uint16): nat
    decreases |events|
  {
    if events == [] then 0
    else
      (if Forwards(s, events[0], config, p) then 1 else 0)
      + ForwardCount(Step(s, events[0], config), events[1..], config, p)
  }

  function AllocationCount(s: Session, events: seq<Event>, config: Config, p: uint16): nat
    decreases |events|
  {
    if events == [] then 0
    else
      (if Allocates(s, events[0], config, p) then 1 else 0)
      + AllocationCount(Step(s, events[0], config), events[1..], config, p)
  }

  /** Events of a network client that leave the handshake of p open. */
  predicate LeavesOpen(events: seq<Event>, config: Config, p: uint16) {
    forall e | e in events :: !EndsHandshake(e, p) && Timely(e, config) && (e.PublishIn? ==> !e.c.inline)
  }

  /**
   While a PUBREC for p is in flight, no run forwards or retains a publish with id p, and none
   gives p to an outbound delivery; the entry stays as it was.
   */
  lemma {:induction false} OpenHandshakeForwardsNothing(s: Session, events: seq<Event>, config: Config, p: uint16)
    requires Valid(s.flight) && PubrecOpen(s.flight, p) && LeavesOpen(events, config, p)
    ensures ForwardCount(s, events, config, p) == 0 && AllocationCount(s, events, config, p) == 0
    ensures PubrecOpen(Run(s, events, config).flight, p)
    ensures Run(s, events, config).flight.msgs[p] == s.flight.msgs[p]
    decreases |events|
  {
    if events != [] {
      var e := events[0];
      assert e in events && forall x | x in events[1..] :: x in events;
      PubrecSurvivesStep(s, e, config, p);
      StepKeepsValid(s, e, config);
      OpenHandshakeForwardsNothing(Step(s, e, config), events[1..], config, p);
    }
  }

  /**
   A QoS 2 publish that opens its handshake is forwarded exactly once until the handshake ends,
   however often the client repeats it: at once if the PUBREC was written and no hook took the
   publish over, and never otherwise.
   */
  lemma QosTwoForwardedOnce(s: Session, pk: Inbound, c: Circumstances, events: seq<Event>, config: Config)
    requires Valid(s.flight) && !c.inline && c.now + config.maximumMessageExpiryInterval >= 0
    requires ReachesSlot(s.flight, c) && !PubrecOpen(s.flight, pk.id) && GrantedQos(pk, config) == 2
    requires !c.hook.Reject? && !RefusalHeeded(pk, c, config)
    requires LeavesOpen(events, config, pk.id)
    ensures var first := PublishIn(pk, c);
            var goesOn := c.writeOk && !c.hook.Ignore?;
            && OnPublish(s.flight, pk, c, config).forwarded == goesOn
            && PubrecOpen(Step(s, first, config).flight, pk.id)
            && ForwardCount(Step(s, first, config), events, config, pk.id) == 0
  {
    PublishKeepsValid(s.flight, pk, c, config);
    OpenHandshakeForwardsNothing(Step(s, PublishIn(pk, c), config), events, config, pk.id);
  }

  // ---------- Receive quota ----------

  predicate IsOpen(m: Packet) {
    m.kind == Pubrec || m.kind == Pubrel
  }

  /** The handshakes that hold receive quota. */
  function OpenIds(f: Flight): set<uint16> {
    set id | id in f.msgs && IsOpen(f.msgs[id])
  }

  predicate OpenAt(f: Flight, id: uint16) {
    id in f.msgs && IsOpen(f.msgs[id])
  }

  /** Quota is missing only for handshakes that are open. */
  ghost predicate QuotaCovered(f: Flight) {
    f.maximumReceiveQuota - f.receiveQuota <= |OpenIds(f)|
  }

  ghost predicate QuotaTight(f: Flight) {
    f.maximumReceiveQuota - f.receiveQuota == |OpenIds(f)|
  }

  lemma OpenAfterPut(f: Flight, m: Packet)
    ensures |OpenIds(Put(f, m))| == |OpenIds(f)| + (if IsOpen(m) then 1 else 0) - (if OpenAt(f, m.id) then 1 else 0)
  {
    var g := Put(f, m);
    if IsOpen(m) {
      assert OpenIds(g) == OpenIds(f) + {m.id};
    } else {
      assert OpenIds(g) == OpenIds(f) - {m.id};
    }
  }

  lemma OpenAfterDrop(f: Flight, id: uint16)
    ensures |OpenIds(Drop(f, id))| == |OpenIds(f)| - if OpenAt(f, id) then 1 else 0
  {
    assert OpenIds(Drop(f, id)) == OpenIds(f) - {id};
  }

  lemma OpenIgnoresQuotas(f: Flight, g: Flight)
    requires f.msgs == g.msgs
    ensures OpenIds(f) == OpenIds(g)
  {
  }

  /**
   What a compliant peer and connection do: publishes do not reuse the id of an open outbound
   handshake and QoS 1 acknowledgements get written; acknowledgements come in the right state;
   PUBREL is accepted and answered; nothing open is cleared or expired.
   */
  predicate Compliant(s: Session, e: Event, config: Config) {
    var f := s.flight;
    match e
    case PublishIn(pk, c) =>
      c.inline || !ReachesSlot(f, c)
      || (!(pk.id in f.msgs && f.msgs[pk.id].kind == Pubrel)
          && (PubrecOpen(f, pk.id) || c.hook.Reject? || RefusalHeeded(pk, c, config) || GrantedQos(pk, config) != 1
              || c.writeOk))
    case PubackIn(id) => !OpenAt(f, id)
    case PubrecIn(id, code, _) => !OpenAt(f, id) || (!RefusedPubrec(code) && f.receiveQuota == 0)
    case PubrelIn(id, code, writeOk, _) => !OpenAt(f, id) || (!RefusedPubrel(code) && writeOk)
    case ClearAll => OpenIds(f) == {}
    case ExpireAll(now) =>
      forall id | id in f.msgs && IsOpen(f.msgs[id]) ::
        !ExpiredMessage(f.msgs[id], now, config.maximumMessageExpiryInterval)
    case _ => true
  }

  lemma QuotaStepAck(s: Session, e: Event, config: Config)
    requires Valid(s.flight) && QuotaCovered(s.flight)
    requires e.PubackIn? || e.PubrecIn? || e.PubrelIn? || e.PubcompIn? || e.ReleaseHeld?
    ensures Compliant(s, e, config) ==> QuotaCovered(Step(s, e, config).flight)
    ensures QuotaTight(s.flight) && !Compliant(s, e, config) ==> !QuotaCovered(Step(s, e, config).flight)
  {
    var f, g := s.flight, Step(s, e, config).flight;
    OpenAfterDrop(f, e.id);
    OpenIgnoresQuotas(Drop(f, e.id), Drop(TakeReceive(f), e.id));
    match e
    case PubackIn(id) =>
      OpenIgnoresQuotas(GiveSend(Drop(f, id)), Drop(f, id));
    case PubrecIn(id, code, now) =>
      var ack := Ack(Pubrel, id, 1, now, config);
      OpenAfterPut(f, ack);
      OpenIgnoresQuotas(Put(TakeReceive(f), ack), Put(f, ack));
    case PubrelIn(id, code, writeOk, now) =>
      OpenAfterPut(f, Ack(Pubcomp, id, 0, now, config));
      OpenIgnoresQuotas(Drop(GiveSend(GiveReceive(f)), id), Drop(f, id));
    case PubcompIn(id) =>
      OpenIgnoresQuotas(Drop(GiveSend(GiveReceive(f)), id), Drop(f, id));
    case ReleaseHeld(id) =>
      OpenIgnoresQuotas(TakeSend(Drop(f, id)), Drop(f, id));
  }

  lemma QuotaStepPublish(f: Flight, pk: Inbound, c: Circumstances, config: Config)
    requires Valid(f) && QuotaCovered(f) && config.maximumQos <= 2
    requires ReachesSlot(f, c) && !c.inline && !PubrecOpen(f, pk.id)
    ensures var g := OnPublish(f, pk, c, config).flight;
            var compliant := !OpenAt(f, pk.id)
                             && (c.hook.Reject? || RefusalHeeded(pk, c, config) || GrantedQos(pk, config) != 1
                                 || c.writeOk);
            (compliant ==> QuotaCovered(g)) && (QuotaTight(f) && !compliant ==> !QuotaCovered(g))
  {
    var cleared, qos := Drop(f, pk.id), GrantedQos(pk, config);
    OpenAfterDrop(f, pk.id);
    if !c.hook.Reject? && !RefusalHeeded(pk, c, config) && qos > 0 {
      QuotaAcknowledge(cleared, pk.id, qos, c.writeOk, c.now, config);
    }
  }

  lemma QuotaAcknowledge(f: Flight, id: uint16, qos: nat, writeOk: bool, now: int, config: Config)
    requires f.receiveQuota > 0 && f.receiveQuota <= f.maximumReceiveQuota && !OpenAt(f, id) && 1 <= qos <= 2
    ensures var g := Acknowledge(f, id, qos, writeOk, now, config).0;
            && g.maximumReceiveQuota == f.maximumReceiveQuota
            && |OpenIds(g)| == |OpenIds(f)| + (if qos == 2 then 1 else 0)
            && g.receiveQuota == f.receiveQuota - (if qos == 2 || !writeOk then 1 else 0)
  {
    var ack := Ack(if qos == 2 then Pubrec else Puback, id, 0, now, config);
    var acked := Put(TakeReceive(f), ack);
    OpenAfterPut(f, ack);
    OpenIgnoresQuotas(acked, Put(f, ack));
    OpenAfterDrop(acked, id);
    OpenIgnoresQuotas(GiveReceive(Drop(acked, id)), Drop(acked, id));
  }

  lemma QuotaStepDeliver(s: Session, out: Outbound, config: Config)
    requires Valid(s.flight)
    ensures var g := PublishToClient(s, out, config).session.flight;
            OpenIds(g) == OpenIds(s.flight) && g.receiveQuota == s.flight.receiveQuota
            && g.maximumReceiveQuota == s.flight.maximumReceiveQuota
  {
    if !out.skipped && out.qos > 0 {
      DeliveryAddsOneOrNothing(s, out, config);
      var d := PublishToClient(s, out, config);
      var f, g, id := s.flight, d.session.flight, d.session.packetID;
      if AddedOne(f, g, id) {
        assert forall k | k in f.msgs :: k in g.msgs - {id} && (g.msgs - {id})[k] == g.msgs[k];
        assert forall k | k in g.msgs && k != id :: k in g.msgs - {id};
      }
    }
  }

  lemma QuotaStepUpkeep(s: Session, e: Event, config: Config)
    requires Valid(s.flight) && QuotaCovered(s.flight) && (e.ResendAll? || e.ClearAll? || e.ExpireAll?)
    ensures Compliant(s, e, config) ==> QuotaCovered(Step(s, e, config).flight)
    ensures QuotaTight(s.flight) && !Compliant(s, e, config) ==> !QuotaCovered(Step(s, e, config).flight)
  {
    var f, g := s.flight, Step(s, e, config).flight;
    assert OpenIds(g) <= OpenIds(f);
    match e
    case ResendAll(written) => assert OpenIds(g) == OpenIds(f);
    case ClearAll => assert OpenIds(g) == {};
    case ExpireAll(now) =>
      if Compliant(s, e, config) {
        assert OpenIds(g) == OpenIds(f);
      } else {
        var id :| id in f.msgs && IsOpen(f.msgs[id])
          && ExpiredMessage(f.msgs[id], now, config.maximumMessageExpiryInterval);
        assert id in OpenIds(f) && id !in OpenIds(g);
        Smaller(OpenIds(g), OpenIds(f) - {id});
      }
  }

  /**
   One event keeps "missing quota is covered by open handshakes" if it is compliant; where the
   cover is tight it keeps it only then.
   */
  lemma QuotaStep(s: Session, e: Event, config: Config)
    requires Valid(s.flight) && QuotaCovered(s.flight) && config.maximumQos <= 2
    ensures Compliant(s, e, config) ==> QuotaCovered(Step(s, e, config).flight)
    ensures QuotaTight(s.flight) ==> (QuotaCovered(Step(s, e, config).flight) <==> Compliant(s, e, config))
  {
    match e
    case PublishIn(pk, c) =>
      if ReachesSlot(s.flight, c) && !c.inline && !PubrecOpen(s.flight, pk.id) {
        QuotaStepPublish(s.flight, pk, c, config);
      }
    case Deliver(out) => QuotaStepDeliver(s, out, config);
    case ResendAll(_) => QuotaStepUpkeep(s, e, config);
    case ClearAll => QuotaStepUpkeep(s, e, config);
    case ExpireAll(_) => QuotaStepUpkeep(s, e, config);
    case _ => QuotaStepAck(s, e, config);
  }

  predicate CompliantRun(s: Session, events: seq<Event>, config: Config)
    decreases |events|
  {
    events == []
    || (Timely(events[0], config) && Compliant(s, events[0], config)
        && CompliantRun(Step(s, events[0], config), events[1..], config))
  }

  /**
   Over every compliant run from a fresh session, quota is missing only for open handshakes; so
   the broker disconnects a client for exceeding Receive Maximum only while that many are open.
   */
  lemma {:induction false} ReceiveMaximumNeedsOpenHandshakes(s: Session, events: seq<Event>, config: Config)
    requires Valid(s.flight) && QuotaCovered(s.flight) && config.maximumQos <= 2
    requires CompliantRun(s, events, config)
    ensures var f := Run(s, events, config).flight;
            && Valid(f) && QuotaCovered(f)
            && f.maximumReceiveQuota == s.flight.maximumReceiveQuota
            && (f.receiveQuota == 0 ==> |OpenIds(f)| >= f.maximumReceiveQuota)
    decreases |events|
  {
    if events != [] {
      QuotaStep(s, events[0], config);
      StepKeepsValid(s, events[0], config);
      ReceiveMaximumNeedsOpenHandshakes(Step(s, events[0], config), events[1..], config);
    }
  }

  // ---------- Complete handshakes ----------

  /** PUBLISH, PUBACK: a QoS 1 delivery that was queued and acknowledged leaves no trace. */
  lemma OutboundQosOneRoundTrip(s: Session, out: Outbound, config: Config)
    requires Valid(s.flight) && !out.skipped && out.qos == 1
    requires PublishToClient(s, out, config).result.Queued?
    ensures var d := PublishToClient(s, out, config);
            OnPuback(d.session.flight, d.result.id).flight == s.flight
  {
    var f, id := s.flight, PublishToClient(s, out, config).result.id;
    var pk := Packet(Publish, id, out.qos, out.created, out.expiry, out.protocolVersion);
    PutThenDrop(f.msgs, id, pk, pk);
  }

  /**
   PUBLISH, PUBREC, PUBCOMP: a QoS 2 delivery leaves no trace either, unless the receive quota was
   used up: answering PUBREC takes receive quota only if there is some, but PUBCOMP always gives it.
   */
  lemma OutboundQosTwoRoundTrip(s: Session, out: Outbound, now: int, config: Config)
    requires Valid(s.flight) && !out.skipped && out.qos == 2
    requires PublishToClient(s, out, config).result.Queued?
    ensures var d := PublishToClient(s, out, config);
            var released := OnPubrec(d.session.flight, d.result.id, 0, now, config).flight;
            OnPubcomp(released, d.result.id).flight == s.flight
            <==> s.flight.receiveQuota > 0 || s.flight.maximumReceiveQuota == 0
  {
    var f, id := s.flight, PublishToClient(s, out, config).result.id;
    var pk := Packet(Publish, id, out.qos, out.created, out.expiry, out.protocolVersion);
    PutThenDrop(f.msgs, id, pk, Ack(Pubrel, id, 1, now, config));
  }

  /**
   PUBLISH, PUBREL: a completed inbound QoS 2 publish restores everything but the send quota, which
   it raises though nothing had taken it.
   */
  lemma InboundQosTwoRoundTrip(f: Flight, pk: Inbound, c: Circumstances, later: int, config: Config)
    requires Valid(f) && ReachesSlot(f, c) && !c.inline && pk.id !in f.msgs && c.writeOk
    requires !c.hook.Reject? && !RefusalHeeded(pk, c, config) && GrantedQos(pk, config) == 2
    ensures var received := OnPublish(f, pk, c, config).flight;
            OnPubrel(received, pk.id, 0, true, later, config).flight == GiveSend(f)
  {
    PutThenDrop(f.msgs, pk.id, Ack(Pubrec, pk.id, 0, c.now, config), Ack(Pubrec, pk.id, 0, c.now, config));
    assert f.msgs - {pk.id} == f.msgs;
  }
}
