/**
 The broker's in-flight state and QoS handlers as they change it in place (broker/inflight.go,
 broker/clients.go, broker/server.go), proved to take the steps of QosSpec.

 A method is one atomic step: the Go quota updates are check-then-add on atomics, so this is an
 assumption of the model.
 */
module QosServer {
  import opened Wrappers
  import opened QosSpec

  class Inflight {
    var internal: map<uint16, Packet>
    var receiveQuota: int
    var sendQuota: int
    var maximumReceiveQuota: int
    var maximumSendQuota: int

    constructor ()
      ensures View() == Flight(map[], 0, 0, 0, 0)
    {
      internal := map[];
      receiveQuota, sendQuota, maximumReceiveQuota, maximumSendQuota := 0, 0, 0, 0;
    }

    ghost function View(): Flight
      reads this
    {
      Flight(internal, receiveQuota, sendQuota, maximumReceiveQuota, maximumSendQuota)
    }

    /** Adds or replaces an entry; true when its id was free. */
    method Set(m: Packet) returns (isNew: bool)
      modifies this
      ensures View() == Put(old(View()), m) && (isNew <==> m.id !in old(internal))
    {
      isNew := m.id !in internal;
      internal := internal[m.id := m];
    }

    /** Removes an entry; true when there was one. */
    method Delete(id: uint16) returns (ok: bool)
      modifies this
      ensures View() == Drop(old(View()), id) && (ok <==> id in old(internal))
    {
      ok := id in internal;
      internal := internal - {id};
    }

    /** A copy of the entries, without the quotas, for the session that takes over. */
    method Clone() returns (c: Inflight)
      ensures fresh(c) && c.View() == Flight(internal, 0, 0, 0, 0)
    {
      c := new Inflight();
      c.internal := internal;
    }

    /**
     The entry marked to be sent as soon as there is quota, if there is one; of several, one with
     the least creation time in sixteen bits, as the list of them is sorted.
     */
    method NextImmediate() returns (next: Option<Packet>)
      ensures next.Some? ==> exists id :: id in internal && internal[id] == next.value && next.value.expiry < 0
      ensures next.Some? ==>
                forall id | id in internal && internal[id].expiry < 0 ::
                  next.value.created % 0x1_0000 <= internal[id].created % 0x1_0000
      ensures next.None? ==> forall id | id in internal :: internal[id].expiry >= 0
    {
      next := None;
      var todo := internal.Keys;
      while todo != {}
        invariant todo <= internal.Keys
        invariant next.Some? ==> exists id :: id in internal && internal[id] == next.value && next.value.expiry < 0
        invariant forall id | id in internal && id !in todo && internal[id].expiry < 0 ::
                    next.Some? && next.value.created % 0x1_0000 <= internal[id].created % 0x1_0000
      {
        var id :| id in todo;
        var m := internal[id];
        todo := todo - {id};
        if m.expiry < 0 && (next.None? || m.created % 0x1_0000 < next.value.created % 0x1_0000) {
          next := Some(m);
        }
      }
    }

    method DecreaseReceiveQuota()
      modifies this
      ensures View() == TakeReceive(old(View()))
    {
      if receiveQuota > 0 {
        receiveQuota := receiveQuota - 1;
      }
    }

    method IncreaseReceiveQuota()
      modifies this
      ensures View() == GiveReceive(old(View()))
    {
      if receiveQuota < maximumReceiveQuota {
        receiveQuota := receiveQuota + 1;
      }
    }

    method DecreaseSendQuota()
      modifies this
      ensures View() == TakeSend(old(View()))
    {
      if sendQuota > 0 {
        sendQuota := sendQuota - 1;
      }
    }

    method IncreaseSendQuota()
      modifies this
      ensures View() == GiveSend(old(View()))
    {
      if sendQuota < maximumSendQuota {
        sendQuota := sendQuota + 1;
      }
    }

    method ResetReceiveQuota(n: int)
      modifies this
      ensures View() == old(View()).(receiveQuota := n, maximumReceiveQuota := n)
    {
      receiveQuota, maximumReceiveQuota := n, n;
    }

    method ResetSendQuota(n: int)
      modifies this
      ensures View() == old(View()).(sendQuota := n, maximumSendQuota := n)
    {
      sendQuota, maximumSendQuota := n, n;
    }
  }

  class Client {
    var inflight: Inflight
    var packetID: uint16

    constructor ()
      ensures fresh(inflight) && View() == Session(Flight(map[], 0, 0, 0, 0), 0)
    {
      inflight := new Inflight();
      packetID := 0;
    }

    ghost function View(): Session
      reads this, inflight
    {
      Session(inflight.View(), packetID)
    }

    /**
     The next free packet id after the cursor, cyclically; none when all are in use.  Terminates
     because the cursor is within the maximum.
     */
    method NextPacketID(maximumPacketID: uint16) returns (r: Option<uint16>)
      requires packetID <= maximumPacketID
      modifies this`packetID
      ensures r == NextId(inflight.internal.Keys, old(packetID), maximumPacketID)
      ensures packetID == if r.Some? then r.value else old(packetID)
    {
      var i: int := packetID;
      var started := i;
      var overflowed := false;
      ghost var used := inflight.internal.Keys;
      while true
        invariant 0 <= i <= maximumPacketID && started == old(packetID) == packetID
        invariant used == inflight.internal.Keys
        invariant !overflowed ==> started <= i && NextFreeFrom(used, started + 1, i + 1, maximumPacketID)
        invariant overflowed ==> i <= started && FirstFree(used, started + 1, maximumPacketID).None?
        invariant overflowed ==> NextFreeFrom(used, 1, i + 1, started)
        decreases !overflowed, maximumPacketID - i
      {
        if overflowed && i == started {
          return None;
        }
        if i >= maximumPacketID {
          overflowed := true;
          i := 0;
          continue;
        }
        i := i + 1;
        if i !in inflight.internal {
          packetID := i;
          return Some(i);
        }
      }
    }
  }

  /** The search for a free id in lo..hi may go on from `from`. */
  ghost predicate NextFreeFrom(used: set<uint16>, lo: int, from: int, hi: uint16)
    requires 1 <= lo <= from
  {
    FirstFree(used, lo, hi) == FirstFree(used, from, hi)
  }

  class Server {
    const config: Config
    var infoInflight: int  // Info.Inflight

    constructor (config: Config)
      ensures this.config == config && infoInflight == 0
    {
      this.config := config;
      infoInflight := 0;
    }

    method DropFrom(cl: Client, id: uint16) returns (ok: bool)
      modifies `infoInflight, cl.inflight
      ensures cl.inflight.View() == Drop(old(cl.inflight.View()), id)
      ensures ok <==> id in old(cl.inflight.internal)
      ensures infoInflight == old(infoInflight) - if ok then 1 else 0
    {
      ok := cl.inflight.Delete(id);
      if ok {
        infoInflight := infoInflight - 1;
      }
    }

    /** Handles an inbound publish; says whether it was retained and forwarded to subscribers. */
    method ProcessPublish(cl: Client, pk: Inbound, c: Circumstances) returns (retained: bool, forwarded: bool)
      modifies `infoInflight, cl.inflight
      ensures var r := OnPublish(old(cl.inflight.View()), pk, c, config);
              cl.inflight.View() == r.flight && infoInflight == old(infoInflight) + r.info
              && retained == r.retained && forwarded == r.forwarded
    {
      retained, forwarded := false, false;
      if !c.inline && !c.validTopic {
        return;
      }
      if cl.inflight.receiveQuota == 0 {
        return;  // disconnects: receive maximum exceeded
      }
      if !c.inline && !c.aclAllowed {
        return;  // disconnects, or acknowledges with "not authorized"
      }
      if !c.inline {
        if pk.id in cl.inflight.internal {
          if cl.inflight.internal[pk.id].kind == Pubrec {
            return;  // acknowledges with "packet identifier in use"
          }
        }
        var _ := DropFrom(cl, pk.id);
      }
      var qos := if pk.qos > config.maximumQos then config.maximumQos else pk.qos;
      var ignore := false;
      match c.hook {
        case Reject => return;
        case Ignore => ignore := true;
        case Refuse =>
          if c.version == 5 && qos > 0 {
            return;  // acknowledges with the hook's code
          }
        case _ =>
      }
      retained := pk.retain && config.retainAvailable && !ignore;
      if qos == 0 || c.inline {
        forwarded := !ignore;
        return;
      }
      SendAck(cl, pk.id, qos, c);
      forwarded := !ignore && c.writeOk;
    }

    /** Acknowledges an accepted publish with PUBACK or PUBREC. */
    method SendAck(cl: Client, id: uint16, qos: nat, c: Circumstances)
      modifies `infoInflight, cl.inflight
      ensures var r := Acknowledge(old(cl.inflight.View()), id, qos, c.writeOk, c.now, config);
              cl.inflight.View() == r.0 && infoInflight == old(infoInflight) + r.1
    {
      cl.inflight.DecreaseReceiveQuota();
      var ack := Ack(Puback, id, 0, c.now, config);
      if qos == 2 {
        ack := Ack(Pubrec, id, 0, c.now, config);
      }
      var isNew := cl.inflight.Set(ack);
      if isNew {
        infoInflight := infoInflight + 1;
      }
      if !c.writeOk {
        return;
      }
      if qos == 1 {
        var _ := DropFrom(cl, id);
        cl.inflight.IncreaseReceiveQuota();
      }
    }

    method ProcessPuback(cl: Client, id: uint16)
      modifies `infoInflight, cl.inflight
      ensures var r := OnPuback(old(cl.inflight.View()), id);
              cl.inflight.View() == r.flight && infoInflight == old(infoInflight) + r.info
    {
      if id !in cl.inflight.internal {
        return;
      }
      var ok := cl.inflight.Delete(id);
      if ok {
        cl.inflight.IncreaseSendQuota();
        infoInflight := infoInflight - 1;
      }
    }

    method ProcessPubrec(cl: Client, id: uint16, code: nat, now: int)
      modifies `infoInflight, cl.inflight
      ensures var r := OnPubrec(old(cl.inflight.View()), id, code, now, config);
              cl.inflight.View() == r.flight && infoInflight == old(infoInflight) + r.info
    {
      if id !in cl.inflight.internal {
        return;  // answers PUBREL with "packet identifier not found"
      }
      if RefusedPubrec(code) {
        var _ := DropFrom(cl, id);
        return;
      }
      cl.inflight.DecreaseReceiveQuota();
      var _ := cl.inflight.Set(Ack(Pubrel, id, 1, now, config));
    }

    method ProcessPubrel(cl: Client, id: uint16, code: nat, writeOk: bool, now: int)
      modifies `infoInflight, cl.inflight
      ensures var r := OnPubrel(old(cl.inflight.View()), id, code, writeOk, now, config);
              cl.inflight.View() == r.flight && infoInflight == old(infoInflight) + r.info
    {
      if id !in cl.inflight.internal {
        return;  // answers PUBCOMP with "packet identifier not found"
      }
      if RefusedPubrel(code) {
        var _ := DropFrom(cl, id);
        return;
      }
      var _ := cl.inflight.Set(Ack(Pubcomp, id, 0, now, config));
      if !writeOk {
        return;
      }
      cl.inflight.IncreaseReceiveQuota();
      cl.inflight.IncreaseSendQuota();
      var _ := DropFrom(cl, id);
      assert cl.inflight.internal == old(cl.inflight.internal) - {id};
    }

    method ProcessPubcomp(cl: Client, id: uint16)
      modifies `infoInflight, cl.inflight
      ensures var r := OnPubcomp(old(cl.inflight.View()), id);
              cl.inflight.View() == r.flight && infoInflight == old(infoInflight) + r.info
    {
      cl.inflight.IncreaseReceiveQuota();
      cl.inflight.IncreaseSendQuota();
      var _ := DropFrom(cl, id);
    }

    /** The end of processPacket: with send quota left, one held message is sent and forgotten. */
    method ReleaseNext(cl: Client) returns (released: Option<uint16>)
      requires QosSpec.Valid(cl.inflight.View())
      modifies `infoInflight, cl.inflight
      ensures released.None? ==>
                cl.inflight.View() == old(cl.inflight.View()) && infoInflight == old(infoInflight)
                && forall id :: !CanRelease(old(cl.inflight.View()), id)
      ensures released.Some? ==>
                && CanRelease(old(cl.inflight.View()), released.value)
                && (forall id | CanRelease(old(cl.inflight.View()), id) ::
                      old(cl.inflight.internal)[released.value].created % 0x1_0000
                      <= old(cl.inflight.internal)[id].created % 0x1_0000)
                && cl.inflight.View() == Release(old(cl.inflight.View()), released.value).flight
                && infoInflight == old(infoInflight) - 1
    {
      released := None;
      if |cl.inflight.internal| > 0 && cl.inflight.sendQuota > 0 {
        var next := cl.inflight.NextImmediate();
        if next.Some? {
          released := Some(next.value.id);
          var _ := DropFrom(cl, next.value.id);
          cl.inflight.DecreaseSendQuota();
        }
      } else if |cl.inflight.internal| == 0 {
        assert cl.inflight.internal == map[];
      }
    }

    /** Delivers a message to one client. */
    method PublishToClient(cl: Client, out: Outbound) returns (result: Delivery)
      requires cl.packetID <= config.maximumPacketID
      modifies `infoInflight, cl`packetID, cl.inflight
      ensures var d := QosSpec.PublishToClient(old(cl.View()), out, config);
              cl.View() == d.session && infoInflight == old(infoInflight) + d.info && result == d.result
    {
      if out.skipped {
        return Skipped;
      }
      var id: uint16 := 0;
      if out.qos > 0 {
        if |cl.inflight.internal| >= config.maximumInflight {
          return QuotaExceeded;
        }
        var i := cl.NextPacketID(config.maximumPacketID);
        if i.None? {
          return QuotaExceeded;
        }
        id := i.value;
        var pk := Packet(Publish, id, out.qos, out.created, out.expiry, out.protocolVersion);
        var sentQuota := cl.inflight.sendQuota;
        var isNew := cl.inflight.Set(pk);
        if isNew {
          infoInflight := infoInflight + 1;
          cl.inflight.DecreaseSendQuota();
        }
        if sentQuota == 0 && cl.inflight.maximumSendQuota > 0 {
          pk := pk.(expiry := -1);
          var _ := cl.inflight.Set(pk);
          return Held(id);
        }
      }
      if !out.connected {
        return Disconnected;
      }
      if out.queueHasRoom {
        return Queued(id);
      }
      if out.qos > 0 {
        var _ := cl.inflight.Delete(id);  // Info.Inflight is left as it is
        cl.inflight.IncreaseSendQuota();
      }
      return Dropped;
    }

    /**
     Resends what is in flight, in any order, until a write fails; written PUBACK and PUBCOMP
     entries are done with.
     */
    method ResendInflightMessages(cl: Client, failing: set<uint16>) returns (ghost written: set<uint16>, failed: bool)
      modifies `infoInflight, cl.inflight
      ensures written !! failing && (!failed ==> written == old(cl.inflight.internal).Keys)
      ensures var r := Resend(old(cl.inflight.View()), written);
              cl.inflight.View() == r.flight && infoInflight == old(infoInflight) + r.info
    {
      ghost var f := cl.inflight.View();
      var todo := cl.inflight.internal.Keys;
      written, failed := {}, false;
      assert f.msgs - {} == f.msgs;
      while todo != {}
        invariant written + todo == f.msgs.Keys && written !! todo && written !! failing
        invariant cl.inflight.View() == DropAll(f, FinishedIds(f, written))
        invariant infoInflight == old(infoInflight) - |FinishedIds(f, written)|
      {
        var id :| id in todo;
        var tk := cl.inflight.internal[id];
        if id in failing {
          failed := true;
          return;
        }
        FinishedMore(f, written, id);
        todo := todo - {id};
        written := written + {id};
        if tk.kind == Puback || tk.kind == Pubcomp {
          var _ := DropFrom(cl, id);
        }
      }
    }

    /** Deletes everything in flight, one entry at a time. */
    method ClearInflights(cl: Client)
      modifies `infoInflight, cl.inflight
      ensures var r := Clear(old(cl.inflight.View()));
              cl.inflight.View() == r.flight && infoInflight == old(infoInflight) + r.info
    {
      ghost var f := cl.inflight.View();
      var todo := cl.inflight.internal.Keys;
      while todo != {}
        invariant cl.inflight.internal.Keys == todo
        invariant cl.inflight.View() == f.(msgs := cl.inflight.internal)
        invariant infoInflight - |todo| == old(infoInflight) - |f.msgs.Keys|
      {
        var id :| id in todo;
        var _ := DropFrom(cl, id);
        todo := todo - {id};
      }
      assert cl.inflight.internal == map[];
    }

    /** Deletes expired entries. */
    method ClearExpiredInflights(cl: Client, now: int) returns (deleted: set<uint16>)
      modifies `infoInflight, cl.inflight
      ensures var r := Expire(old(cl.inflight.View()), now, config);
              cl.inflight.View() == r.flight && infoInflight == old(infoInflight) + r.info
      ensures deleted == old(cl.inflight.internal).Keys - cl.inflight.internal.Keys
    {
      ghost var f := cl.inflight.View();
      var todo := cl.inflight.internal.Keys;
      deleted := {};
      ghost var seen: set<uint16> := {};
      assert f.msgs - {} == f.msgs;
      while todo != {}
        invariant seen + todo == f.msgs.Keys && seen !! todo
        invariant deleted == ExpiredIds(f, seen, now, config)
        invariant cl.inflight.View() == DropAll(f, deleted)
        invariant infoInflight == old(infoInflight) - |deleted|
      {
        var id :| id in todo;
        var tk := cl.inflight.internal[id];
        ExpiredMore(f, seen, id, now, config);
        todo := todo - {id};
        seen := seen + {id};
        var expired := tk.protocolVersion == 5 && tk.expiry > 0 && tk.expiry < now;
        var enforced := config.maximumMessageExpiryInterval > 0
          && now - tk.created > config.maximumMessageExpiryInterval;
        if expired || enforced {
          var _ := DropFrom(cl, id);
          deleted := deleted + {id};
        }
      }
      assert seen == f.msgs.Keys;
    }

    /**
     The in-flight part of a session takeover.  Unless the session starts clean, the new client
     gets a copy of what was in flight; the old client's entries are deleted either way, and
     counted down in Info.Inflight though their copies live on.
     */
    method InheritInflights(existing: Client, cl: Client, clean: bool, serverReceiveMaximum: nat,
        clientReceiveMaximum: nat)
      requires existing != cl && existing.inflight != cl.inflight
      modifies `infoInflight, existing.inflight, cl`inflight
      ensures existing.inflight.View() == Clear(old(existing.inflight.View())).flight
      ensures infoInflight == old(infoInflight) - |old(existing.inflight.internal)|
      ensures clean || old(existing.inflight.internal) == map[] ==>
                cl.inflight == old(cl.inflight) && cl.inflight.View() == old(cl.inflight.View())
      ensures !clean && old(existing.inflight.internal) != map[] ==>
                cl.inflight.View() ==
                TakenOver(old(existing.inflight.internal), serverReceiveMaximum, clientReceiveMaximum)
      ensures !clean && old(existing.inflight.internal) != map[] ==>
                && cl.inflight.internal == old(existing.inflight.internal)
                && (serverReceiveMaximum > 0 ==>
                      && cl.inflight.receiveQuota == cl.inflight.maximumReceiveQuota == serverReceiveMaximum
                      && cl.inflight.sendQuota == cl.inflight.maximumSendQuota == clientReceiveMaximum)
    {
      if clean {
        ClearInflights(existing);
        return;
      }
      if |existing.inflight.internal| > 0 {
        cl.inflight := existing.inflight.Clone();
        if cl.inflight.maximumReceiveQuota == 0 && serverReceiveMaximum != 0 {
          cl.inflight.ResetReceiveQuota(serverReceiveMaximum);
          cl.inflight.ResetSendQuota(clientReceiveMaximum);
        }
      } else {
        assert existing.inflight.internal == map[];
      }
      ClearInflights(existing);
    }
  }

  /** The inherited in-flight state: the entries, with full quotas unless the server's maximum is 0. */
  function TakenOver(msgs: map<uint16, Packet>, serverReceiveMaximum: nat, clientReceiveMaximum: nat): Flight {
    if serverReceiveMaximum != 0 then
      Flight(msgs, serverReceiveMaximum, clientReceiveMaximum, serverReceiveMaximum, clientReceiveMaximum)
    else Flight(msgs, 0, 0, 0, 0)
  }
}
