/**
 All sessions of the broker: what every run of handlers, releases, clears, sweeps, takeovers, ends
 and expiries keeps of Info.Inflight and of open QoS 2 handshakes (broker/server.go).
 */
module Broker {
  import opened QosSpec
  import QosServer

  datatype BrokerState = BrokerState(sessions: map<string, Session>, info: int)

  /**
   An event at one session, a connection that takes a session over, the end of a connection that
   ends its session, the expiry of a session, or a connection of a client that had none.
   */
  datatype BrokerEvent =
    | At(client: string, event: Event)
    | TakeOver(client: string, clean: bool, serverReceiveMaximum: nat, clientReceiveMaximum: nat)
    | End(client: string)
    | Expire(client: string)
    | Connect(client: string, session: Session)

  function Size(s: Session): nat {
    |s.flight.msgs|
  }

  /** The number of in-flight entries of all sessions. */
  ghost function Total(sessions: map<string, Session>): nat {
    if sessions == map[] then 0
    else
      var client :| client in sessions;
      Size(sessions[client]) + Total(sessions - {client})
  }

  lemma {:induction false} TotalWithout(sessions: map<string, Session>, client: string)
    requires client in sessions
    ensures Total(sessions) == Size(sessions[client]) + Total(sessions - {client})
    decreases |sessions|
  {
    var first :| first in sessions && Total(sessions) == Size(sessions[first]) + Total(sessions - {first});
    if first != client {
      var rest, without := sessions - {first}, sessions - {client};
      TotalWithout(rest, client);
      TotalWithout(without, first);
      assert rest - {client} == without - {first};
    }
  }

  lemma TotalUpdate(sessions: map<string, Session>, client: string, s: Session)
    ensures Total(sessions[client := s]) ==
            Total(sessions) - (if client in sessions then Size(sessions[client]) else 0) + Size(s)
  {
    var after := sessions[client := s];
    TotalWithout(after, client);
    assert after - {client} == sessions - {client};
    if client in sessions {
      TotalWithout(sessions, client);
    } else {
      assert sessions - {client} == sessions;
    }
  }

  /** The session that takes over: clean, or with a copy of what was in flight. */
  function Successor(s: Session, e: BrokerEvent): Session
    requires e.TakeOver?
  {
    if e.clean || s.flight.msgs == map[] then
      Session(Flight(map[], e.serverReceiveMaximum, e.clientReceiveMaximum,
                     e.serverReceiveMaximum, e.clientReceiveMaximum), 0)
    else Session(QosServer.TakenOver(s.flight.msgs, e.serverReceiveMaximum, e.clientReceiveMaximum), 0)
  }

  /** The send quota is what the client can take, the receive quota what the server can. */
  lemma SuccessorExactly(s: Session, e: BrokerEvent)
    requires e.TakeOver? && e.serverReceiveMaximum > 0
    ensures var f := Successor(s, e).flight;
            && f.msgs == (if e.clean then map[] else s.flight.msgs)
            && f.receiveQuota == f.maximumReceiveQuota == e.serverReceiveMaximum
            && f.sendQuota == f.maximumSendQuota == e.clientReceiveMaximum
  {
  }

  function Step(b: BrokerState, e: BrokerEvent, config: Config): BrokerState {
    match e
    case At(client, event) =>
      if client !in b.sessions then b
      else
        var s := b.sessions[client];
        BrokerState(b.sessions[client := QosSpec.Step(s, event, config)], b.info + StepEffect(s, event, config).1.info)
    case TakeOver(client, _, _, _) =>
      if client !in b.sessions then b
      else
        var s := b.sessions[client];
        BrokerState(b.sessions[client := Successor(s, e)], b.info - Size(s))
    case End(client) =>
      if client !in b.sessions then b
      else BrokerState(b.sessions - {client}, b.info - Size(b.sessions[client]))
    case Expire(client) => b.(sessions := b.sessions - {client})  // deletes the client, but counts nothing down
    case Connect(client, session) =>
      if client in b.sessions || session.flight.msgs != map[] then b
      else b.(sessions := b.sessions[client := session])
  }

  /** How far one event moves Info.Inflight away from the number of entries. */
  function Shift(b: BrokerState, e: BrokerEvent, config: Config): int {
    match e
    case At(client, event) => if client in b.sessions then RolledBack(b.sessions[client], event, config) as int else 0
    case TakeOver(client, clean, _, _) => if client in b.sessions && !clean then 0 - Size(b.sessions[client]) else 0
    case End(_) => 0
    case Expire(client) => if client in b.sessions then Size(b.sessions[client]) else 0
    case Connect(_, _) => 0
  }

  ghost predicate AllValid(b: BrokerState) {
    forall client | client in b.sessions :: Valid(b.sessions[client].flight)
  }

  ghost predicate WellTimed(e: BrokerEvent, config: Config) {
    match e
    case At(_, event) => Timely(event, config)
    case Connect(_, session) => Valid(session.flight)
    case _ => true
  }

  ghost predicate Conserves(b: BrokerState, e: BrokerEvent, config: Config) {
    var after := Step(b, e, config);
    && AllValid(after)
    && after.info - Total(after.sessions) == b.info - Total(b.sessions) + Shift(b, e, config)
  }

  lemma EventConserves(b: BrokerState, client: string, event: Event, config: Config)
    requires AllValid(b) && Timely(event, config)
    ensures Conserves(b, At(client, event), config)
  {
    if client in b.sessions {
      var s := b.sessions[client];
      StepConservesInfo(s, event, config);
      StepKeepsValid(s, event, config);
      TotalUpdate(b.sessions, client, QosSpec.Step(s, event, config));
    }
  }

  lemma SuccessorSize(s: Session, e: BrokerEvent)
    requires e.TakeOver? && Valid(s.flight)
    ensures Valid(Successor(s, e).flight)
    ensures Size(Successor(s, e)) == if e.clean then 0 else Size(s)
  {
    assert e.clean || s.flight.msgs != map[] || s.flight.msgs.Keys == {};
  }

  lemma TakeOverConserves(b: BrokerState, e: BrokerEvent, config: Config)
    requires AllValid(b) && e.TakeOver?
    ensures Conserves(b, e, config)
  {
    if e.client in b.sessions {
      var s := b.sessions[e.client];
      SuccessorSize(s, e);
      TotalUpdate(b.sessions, e.client, Successor(s, e));
    }
  }

  /** The end of a session counts its entries down; its expiry leaves them counted for good. */
  lemma RemovalConserves(b: BrokerState, e: BrokerEvent, config: Config)
    requires AllValid(b) && (e.End? || e.Expire?)
    ensures Conserves(b, e, config)
  {
    if e.client in b.sessions {
      TotalWithout(b.sessions, e.client);
    } else {
      assert b.sessions - {e.client} == b.sessions;
    }
  }

  lemma ConnectConserves(b: BrokerState, client: string, session: Session, config: Config)
    requires AllValid(b) && Valid(session.flight)
    ensures Conserves(b, Connect(client, session), config)
  {
    TotalUpdate(b.sessions, client, session);
  }

  lemma StepConserves(b: BrokerState, e: BrokerEvent, config: Config)
    requires AllValid(b) && WellTimed(e, config)
    ensures Conserves(b, e, config)
  {
    match e
    case At(client, event) => EventConserves(b, client, event, config);
    case TakeOver(_, _, _, _) => TakeOverConserves(b, e, config);
    case Connect(client, session) => ConnectConserves(b, client, session, config);
    case _ => RemovalConserves(b, e, config);
  }

  function Run(b: BrokerState, events: seq<BrokerEvent>, config: Config): BrokerState
    decreases |events|
  {
    if events == [] then b else Run(Step(b, events[0], config), events[1..], config)
  }

  function TotalShift(b: BrokerState, events: seq<BrokerEvent>, config: Config): int
    decreases |events|
  {
    if events == [] then 0
    else Shift(b, events[0], config) + TotalShift(Step(b, events[0], config), events[1..], config)
  }

  /**
   Over every run, Info.Inflight differs from the number of entries in flight by exactly the
   deliveries rolled back on a full queue and the entries that sessions still held when they
   expired, less the entries copied by takeovers.
   */
  lemma {:induction false} InfoInflightDrift(b: BrokerState, events: seq<BrokerEvent>, config: Config)
    requires AllValid(b) && forall e | e in events :: WellTimed(e, config)
    ensures var after := Run(b, events, config);
            after.info - Total(after.sessions) == b.info - Total(b.sessions) + TotalShift(b, events, config)
    decreases |events|
  {
    if events != [] {
      assert events[0] in events && forall e | e in events[1..] :: e in events;
      StepConserves(b, events[0], config);
      InfoInflightDrift(Step(b, events[0], config), events[1..], config);
    }
  }

  // ---------- QoS 2 handshakes across connections ----------

  /** The handshake of p is open at a client. */
  ghost predicate OpenAt(b: BrokerState, client: string, p: uint16) {
    client in b.sessions && PubrecOpen(b.sessions[client].flight, p)
  }

  /** The event can end the handshake of p at a client: it ends it, or ends or replaces the session. */
  predicate EndsAt(e: BrokerEvent, client: string, p: uint16) {
    e.client == client &&
    match e
    case At(_, event) => EndsHandshake(event, p) || (event.PublishIn? && event.c.inline)
    case TakeOver(_, clean, _, _) => clean
    case End(_) => true
    case Expire(_) => true
    case Connect(_, _) => false
  }

  /** The event forwards or retains a publish of the client with id p, or gives p to a delivery to it. */
  predicate UsesId(b: BrokerState, e: BrokerEvent, client: string, p: uint16, config: Config) {
    && e.At? && e.client == client && client in b.sessions
    && (Forwards(b.sessions[client], e.event, config, p) || Allocates(b.sessions[client], e.event, config, p))
  }

  function Uses(b: BrokerState, events: seq<BrokerEvent>, client: string, p: uint16, config: Config): nat
    decreases |events|
  {
    if events == [] then 0
    else
      (if UsesId(b, events[0], client, p, config) then 1 else 0)
      + Uses(Step(b, events[0], config), events[1..], client, p, config)
  }

  lemma HandshakeSurvivesStep(b: BrokerState, e: BrokerEvent, client: string, p: uint16, config: Config)
    requires AllValid(b) && OpenAt(b, client, p) && !EndsAt(e, client, p)
    ensures OpenAt(Step(b, e, config), client, p) && !UsesId(b, e, client, p, config)
    ensures Step(b, e, config).sessions[client].flight.msgs[p] == b.sessions[client].flight.msgs[p]
  {
    if e.At? && e.client == client {
      PubrecSurvivesStep(b.sessions[client], e.event, config, p);
    }
  }

  /**
   While a PUBREC for p is in flight at a client, no run of the whole broker forwards or retains a
   publish of that client with id p, or gives p to a delivery, through any number of takeovers that
   are not clean; the entry stays as it was.
   */
  lemma {:induction false} OpenHandshakeOutlivesConnections(b: BrokerState, events: seq<BrokerEvent>, client: string,
      p: uint16, config: Config)
    requires AllValid(b) && OpenAt(b, client, p)
    requires forall e | e in events :: WellTimed(e, config) && !EndsAt(e, client, p)
    ensures Uses(b, events, client, p, config) == 0
    ensures OpenAt(Run(b, events, config), client, p)
    ensures Run(b, events, config).sessions[client].flight.msgs[p] == b.sessions[client].flight.msgs[p]
    decreases |events|
  {
    if events != [] {
      var e := events[0];
      assert e in events && forall x | x in events[1..] :: x in events;
      HandshakeSurvivesStep(b, e, client, p, config);
      StepConserves(b, e, config);
      OpenHandshakeOutlivesConnections(Step(b, e, config), events[1..], client, p, config);
    }
  }

  /**
   A QoS 2 publish that opens its handshake is forwarded exactly once however often the client
   reconnects and repeats it: at once if the PUBREC was written and no hook took the publish over,
   and never otherwise.
   */
  lemma ForwardedOnceAcrossConnections(b: BrokerState, client: string, pk: Inbound, c: Circumstances,
      events: seq<BrokerEvent>, config: Config)
    requires AllValid(b) && client in b.sessions
    requires !c.inline && c.now + config.maximumMessageExpiryInterval >= 0
    requires var f := b.sessions[client].flight; ReachesSlot(f, c) && !PubrecOpen(f, pk.id)
    requires GrantedQos(pk, config) == 2 && !c.hook.Reject? && !RefusalHeeded(pk, c, config)
    requires forall e | e in events :: WellTimed(e, config) && !EndsAt(e, client, pk.id)
    ensures var first := At(client, PublishIn(pk, c));
            && OnPublish(b.sessions[client].flight, pk, c, config).forwarded == (c.writeOk && !c.hook.Ignore?)
            && OpenAt(Step(b, first, config), client, pk.id)
            && Uses(Step(b, first, config), events, client, pk.id, config) == 0
  {
    var first := At(client, PublishIn(pk, c));
    QosTwoForwardedOnce(b.sessions[client], pk, c, [], config);
    StepConserves(b, first, config);
    OpenHandshakeOutlivesConnections(Step(b, first, config), events, client, pk.id, config);
  }
}
