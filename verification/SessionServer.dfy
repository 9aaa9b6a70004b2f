/**
 The handlers that change sessions in place (broker/server.go), over the heap trie of the topic
 index, proved to take the steps of SessionSpec.

 A method is one handler run to its end.  Maps are visited in any order.
 */
module SessionServer {
  import opened Levels
  import opened Filters
  import opened Subscriptions
  import opened IndexSpec
  import opened SessionSpec
  import opened TopicTrie

  class Client {
    const id: ClientId
    const version: nat
    const clean: bool
    var subscriptions: map<string, Subscription>
    var isTakenOver: bool
    ghost var ended: bool

    constructor (id: ClientId, version: nat, clean: bool)
      ensures View() == Connection(id, version, clean, map[], false, false)
    {
      this.id, this.version, this.clean := id, version, clean;
      subscriptions, isTakenOver, ended := map[], false, false;
    }

    ghost function View(): Connection
      reads this
    {
      Connection(id, version, clean, subscriptions, isTakenOver, ended)
    }
  }

  ghost function Connections(conns: set<Client>): map<Client, Connection>
    reads conns
  {
    map c | c in conns :: c.View()
  }

  lemma OneChanged<H>(before: map<H, Connection>, after: map<H, Connection>, h: H)
    requires h in before && before.Keys == after.Keys
    requires forall g | g in before && g != h :: after[g] == before[g]
    ensures after == before[h := after[h]]
  {
  }

  class Server {
    const topics: TopicsIndex
    var clients: map<ClientId, Client>
    ghost var conns: set<Client>

    constructor ()
      ensures Valid() && View() == State(map[], map[], map[])
    {
      topics := new TopicsIndex();
      clients := map[];
      conns := {};
    }

    ghost predicate Valid()
      reads this, topics, topics.nodes
    {
      && topics.Valid() && topics.Minimal()
      && forall id | id in clients :: clients[id] in conns && clients[id].id == id
    }

    ghost function View(): State<Client>
      reads this, topics, conns
    {
      State(topics.contents, clients, Connections(conns))
    }

    /**
     Establishes a connection: it takes over the session of its client id, if there is one, and
     takes its place in Clients.  The result says whether a session was present.
     */
    method Establish(cl: Client, cleanStart: bool) returns (sessionPresent: bool, ghost order: seq<string>)
      requires Valid() && cl !in conns && cl.View() == Connection(cl.id, cl.version, cl.clean, map[], false, false)
      modifies this, conns, cl, topics`nodes, topics`contents, topics.nodes
      ensures Valid() && fresh(topics.nodes - old(topics.nodes)) && conns == old(conns) + {cl}
      ensures Possible(old(View()), Connect(cl, old(cl.View()), cleanStart, order))
      ensures View() == SessionSpec.Step(old(View()), Connect(cl, old(cl.View()), cleanStart, order))
      ensures sessionPresent <==>
                cl.id in old(clients) && !cleanStart
                && !(old(clients[cl.id]).clean && old(clients[cl.id]).version < 5)
      ensures !sessionPresent ==> cl.subscriptions == map[]
      ensures sessionPresent && OwnFilters(old(clients[cl.id].subscriptions)) ==>
                cl.subscriptions == old(clients[cl.id].subscriptions)
    {
      sessionPresent, order := false, [];
      ghost var before, conn := View(), cl.View();
      if cl.id in clients {
        sessionPresent, order := TakeOverFrom(clients[cl.id], cl, cleanStart);
        TakenOverAsStep(before, topics.contents, cl, conn, cleanStart, order);
      }
      Register(cl);
    }

    /** The old session is dropped, or lives on at the new connection. */
    method TakeOverFrom(existing: Client, cl: Client, cleanStart: bool) returns (kept: bool, ghost order: seq<string>)
      requires Valid() && existing in conns && cl !in conns && existing.id == cl.id && cl.subscriptions == map[]
      modifies existing, cl`subscriptions, topics`nodes, topics`contents, topics.nodes
      ensures Valid() && fresh(topics.nodes - old(topics.nodes)) && Visits(order, old(existing.subscriptions))
      ensures kept <==> !cleanStart && !(existing.clean && existing.version < 5)
      ensures topics.contents ==
              if kept then SubscribeAll(old(topics.contents), cl.id, old(existing.subscriptions), order)
              else SessionSpec.UnsubscribeClient(old(topics.contents), old(existing.View()), order)
      ensures cl.subscriptions == if kept then CopyAll(map[], old(existing.subscriptions), order) else map[]
      ensures kept && OwnFilters(old(existing.subscriptions)) ==> cl.subscriptions == old(existing.subscriptions)
      ensures View().conns == old(View()).conns[existing := old(existing.View()).(subs := map[], takenOver := true)]
    {
      if cleanStart || (existing.clean && existing.version < 5) {
        kept := false;
        order := RetireClean(existing);
      } else {
        kept := true;
        order := RetireInto(existing, cl);
        if OwnFilters(old(existing.subscriptions)) {
          CopyIsSession(old(existing.subscriptions), order);
        }
      }
    }

    /** Clients.Add, for a new connection. */
    method Register(cl: Client)
      requires Valid() && cl !in conns
      modifies this
      ensures Valid() && conns == old(conns) + {cl}
      ensures View() == State(old(topics.contents), old(clients)[cl.id := cl], old(View()).conns[cl := cl.View()])
    {
      ghost var before := View().conns;
      clients := clients[cl.id := cl];
      conns := conns + {cl};
      OneAdded(before, View().conns, cl);
    }

    /** The end of a session whose client starts afresh; only then is the old client taken over. */
    method RetireClean(existing: Client) returns (ghost order: seq<string>)
      requires Valid() && existing in conns
      modifies existing, topics`nodes, topics`contents, topics.nodes
      ensures Valid() && topics.nodes <= old(topics.nodes)
      ensures Visits(order, old(existing.subscriptions))
      ensures topics.contents == SessionSpec.UnsubscribeClient(old(topics.contents), old(existing.View()), order)
      ensures View().conns == old(View()).conns[existing := old(existing.View()).(subs := map[], takenOver := true)]
    {
      ghost var before := View().conns;
      order := UnsubscribeClient(existing);
      existing.isTakenOver := true;
      OneChanged(before, View().conns, existing);
    }

    /** The end of a session that lives on at another connection. */
    method RetireInto(existing: Client, cl: Client) returns (ghost order: seq<string>)
      requires Valid() && existing in conns && cl !in conns && existing.id == cl.id
      modifies existing, cl`subscriptions, topics`nodes, topics`contents, topics.nodes
      ensures Valid() && fresh(topics.nodes - old(topics.nodes))
      ensures Visits(order, old(existing.subscriptions))
      ensures topics.contents == SubscribeAll(old(topics.contents), cl.id, old(existing.subscriptions), order)
      ensures cl.subscriptions == CopyAll(old(cl.subscriptions), old(existing.subscriptions), order)
      ensures View().conns == old(View()).conns[existing := old(existing.View()).(subs := map[], takenOver := true)]
    {
      ghost var before := View().conns;
      existing.isTakenOver := true;
      order := InheritSubscriptions(existing, cl);
      ghost var _ := UnsubscribeClient(existing);
      OneChanged(before, View().conns, existing);
    }

    /** Handles a SUBSCRIBE: each filter is checked, filed and answered on its own. */
    method ProcessSubscribe(cl: Client, filters: seq<Subscription>, idInUse: bool, allowed: seq<bool>,
        maximumQos: nat, obscure: bool)
      returns (reasonCodes: seq<nat>)
      requires Valid() && cl in conns && !cl.ended && |allowed| == |filters|
      modifies cl`subscriptions, topics`nodes, topics`contents, topics.nodes
      ensures Valid() && fresh(topics.nodes - old(topics.nodes))
      ensures reasonCodes == InOrder(SubackCodes(filters, idInUse, allowed, cl.version, maximumQos, obscure), |filters|)
      ensures View() == SubscribeEach(old(View()), cl, filters, idInUse, allowed, |filters|)
    {
      reasonCodes := [];
      ghost var before, codes := View(), SubackCodes(filters, idInUse, allowed, cl.version, maximumQos, obscure);
      for i := 0 to |filters|
        invariant Valid() && fresh(topics.nodes - old(topics.nodes))
        invariant reasonCodes == InOrder(codes, i)
        invariant View() == SubscribeEach(before, cl, filters, idInUse, allowed, i)
      {
        var code := SubscribeNext(cl, filters, idInUse, allowed, maximumQos, obscure, i, before);
        reasonCodes := reasonCodes + [code];
      }
    }

    method SubscribeNext(cl: Client, filters: seq<Subscription>, idInUse: bool, allowed: seq<bool>, maximumQos: nat,
        obscure: bool, i: nat, ghost before: State<Client>)
      returns (code: nat)
      requires Valid() && cl in conns && !cl.ended && |allowed| == |filters| && i < |filters|
      requires cl in before.conns && !before.conns[cl].ended
      requires View() == SubscribeEach(before, cl, filters, idInUse, allowed, i)
      modifies cl`subscriptions, topics`nodes, topics`contents, topics.nodes
      ensures Valid() && fresh(topics.nodes - old(topics.nodes))
      ensures code == SubackCodes(filters, idInUse, allowed, cl.version, maximumQos, obscure)(i)
      ensures View() == SubscribeEach(before, cl, filters, idInUse, allowed, i + 1)
    {
      code := SubscribeOne(cl, filters[i], idInUse, allowed[i], maximumQos, obscure);
    }

    method SubscribeOne(cl: Client, sub: Subscription, idInUse: bool, allowed: bool, maximumQos: nat, obscure: bool)
      returns (code: nat)
      requires Valid() && cl in conns && !cl.ended
      modifies cl`subscriptions, topics`nodes, topics`contents, topics.nodes
      ensures Valid() && fresh(topics.nodes - old(topics.nodes))
      ensures code == SubackCode(sub, idInUse, allowed, cl.version, maximumQos, obscure)
      ensures View() == SessionSpec.Step(old(View()), Event.Subscribe(cl, sub, !idInUse && allowed))
    {
      if idInUse {
        return 0x91;
      } else if !IsValidFilter(sub.filter, false) {
        code := 0x8F;
      } else if sub.noLocal && IsSharedFilter(sub.filter) {
        code := 0x82;
      } else if !allowed {
        code := if obscure then 0x80 else 0x87;
      } else {
        ghost var before := View();
        File(cl, sub);
        FiledAsStep(before, View(), cl, sub);
        code := if sub.qos > maximumQos then maximumQos else sub.qos;
      }
      if code > 2 && cl.version < 5 {
        code := 0x80;
      }
    }

    method File(cl: Client, sub: Subscription)
      requires Valid() && cl in conns
      modifies cl`subscriptions, topics`nodes, topics`contents, topics.nodes
      ensures Valid() && fresh(topics.nodes - old(topics.nodes))
      ensures topics.contents == SubscribeStep(old(topics.contents), cl.id, sub)
      ensures View().conns == old(View()).conns[cl := old(cl.View()).(subs := old(cl.subscriptions)[sub.filter := sub])]
    {
      ghost var before := View().conns;
      var _ := topics.Subscribe(cl.id, sub);
      cl.subscriptions := cl.subscriptions[sub.filter := sub];
      OneChanged(before, View().conns, cl);
    }

    /** Handles an UNSUBSCRIBE; filters are not validated. */
    method ProcessUnsubscribe(cl: Client, filters: seq<string>, idInUse: bool) returns (reasonCodes: seq<nat>)
      requires Valid() && cl in conns && !cl.ended
      modifies cl`subscriptions, topics`nodes, topics`contents, topics.nodes
      ensures Valid() && topics.nodes <= old(topics.nodes)
      ensures reasonCodes == UnsubackCodes(old(View()), cl, filters, idInUse, |filters|)
      ensures View() == UnsubscribeEach(old(View()), cl, filters, idInUse, |filters|)
    {
      reasonCodes := [];
      ghost var before := View();
      for i := 0 to |filters|
        invariant Valid() && topics.nodes <= old(topics.nodes)
        invariant reasonCodes == UnsubackCodes(before, cl, filters, idInUse, i)
        invariant View() == UnsubscribeEach(before, cl, filters, idInUse, i)
      {
        var code := UnsubscribeOne(cl, filters[i], idInUse);
        reasonCodes := reasonCodes + [code];
      }
    }

    /** "No subscription existed" is answered only when the index has no node for the filter. */
    method UnsubscribeOne(cl: Client, filter: string, idInUse: bool) returns (code: nat)
      requires Valid() && cl in conns && !cl.ended
      modifies cl`subscriptions, topics`nodes, topics`contents, topics.nodes
      ensures Valid() && topics.nodes <= old(topics.nodes)
      ensures code == UnsubackCode(old(topics.contents), filter, idInUse)
      ensures View() == SessionSpec.Step(old(View()), Event.Unsubscribe(cl, filter, !idInUse))
    {
      if idInUse {
        return 0x91;
      }
      ghost var before := View();
      var q := Unfile(cl, filter);
      code := if q then 0 else 0x11;
      UnfiledAsStep(before, View(), cl, filter);
    }

    method Unfile(cl: Client, filter: string) returns (q: bool)
      requires Valid() && cl in conns
      modifies cl`subscriptions, topics`nodes, topics`contents, topics.nodes
      ensures Valid() && topics.nodes <= old(topics.nodes)
      ensures q <==> InShape(old(topics.contents), KeyOf(filter).path)
      ensures topics.contents == UnsubscribeStep(old(topics.contents), cl.id, filter)
      ensures View().conns == old(View()).conns[cl := old(cl.View()).(subs := old(cl.subscriptions) - {filter})]
    {
      ghost var before := View().conns;
      q := topics.Unsubscribe(filter, cl.id);
      cl.subscriptions := cl.subscriptions - {filter};
      OneChanged(before, View().conns, cl);
    }

    /** The end of a connection; a session that does not outlive it is taken out of the index. */
    method Teardown(cl: Client, sessionExpiry: nat) returns (ghost order: seq<string>)
      requires Valid() && cl in conns && !cl.ended
      modifies this`clients, cl, topics`nodes, topics`contents, topics.nodes
      ensures Valid() && topics.nodes <= old(topics.nodes)
      ensures Possible(old(View()), Event.Teardown(cl, sessionExpiry, order))
      ensures View() == SessionSpec.Step(old(View()), Event.Teardown(cl, sessionExpiry, order))
    {
      ghost var before := View();
      var expire := (cl.version == 5 && sessionExpiry == 0) || (cl.version < 5 && cl.clean);
      if expire && !cl.isTakenOver {
        order := DropSession(cl);
        EndedAsStep(before, View(), cl, sessionExpiry, order);
      } else {
        order := Listing(cl.subscriptions.Keys);
        cl.ended := true;
        OneChanged(before.conns, View().conns, cl);
      }
    }

    method DropSession(cl: Client) returns (ghost order: seq<string>)
      requires Valid() && cl in conns
      modifies this`clients, cl, topics`nodes, topics`contents, topics.nodes
      ensures Valid() && topics.nodes <= old(topics.nodes)
      ensures Visits(order, old(cl.subscriptions)) && clients == old(clients) - {cl.id}
      ensures topics.contents == SessionSpec.UnsubscribeClient(old(topics.contents), old(cl.View()), order)
      ensures View().conns == old(View()).conns[cl := old(cl.View()).(subs := map[], ended := true)]
    {
      ghost var before := View().conns;
      order := UnsubscribeClient(cl);
      clients := clients - {cl.id};
      cl.ended := true;
      OneChanged(before, View().conns, cl);
    }

    /** Deletes all subscriptions of a client, and takes them out of the index unless it was taken over. */
    method UnsubscribeClient(cl: Client) returns (ghost order: seq<string>)
      requires Valid() && cl in conns
      modifies cl`subscriptions, topics`nodes, topics`contents, topics.nodes
      ensures Valid() && topics.nodes <= old(topics.nodes)
      ensures cl.subscriptions == map[]
      ensures Visits(order, old(cl.subscriptions))
      ensures topics.contents == SessionSpec.UnsubscribeClient(old(topics.contents), old(cl.View()), order)
    {
      var filterMap := cl.subscriptions;
      cl.subscriptions := map[];
      order := [];
      var rest := filterMap.Keys;
      if cl.isTakenOver {
        order := Listing(filterMap.Keys);
        return;
      }
      while rest != {}
        invariant rest <= filterMap.Keys
        invariant forall f :: f in order <==> f in filterMap && f !in rest
        invariant Valid() && topics.nodes <= old(topics.nodes) && cl.subscriptions == map[]
        invariant topics.contents == UnsubscribeAll(old(topics.contents), cl.id, order)
      {
        var k :| k in rest;
        var _ := topics.Unsubscribe(k, cl.id);
        UnsubscribeOneMore(old(topics.contents), cl.id, order, k);
        order := order + [k];
        rest := rest - {k};
      }
    }

    /** Files the subscriptions of a session again, and gives them to its new connection. */
    method InheritSubscriptions(existing: Client, cl: Client) returns (ghost order: seq<string>)
      requires Valid() && existing != cl && existing.id == cl.id
      modifies cl`subscriptions, topics`nodes, topics`contents, topics.nodes
      ensures Valid() && fresh(topics.nodes - old(topics.nodes))
      ensures Visits(order, existing.subscriptions)
      ensures topics.contents == SubscribeAll(old(topics.contents), cl.id, existing.subscriptions, order)
      ensures cl.subscriptions == CopyAll(old(cl.subscriptions), existing.subscriptions, order)
    {
      var from := existing.subscriptions;
      var rest := from.Keys;
      order := [];
      while rest != {}
        invariant rest <= from.Keys
        invariant forall f :: f in order <==> f in from && f !in rest
        invariant Valid() && fresh(topics.nodes - old(topics.nodes))
        invariant topics.contents == SubscribeAll(old(topics.contents), cl.id, from, order)
        invariant cl.subscriptions == CopyAll(old(cl.subscriptions), from, order)
      {
        var k :| k in rest;
        var sub := from[k];
        var _ := topics.Subscribe(cl.id, sub);
        cl.subscriptions := cl.subscriptions[sub.filter := sub];
        SubscribeOneMore(old(topics.contents), cl.id, old(cl.subscriptions), from, order, k);
        order := order + [k];
        rest := rest - {k};
      }
    }
  }

  /**
   The reason code a filter of a SUBSCRIBE is answered with: the granted QoS, or why not.
   Clients before version 5 only learn that it failed, except for a packet id in use.
   */
  function SubackCode(sub: Subscription, idInUse: bool, allowed: bool, version: nat, maximumQos: nat,
      obscure: bool): nat {
    if idInUse then 0x91
    else
      var code :=
        if !IsValidFilter(sub.filter, false) then 0x8F
        else if sub.noLocal && IsSharedFilter(sub.filter) then 0x82
        else if !allowed then (if obscure then 0x80 else 0x87)
        else if sub.qos > maximumQos then maximumQos else sub.qos;
      if code > 2 && version < 5 then 0x80 else code
  }

  /** The code of each filter of a packet. */
  function SubackCodes(filters: seq<Subscription>, idInUse: bool, allowed: seq<bool>, version: nat,
      maximumQos: nat, obscure: bool)
    : nat -> nat
    requires |allowed| == |filters|
  {
    (i: nat) => if i < |filters| then SubackCode(filters[i], idInUse, allowed[i], version, maximumQos, obscure) else 0
  }

  /** The first n codes, in order. */
  function InOrder(codes: nat -> nat, n: nat): (r: seq<nat>)
    ensures |r| == n && forall i | 0 <= i < n :: r[i] == codes(i)
  {
    if n == 0 then [] else InOrder(codes, n - 1) + [codes(n - 1)]
  }

  /** The code says failure exactly when the subscription was not made, and never grants more than asked. */
  lemma SubackIsHonest(sub: Subscription, idInUse: bool, allowed: bool, version: nat, maximumQos: nat, obscure: bool)
    requires sub.qos <= 2 && maximumQos <= 2
    ensures var code := SubackCode(sub, idInUse, allowed, version, maximumQos, obscure);
            && (code < 0x80 <==> Accepts(sub, !idInUse && allowed))
            && (code < 0x80 ==> code <= sub.qos && code <= maximumQos && (code == sub.qos || code == maximumQos))
            && (code >= 0x80 && version < 5 && !idInUse ==> code == 0x80)
  {
  }

  /** What each reason code says to a version 5 client. */
  lemma SubackSays(sub: Subscription, idInUse: bool, allowed: bool, maximumQos: nat, obscure: bool)
    requires sub.qos <= 2 && maximumQos <= 2
    ensures var code := SubackCode(sub, idInUse, allowed, 5, maximumQos, obscure);
            var valid := IsValidFilter(sub.filter, false);
            var sharedNoLocal := sub.noLocal && Fold(Split(sub.filter)[0]) == "$share";
            && (code == 0x91 <==> idInUse)
            && (code == 0x8F <==> !idInUse && !valid)
            && (code == 0x82 <==> !idInUse && valid && sharedNoLocal)
            && (code == 0x87 <==> !idInUse && valid && !sharedNoLocal && !allowed && !obscure)
            && (code == 0x80 <==> !idInUse && valid && !sharedNoLocal && !allowed && obscure)
  {
    ShareWordIsFolded(Split(sub.filter)[0]);
  }

  /** The first n filters of a packet, one after the other. */
  ghost function SubscribeEach<H>(st: State<H>, h: H, filters: seq<Subscription>, idInUse: bool,
      allowed: seq<bool>, n: nat): (r: State<H>)
    requires |allowed| == |filters| && n <= |filters| && h in st.conns && !st.conns[h].ended
    ensures h in r.conns && !r.conns[h].ended
  {
    if n == 0 then st
    else SessionSpec.Step(SubscribeEach(st, h, filters, idInUse, allowed, n - 1),
                          Event.Subscribe(h, filters[n - 1], !idInUse && allowed[n - 1]))
  }

  ghost function UnsubscribeEach<H>(st: State<H>, h: H, filters: seq<string>, idInUse: bool, n: nat): (r: State<H>)
    requires n <= |filters| && h in st.conns && !st.conns[h].ended
    ensures h in r.conns && !r.conns[h].ended
  {
    if n == 0 then st
    else SessionSpec.Step(UnsubscribeEach(st, h, filters, idInUse, n - 1),
                          Event.Unsubscribe(h, filters[n - 1], !idInUse))
  }

  /** Success is answered when the index has a node for the filter, whoever subscribed there. */
  ghost function UnsubackCode(c: Contents, filter: string, idInUse: bool): nat {
    if idInUse then 0x91 else if InShape(c, KeyOf(filter).path) then 0 else 0x11
  }

  ghost function UnsubackCodes<H>(st: State<H>, h: H, filters: seq<string>, idInUse: bool, n: nat): seq<nat>
    requires n <= |filters| && h in st.conns && !st.conns[h].ended
  {
    if n == 0 then []
    else UnsubackCodes(st, h, filters, idInUse, n - 1)
         + [UnsubackCode(UnsubscribeEach(st, h, filters, idInUse, n - 1).contents, filters[n - 1], idInUse)]
  }

  lemma OneAdded<H>(before: map<H, Connection>, after: map<H, Connection>, h: H)
    requires h in after && after.Keys == before.Keys + {h}
    requires forall g | g in before && g != h :: after[g] == before[g]
    ensures after == before[h := after[h]]
  {
  }

  lemma TakenOverAsStep<H>(before: State<H>, contents: Contents, h: H, conn: Connection, cleanStart: bool,
      order: seq<string>)
    requires conn.id in before.clients && before.clients[conn.id] in before.conns
    requires Visits(order, before.conns[before.clients[conn.id]].subs)
    requires var existing := before.conns[before.clients[conn.id]];
             contents ==
             if StartsClean(existing, cleanStart) then
               SessionSpec.UnsubscribeClient(before.contents, existing, order)
             else
               SubscribeAll(before.contents, conn.id, existing.subs, order)
    ensures var existing := before.conns[before.clients[conn.id]];
            var kept := if StartsClean(existing, cleanStart) then conn
              else conn.(subs := CopyAll(conn.subs, existing.subs, order));
            TakeOver(before, h, conn, cleanStart, order) ==
            State(contents, before.clients[conn.id := h],
                  before.conns[before.clients[conn.id] := existing.(subs := map[], takenOver := true)][h := kept])
  {
  }

  lemma FiledAsStep<H>(before: State<H>, after: State<H>, h: H, sub: Subscription)
    requires h in before.conns && !before.conns[h].ended && Accepts(sub, true)
    requires after.contents == SubscribeStep(before.contents, before.conns[h].id, sub)
             && after.clients == before.clients
    requires after.conns == before.conns[h := before.conns[h].(subs := before.conns[h].subs[sub.filter := sub])]
    ensures after == SessionSpec.Step(before, Event.Subscribe(h, sub, true))
  {
  }

  lemma UnfiledAsStep<H>(before: State<H>, after: State<H>, h: H, filter: string)
    requires h in before.conns && !before.conns[h].ended
    requires after.contents == UnsubscribeStep(before.contents, before.conns[h].id, filter)
             && after.clients == before.clients
    requires after.conns == before.conns[h := before.conns[h].(subs := before.conns[h].subs - {filter})]
    ensures after == SessionSpec.Step(before, Event.Unsubscribe(h, filter, true))
  {
  }

  lemma EndedAsStep<H>(before: State<H>, after: State<H>, h: H, sessionExpiry: nat, order: seq<string>)
    requires h in before.conns && !before.conns[h].ended && Visits(order, before.conns[h].subs)
    requires Expires(before.conns[h], sessionExpiry) && !before.conns[h].takenOver
    requires after.contents == SessionSpec.UnsubscribeClient(before.contents, before.conns[h], order)
    requires after.clients == before.clients - {before.conns[h].id}
    requires after.conns == before.conns[h := before.conns[h].(subs := map[], ended := true)]
    ensures after == SessionSpec.Step(before, Event.Teardown(h, sessionExpiry, order))
  {
  }

  /** Some order in which a set may be visited. */
  ghost function Listing(keys: set<string>): (order: seq<string>)
    ensures forall f :: f in order <==> f in keys
  {
    if keys == {} then [] else var k :| k in keys; [k] + Listing(keys - {k})
  }

  lemma {:induction false} UnsubscribeOneMore(c: Contents, id: ClientId, order: seq<string>, k: string)
    ensures UnsubscribeAll(c, id, order + [k]) == UnsubscribeStep(UnsubscribeAll(c, id, order), id, k)
    decreases |order|
  {
    if order == [] {
      assert order + [k] == [k];
      assert [k][1..] == [];
      assert UnsubscribeAll(c, id, [k]) == UnsubscribeAll(UnsubscribeStep(c, id, k), id, []);
    } else {
      assert (order + [k])[1..] == order[1..] + [k];
      UnsubscribeOneMore(UnsubscribeStep(c, id, order[0]), id, order[1..], k);
    }
  }

  lemma {:induction false} SubscribeOneMore(c: Contents, id: ClientId, subs: Subs, from: Subs, order: seq<string>,
      k: string)
    requires k in from && forall f | f in order :: f in from
    ensures SubscribeAll(c, id, from, order + [k]) == SubscribeStep(SubscribeAll(c, id, from, order), id, from[k])
    ensures CopyAll(subs, from, order + [k]) == CopyAll(subs, from, order)[from[k].filter := from[k]]
    decreases |order|
  {
    if order == [] {
      assert order + [k] == [k];
      assert [k][1..] == [];
      assert SubscribeAll(c, id, from, [k]) == SubscribeAll(SubscribeStep(c, id, from[k]), id, from, []);
      assert CopyAll(subs, from, [k]) == CopyAll(subs[from[k].filter := from[k]], from, []);
    } else {
      var sub := from[order[0]];
      assert (order + [k])[1..] == order[1..] + [k];
      SubscribeOneMore(SubscribeStep(c, id, sub), id, subs[sub.filter := sub], from, order[1..], k);
    }
  }
}
