/**
 Sessions and takeover as steps over one broker state: what the topic index holds for a client
 id is what the session now in Clients holds, whatever the interleaving (broker/server.go).

 H stands for the identity of a connection.  A step is one handler, run to its end.
 */
module SessionSpec {
  import opened Wrappers
  import opened Levels
  import opened Filters
  import opened Subscriptions
  import opened IndexSpec

  type Subs = map<string, Subscription>

  datatype Connection = Connection(
    id: ClientId,
    version: nat,
    clean: bool,
    subs: Subs,
    takenOver: bool,
    ended: bool)

  datatype State<H(==)> = State(contents: Contents, clients: map<ClientId, H>, conns: map<H, Connection>)

  /** Orders are the orders in which a map of filters is visited: any order will do. */
  datatype Event<H> =
    | Connect(h: H, conn: Connection, cleanStart: bool, order: seq<string>)
    | Subscribe(h: H, sub: Subscription, granted: bool)
    | Unsubscribe(h: H, filter: string, granted: bool)
    | Teardown(h: H, sessionExpiry: nat, order: seq<string>)
    | Expire(id: ClientId)

  // ---------- Steps ----------

  function SubscribeAll(c: Contents, id: ClientId, subs: Subs, order: seq<string>): Contents
    requires forall f | f in order :: f in subs
    decreases |order|
  {
    if order == [] then c
    else
      assert order[0] in order && forall f | f in order[1..] :: f in order;
      SubscribeAll(SubscribeStep(c, id, subs[order[0]]), id, subs, order[1..])
  }

  function UnsubscribeAll(c: Contents, id: ClientId, order: seq<string>): Contents
    decreases |order|
  {
    if order == [] then c else UnsubscribeAll(UnsubscribeStep(c, id, order[0]), id, order[1..])
  }

  /** The filters of a session filed again under the filters they carry. */
  function CopyAll(subs: Subs, from: Subs, order: seq<string>): Subs
    requires forall f | f in order :: f in from
    decreases |order|
  {
    if order == [] then subs
    else
      assert order[0] in order && forall f | f in order[1..] :: f in order;
      CopyAll(subs[from[order[0]].filter := from[order[0]]], from, order[1..])
  }

  /** Meets the filters of a session, and nothing else. */
  ghost predicate Visits(order: seq<string>, subs: Subs) {
    forall f :: f in order <==> f in subs
  }

  /** A taken over connection only forgets its subscriptions; the index is its successor's. */
  function UnsubscribeClient(c: Contents, conn: Connection, order: seq<string>): Contents {
    if conn.takenOver then c else UnsubscribeAll(c, conn.id, order)
  }

  /** The session is dropped when either side asked for a clean one. */
  predicate StartsClean(existing: Connection, cleanStart: bool) {
    cleanStart || (existing.clean && existing.version < 5)
  }

  function TakeOver<H>(st: State<H>, h: H, conn: Connection, cleanStart: bool, order: seq<string>): State<H>
    requires conn.id in st.clients && st.clients[conn.id] in st.conns
    requires Visits(order, st.conns[st.clients[conn.id]].subs)
  {
    var previous := st.clients[conn.id];
    var existing := st.conns[previous];
    var retired := existing.(subs := map[], takenOver := true);
    var clients := st.clients[conn.id := h];
    if StartsClean(existing, cleanStart) then
      State(UnsubscribeClient(st.contents, existing, order), clients, st.conns[previous := retired][h := conn])
    else
      State(SubscribeAll(st.contents, conn.id, existing.subs, order), clients,
            st.conns[previous := retired][h := conn.(subs := CopyAll(conn.subs, existing.subs, order))])
  }

  predicate Accepts(sub: Subscription, granted: bool) {
    IsValidFilter(sub.filter, false) && !(sub.noLocal && IsSharedFilter(sub.filter)) && granted
  }

  predicate Expires(conn: Connection, sessionExpiry: nat) {
    (conn.version == 5 && sessionExpiry == 0) || (conn.version < 5 && conn.clean)
  }

  /** What may happen next, whoever sends it. */
  ghost predicate Possible<H>(st: State<H>, e: Event<H>) {
    match e
    case Connect(h, conn, _, order) =>
      && h !in st.conns && conn.subs == map[] && !conn.takenOver && !conn.ended
      && (conn.id in st.clients ==>
            st.clients[conn.id] in st.conns && Visits(order, st.conns[st.clients[conn.id]].subs))
    case Subscribe(h, _, _) => h in st.conns && !st.conns[h].ended
    case Unsubscribe(h, _, _) => h in st.conns && !st.conns[h].ended
    case Teardown(h, _, order) => h in st.conns && !st.conns[h].ended && Visits(order, st.conns[h].subs)
    case Expire(id) => true
  }

  ghost function Step<H>(st: State<H>, e: Event<H>): State<H>
    requires Possible(st, e)
  {
    match e
    case Connect(h, conn, cleanStart, order) =>
      if conn.id in st.clients then TakeOver(st, h, conn, cleanStart, order)
      else State(st.contents, st.clients[conn.id := h], st.conns[h := conn])
    case Subscribe(h, sub, granted) =>
      var conn := st.conns[h];
      if Accepts(sub, granted) then
        State(SubscribeStep(st.contents, conn.id, sub), st.clients,
              st.conns[h := conn.(subs := conn.subs[sub.filter := sub])])
      else st
    case Unsubscribe(h, filter, granted) =>
      var conn := st.conns[h];
      if granted then
        State(UnsubscribeStep(st.contents, conn.id, filter), st.clients,
              st.conns[h := conn.(subs := conn.subs - {filter})])
      else st
    case Teardown(h, sessionExpiry, order) =>
      var conn := st.conns[h];
      if Expires(conn, sessionExpiry) && !conn.takenOver then
        State(UnsubscribeClient(st.contents, conn, order), st.clients - {conn.id},
              st.conns[h := conn.(subs := map[], ended := true)])
      else st.(conns := st.conns[h := conn.(ended := true)])
    case Expire(id) => st.(clients := st.clients - {id})
  }

  // ---------- Agreement ----------

  /** The index holds for a client id exactly these subscriptions. */
  ghost predicate Agrees(c: Contents, id: ClientId, subs: Subs) {
    && (forall f | f in subs :: Lookup(c, id, KeyOf(f)) == Some(subs[f]))
    && (forall key | Lookup(c, id, key).Some? :: exists f :: f in subs && KeyOf(f) == key)
  }

  /** The subscriptions of the session now in Clients under an id. */
  function SessionSubs<H>(st: State<H>, id: ClientId): Subs {
    if id in st.clients && st.clients[id] in st.conns then st.conns[st.clients[id]].subs else map[]
  }

  ghost predicate AllAgree<H>(st: State<H>) {
    forall id :: Agrees(st.contents, id, SessionSubs(st, id))
  }

  /** The session in Clients under its id is this connection's. */
  predicate Current<H(==)>(st: State<H>, h: H)
    requires h in st.conns
  {
    st.conns[h].id in st.clients && st.clients[st.conns[h].id] == h
  }

  ghost predicate OwnFilters(subs: Subs) {
    forall f | f in subs :: subs[f].filter == f
  }

  ghost predicate WellFormed<H>(st: State<H>) {
    && (forall id | id in st.clients :: st.clients[id] in st.conns && st.conns[st.clients[id]].id == id
                                        && !st.conns[st.clients[id]].takenOver)
    && (forall h | h in st.conns :: OwnFilters(st.conns[h].subs))
    && (forall h | h in st.conns && !Current(st, h) :: st.conns[h].takenOver || st.conns[h].ended)
  }

  /** Another filter of the session is filed under the same key. */
  ghost predicate Confused(subs: Subs, filter: string) {
    exists g :: g in subs && g != filter && KeyOf(g) == KeyOf(filter)
  }

  ghost predicate SameLookups(c: Contents, d: Contents, who: ClientId) {
    forall key :: Lookup(d, who, key) == Lookup(c, who, key)
  }

  lemma SameAgrees(c: Contents, d: Contents, who: ClientId, subs: Subs)
    requires SameLookups(c, d, who) && Agrees(c, who, subs)
    ensures Agrees(d, who, subs)
  {
    forall f | f in subs ensures Lookup(d, who, KeyOf(f)) == Some(subs[f]) {
    }
    forall key | Lookup(d, who, key).Some? ensures exists f :: f in subs && KeyOf(f) == key {
      assert Lookup(c, who, key).Some?;
    }
  }

  /** Agreement of any table of keys with a session, for any way of filing filters. */
  ghost predicate AgreesBy(look: FilterKey -> Option<Subscription>, keyOf: string -> FilterKey, subs: Subs) {
    && (forall f | f in subs :: look(keyOf(f)) == Some(subs[f]))
    && (forall key | look(key).Some? :: exists f :: f in subs && keyOf(f) == key)
  }

  function Written(subs: Subs, filter: string, written: Option<Subscription>): Subs {
    if written.Some? then subs[filter := written.value] else subs - {filter}
  }

  /** Writing one key and one filter keeps them in agreement exactly when the key is the filter's alone. */
  lemma WriteAgrees(
    look: FilterKey -> Option<Subscription>, after: FilterKey -> Option<Subscription>, keyOf: string -> FilterKey,
    subs: Subs, filter: string, written: Option<Subscription>)
    requires AgreesBy(look, keyOf, subs) && OwnFilters(subs)
    requires forall k :: after(k) == if k == keyOf(filter) then written else look(k)
    requires written.Some? ==> written.value.filter == filter
    ensures AgreesBy(after, keyOf, Written(subs, filter, written)) <==>
            !exists g :: g in subs && g != filter && keyOf(g) == keyOf(filter)
  {
    var next := Written(subs, filter, written);
    if g :| g in subs && g != filter && keyOf(g) == keyOf(filter) {
      assert g in next && next[g].filter == g;
    } else {
      forall k | after(k).Some? ensures exists f :: f in next && keyOf(f) == k {
        if k == keyOf(filter) {
          assert filter in next;
        } else {
          var f :| f in subs && keyOf(f) == k;
          assert f in next;
        }
      }
    }
  }

  ghost function Held(c: Contents, id: ClientId): FilterKey -> Option<Subscription> {
    k => Lookup(c, id, k)
  }

  lemma AgreesAsHeld(c: Contents, id: ClientId, subs: Subs)
    ensures Agrees(c, id, subs) <==> AgreesBy(Held(c, id), KeyOf, subs)
  {
    var look, keyOf := Held(c, id), KeyOf;
    assert forall k :: look(k) == Lookup(c, id, k);
    assert forall f: string :: keyOf(f) == KeyOf(f);
    if Agrees(c, id, subs) {
      forall k | look(k).Some? ensures exists f :: f in subs && keyOf(f) == k {
        var f :| f in subs && KeyOf(f) == k;
        assert keyOf(f) == k;
      }
    }
    if AgreesBy(look, keyOf, subs) {
      forall k | Lookup(c, id, k).Some? ensures exists f :: f in subs && KeyOf(f) == k {
        var f :| f in subs && keyOf(f) == k;
        assert KeyOf(f) == k;
      }
    }
  }

  lemma WriteKeyAgrees(c: Contents, d: Contents, id: ClientId, subs: Subs, filter: string,
      written: Option<Subscription>)
    requires Agrees(c, id, subs) && OwnFilters(subs)
    requires forall k :: Held(d, id)(k) == if k == KeyOf(filter) then written else Held(c, id)(k)
    requires written.Some? ==> written.value.filter == filter
    ensures Agrees(d, id, Written(subs, filter, written)) <==> !Confused(subs, filter)
  {
    AgreesAsHeld(c, id, subs);
    AgreesAsHeld(d, id, Written(subs, filter, written));
    var keyOf := KeyOf;
    WriteAgrees(Held(c, id), Held(d, id), keyOf, subs, filter, written);
    assert forall f: string :: keyOf(f) == KeyOf(f);
  }

  /** Writing the key alone keeps agreement exactly when it changes nothing. */
  lemma StaleWriteAgrees(
    look: FilterKey -> Option<Subscription>, after: FilterKey -> Option<Subscription>, keyOf: string -> FilterKey,
    subs: Subs, filter: string, written: Option<Subscription>)
    requires AgreesBy(look, keyOf, subs) && OwnFilters(subs)
    requires forall k :: after(k) == if k == keyOf(filter) then written else look(k)
    requires written.Some? ==> written.value.filter == filter
    ensures AgreesBy(after, keyOf, subs) <==>
            if written.Some? then filter in subs && subs[filter] == written.value
            else !exists g :: g in subs && keyOf(g) == keyOf(filter)
  {
    if g :| g in subs && keyOf(g) == keyOf(filter) {
      assert look(keyOf(g)) == Some(subs[g]) && subs[g].filter == g;
      assert forall f | f in subs && keyOf(f) == keyOf(filter) ::
               look(keyOf(f)) == Some(subs[f]) && subs[f].filter == f;
      forall k | after(k).Some? && written.Some? ensures exists f :: f in subs && keyOf(f) == k {
        if k != keyOf(filter) {
          assert look(k).Some?;
        }
      }
    } else {
      assert written.Some? ==> after(keyOf(filter)).Some?;
      forall k | after(k).Some? && k != keyOf(filter) ensures exists f :: f in subs && keyOf(f) == k {
        assert look(k).Some?;
      }
    }
  }

  lemma StaleKeyAgrees(c: Contents, d: Contents, id: ClientId, subs: Subs, filter: string,
      written: Option<Subscription>)
    requires Agrees(c, id, subs) && OwnFilters(subs)
    requires forall k :: Held(d, id)(k) == if k == KeyOf(filter) then written else Held(c, id)(k)
    requires written.Some? ==> written.value.filter == filter
    ensures Agrees(d, id, subs) <==>
            if written.Some? then filter in subs && subs[filter] == written.value
            else !exists g :: g in subs && KeyOf(g) == KeyOf(filter)
  {
    AgreesAsHeld(c, id, subs);
    AgreesAsHeld(d, id, subs);
    var keyOf := KeyOf;
    StaleWriteAgrees(Held(c, id), Held(d, id), keyOf, subs, filter, written);
    assert forall f: string :: keyOf(f) == KeyOf(f);
  }

  /** A subscription leaves a session in agreement exactly when it shares its key with no other. */
  lemma SubscribeAgrees(c: Contents, id: ClientId, subs: Subs, sub: Subscription)
    requires Agrees(c, id, subs) && OwnFilters(subs)
    ensures Agrees(SubscribeStep(c, id, sub), id, subs[sub.filter := sub]) <==> !Confused(subs, sub.filter)
    ensures Agrees(SubscribeStep(c, id, sub), id, subs) <==> sub.filter in subs && subs[sub.filter] == sub
    ensures forall who | who != id :: SameLookups(c, SubscribeStep(c, id, sub), who)
  {
    var d, key := SubscribeStep(c, id, sub), KeyOf(sub.filter);
    forall who, k
      ensures Lookup(d, who, k) == if who == id && k == key then Some(sub) else Lookup(c, who, k)
    {
      LookupAfterSubscribe(c, key, id, sub, who, k);
    }
    WriteKeyAgrees(c, d, id, subs, sub.filter, Some(sub));
    StaleKeyAgrees(c, d, id, subs, sub.filter, Some(sub));
  }

  /** The same for taking one out. */
  lemma UnsubscribeAgrees(c: Contents, id: ClientId, subs: Subs, filter: string)
    requires Agrees(c, id, subs) && OwnFilters(subs)
    ensures Agrees(UnsubscribeStep(c, id, filter), id, subs - {filter}) <==> !Confused(subs, filter)
    ensures Agrees(UnsubscribeStep(c, id, filter), id, subs) <==> !exists f :: f in subs && KeyOf(f) == KeyOf(filter)
    ensures forall who | who != id :: SameLookups(c, UnsubscribeStep(c, id, filter), who)
  {
    var d, key := UnsubscribeStep(c, id, filter), KeyOf(filter);
    forall who, k
      ensures Lookup(d, who, k) == if who == id && k == key then None else Lookup(c, who, k)
    {
      LookupAfterUnsubscribe(c, key, id, who, k);
    }
    WriteKeyAgrees(c, d, id, subs, filter, None);
    StaleKeyAgrees(c, d, id, subs, filter, None);
  }

  /** Unsubscribing one filter after another removes their keys and nothing else. */
  lemma {:induction false} LookupAfterAll(c: Contents, id: ClientId, order: seq<string>, who: ClientId, key: FilterKey)
    ensures Lookup(UnsubscribeAll(c, id, order), who, key) ==
            if who == id && exists f :: f in order && KeyOf(f) == key then None else Lookup(c, who, key)
    decreases |order|
  {
    if order != [] {
      LookupAfterUnsubscribe(c, KeyOf(order[0]), id, who, key);
      LookupAfterAll(UnsubscribeStep(c, id, order[0]), id, order[1..], who, key);
      assert forall f :: f in order <==> f == order[0] || f in order[1..];
    }
  }

  /** A session that unsubscribes from everything leaves nothing, and nobody else notices. */
  lemma UnsubscribeAllAgrees(c: Contents, id: ClientId, subs: Subs, order: seq<string>)
    requires Agrees(c, id, subs) && Visits(order, subs)
    ensures Agrees(UnsubscribeAll(c, id, order), id, map[])
    ensures forall who | who != id :: SameLookups(c, UnsubscribeAll(c, id, order), who)
  {
    var d := UnsubscribeAll(c, id, order);
    forall who, k
      ensures Lookup(d, who, k) ==
              if who == id && exists f :: f in order && KeyOf(f) == k then None else Lookup(c, who, k)
    {
      LookupAfterAll(c, id, order, who, k);
    }
    forall k ensures Lookup(d, id, k).None? {
      if Lookup(c, id, k).Some? {
        var f :| f in subs && KeyOf(f) == k;
        assert f in order;
      }
    }
  }

  /** Subscribing again to what the index holds already changes nothing. */
  lemma {:induction false} SubscribeAllAgain(c: Contents, id: ClientId, subs: Subs, order: seq<string>,
      who: ClientId, key: FilterKey)
    requires OwnFilters(subs) && forall f | f in order :: f in subs
    requires forall f | f in subs :: Lookup(c, id, KeyOf(f)) == Some(subs[f])
    ensures Lookup(SubscribeAll(c, id, subs, order), who, key) == Lookup(c, who, key)
    decreases |order|
  {
    if order != [] {
      var sub := subs[order[0]];
      var d := SubscribeStep(c, id, sub);
      LookupAfterSubscribe(c, KeyOf(sub.filter), id, sub, who, key);
      forall f | f in subs ensures Lookup(d, id, KeyOf(f)) == Some(subs[f]) {
        LookupAfterSubscribe(c, KeyOf(sub.filter), id, sub, id, KeyOf(f));
      }
      SubscribeAllAgain(d, id, subs, order[1..], who, key);
    }
  }

  lemma {:induction false} CopyOfAll(subs: Subs, from: Subs, order: seq<string>)
    requires OwnFilters(from) && forall f | f in order :: f in from
    ensures forall f :: f in CopyAll(subs, from, order) <==> f in subs || f in order
    ensures forall f | f in CopyAll(subs, from, order) ::
              CopyAll(subs, from, order)[f] == if f in order then from[f] else subs[f]
    decreases |order|
  {
    if order != [] {
      var next := subs[from[order[0]].filter := from[order[0]]];
      CopyOfAll(next, from, order[1..]);
      assert forall f :: f in order <==> f == order[0] || f in order[1..];
    }
  }

  /** A session carried over is the session that was there. */
  lemma CopyIsSession(from: Subs, order: seq<string>)
    requires OwnFilters(from) && Visits(order, from)
    ensures CopyAll(map[], from, order) == from
  {
    CopyOfAll(map[], from, order);
  }

  // ---------- Steps and agreement ----------

  /** Everybody else's session is what it was, and the index agrees with it as before. */
  lemma OthersAgree<H>(st: State<H>, after: State<H>, id: ClientId)
    requires AllAgree(st)
    requires forall who | who != id ::
      SameLookups(st.contents, after.contents, who) && SessionSubs(after, who) == SessionSubs(st, who)
    ensures AllAgree(after) <==> Agrees(after.contents, id, SessionSubs(after, id))
  {
    if Agrees(after.contents, id, SessionSubs(after, id)) {
      forall who ensures Agrees(after.contents, who, SessionSubs(after, who)) {
        if who != id {
          SameAgrees(st.contents, after.contents, who, SessionSubs(st, who));
        }
      }
    }
  }

  /** A new connection in the place of the one before it. */
  lemma ReplaceWellFormed<H>(st: State<H>, c: Contents, h: H, conn: Connection)
    requires WellFormed(st) && h !in st.conns && !conn.takenOver && OwnFilters(conn.subs) && conn.id in st.clients
    ensures var previous := st.clients[conn.id];
            var retired := st.conns[previous].(subs := map[], takenOver := true);
            WellFormed(State(c, st.clients[conn.id := h], st.conns[previous := retired][h := conn]))
  {
    var previous := st.clients[conn.id];
    var retired := st.conns[previous].(subs := map[], takenOver := true);
    var after := State(c, st.clients[conn.id := h], st.conns[previous := retired][h := conn]);
    forall g | g in after.conns && !Current(after, g) ensures after.conns[g].takenOver || after.conns[g].ended {
      assert g == previous || !Current(st, g);
    }
  }

  lemma ConnectWellFormed<H>(st: State<H>, e: Event<H>)
    requires e.Connect? && Possible(st, e) && WellFormed(st)
    ensures WellFormed(Step(st, e))
  {
    var id, after := e.conn.id, Step(st, e);
    if id in st.clients {
      CopyIsSession(st.conns[st.clients[id]].subs, e.order);
      ReplaceWellFormed(st, after.contents, e.h, after.conns[e.h]);
    } else {
      forall g | g in after.conns && !Current(after, g) ensures after.conns[g].takenOver || after.conns[g].ended {
        assert !Current(st, g);
      }
    }
  }

  /** Changing only the subscriptions of one connection. */
  lemma RewriteWellFormed<H>(st: State<H>, c: Contents, h: H, subs: Subs)
    requires WellFormed(st) && h in st.conns && OwnFilters(subs)
    ensures WellFormed(State(c, st.clients, st.conns[h := st.conns[h].(subs := subs)]))
  {
  }

  /** A connection ends, and its session stays. */
  lemma EndWellFormed<H>(st: State<H>, h: H)
    requires WellFormed(st) && h in st.conns
    ensures WellFormed(st.(conns := st.conns[h := st.conns[h].(ended := true)]))
  {
  }

  /** A connection ends together with its session. */
  lemma LeaveWellFormed<H>(st: State<H>, c: Contents, h: H)
    requires WellFormed(st) && h in st.conns && Current(st, h)
    ensures WellFormed(State(c, st.clients - {st.conns[h].id},
                             st.conns[h := st.conns[h].(subs := map[], ended := true)]))
  {
    var after := State(c, st.clients - {st.conns[h].id}, st.conns[h := st.conns[h].(subs := map[], ended := true)]);
    forall g | g in after.conns && !Current(after, g) ensures after.conns[g].takenOver || after.conns[g].ended {
      assert g == h || !Current(st, g);
    }
  }

  lemma TeardownWellFormed<H>(st: State<H>, e: Event<H>)
    requires e.Teardown? && Possible(st, e) && WellFormed(st)
    ensures WellFormed(Step(st, e))
  {
    var conn := st.conns[e.h];
    if Expires(conn, e.sessionExpiry) && !conn.takenOver {
      assert Current(st, e.h);
      LeaveWellFormed(st, Step(st, e).contents, e.h);
    } else {
      EndWellFormed(st, e.h);
    }
  }

  /** Sessions in Clients are live under their own id; all other connections are taken over or ended. */
  lemma StepWellFormed<H>(st: State<H>, e: Event<H>)
    requires Possible(st, e) && WellFormed(st) && !e.Expire?
    ensures WellFormed(Step(st, e))
  {
    match e
    case Connect(_, _, _, _) => ConnectWellFormed(st, e);
    case Subscribe(h, sub, _) =>
      var conn := st.conns[h];
      RewriteWellFormed(st, SubscribeStep(st.contents, conn.id, sub), h, conn.subs[sub.filter := sub]);
    case Unsubscribe(h, filter, _) =>
      var conn := st.conns[h];
      RewriteWellFormed(st, UnsubscribeStep(st.contents, conn.id, filter), h, conn.subs - {filter});
    case Teardown(_, _, _) => TeardownWellFormed(st, e);
  }

  /** The client id whose session an event may change. */
  function Owner<H>(st: State<H>, e: Event<H>): ClientId
    requires !e.Connect? && !e.Expire? ==> e.h in st.conns
  {
    match e
    case Connect(_, conn, _, _) => conn.id
    case Expire(id) => id
    case _ => st.conns[e.h].id
  }

  lemma OtherSessions<H>(st: State<H>, e: Event<H>)
    requires Possible(st, e) && WellFormed(st)
    ensures forall who | who != Owner(st, e) :: SessionSubs(Step(st, e), who) == SessionSubs(st, who)
  {
  }

  lemma AgreesAt<H>(st: State<H>, id: ClientId)
    requires AllAgree(st)
    ensures Agrees(st.contents, id, SessionSubs(st, id))
  {
  }

  /**
   A new connection leaves the index in agreement.  It starts with nothing, in the index or of its
   own, when it asks for a clean start, or when the old session was a clean one of a version before
   5; otherwise it has the subscriptions of the old session, if there was one.
   */
  lemma ConnectAgrees<H>(st: State<H>, e: Event<H>)
    requires e.Connect? && Possible(st, e) && WellFormed(st) && AllAgree(st)
    ensures AllAgree(Step(st, e)) && Current(Step(st, e), e.h)
    ensures var id, after := e.conn.id, Step(st, e);
            if e.cleanStart
               || (id in st.clients && st.conns[st.clients[id]].clean && st.conns[st.clients[id]].version < 5) then
              SessionSubs(after, id) == map[] && forall key :: Lookup(after.contents, id, key).None?
            else
              SessionSubs(after, id) == SessionSubs(st, id) && SameLookups(st.contents, after.contents, id)
  {
    var id, after := e.conn.id, Step(st, e);
    OtherSessions(st, e);
    AgreesAt(st, id);
    if id in st.clients {
      var existing := st.conns[st.clients[id]];
      assert SessionSubs(st, id) == existing.subs;
      if StartsClean(existing, e.cleanStart) {
        UnsubscribeAllAgrees(st.contents, id, existing.subs, e.order);
      } else {
        CopyIsSession(existing.subs, e.order);
        InheritAgrees(st.contents, id, existing.subs, e.order);
      }
    }
    OthersAgree(st, after, id);
    AgreesAt(after, id);
  }

  lemma InheritAgrees(c: Contents, id: ClientId, subs: Subs, order: seq<string>)
    requires Agrees(c, id, subs) && OwnFilters(subs) && Visits(order, subs)
    ensures Agrees(SubscribeAll(c, id, subs, order), id, subs)
    ensures forall who :: SameLookups(c, SubscribeAll(c, id, subs, order), who)
  {
    forall who, key
      ensures Lookup(SubscribeAll(c, id, subs, order), who, key) == Lookup(c, who, key)
    {
      SubscribeAllAgain(c, id, subs, order, who, key);
    }
    SameAgrees(c, SubscribeAll(c, id, subs, order), id, subs);
  }

  /** An accepted subscription keeps agreement exactly when no other filter of the session has its key. */
  lemma SubscribeKeeps<H>(st: State<H>, e: Event<H>)
    requires e.Subscribe? && Possible(st, e) && WellFormed(st) && AllAgree(st)
    requires Current(st, e.h) && Accepts(e.sub, e.granted)
    ensures AllAgree(Step(st, e)) <==> !Confused(st.conns[e.h].subs, e.sub.filter)
  {
    var conn := st.conns[e.h];
    AgreesAt(st, conn.id);
    OtherSessions(st, e);
    SubscribeAgrees(st.contents, conn.id, conn.subs, e.sub);
    OthersAgree(st, Step(st, e), conn.id);
  }

  lemma UnsubscribeKeeps<H>(st: State<H>, e: Event<H>)
    requires e.Unsubscribe? && Possible(st, e) && WellFormed(st) && AllAgree(st)
    requires Current(st, e.h) && e.granted
    ensures AllAgree(Step(st, e)) <==> !Confused(st.conns[e.h].subs, e.filter)
  {
    var conn := st.conns[e.h];
    AgreesAt(st, conn.id);
    OtherSessions(st, e);
    UnsubscribeAgrees(st.contents, conn.id, conn.subs, e.filter);
    OthersAgree(st, Step(st, e), conn.id);
  }

  /** The end of a session keeps agreement. */
  lemma SessionEndAgrees<H>(st: State<H>, e: Event<H>)
    requires e.Teardown? && Possible(st, e) && WellFormed(st) && AllAgree(st)
    requires Expires(st.conns[e.h], e.sessionExpiry) && !st.conns[e.h].takenOver
    ensures AllAgree(Step(st, e))
  {
    var conn, after := st.conns[e.h], Step(st, e);
    OtherSessions(st, e);
    AgreesAt(st, conn.id);
    assert Current(st, e.h) && SessionSubs(st, conn.id) == conn.subs;
    UnsubscribeAllAgrees(st.contents, conn.id, conn.subs, e.order);
    assert SessionSubs(after, conn.id) == map[];
    OthersAgree(st, after, conn.id);
  }

  /** The end of any connection keeps agreement, whether it ends its session or not. */
  lemma TeardownAgrees<H>(st: State<H>, e: Event<H>)
    requires e.Teardown? && Possible(st, e) && WellFormed(st) && AllAgree(st)
    ensures AllAgree(Step(st, e))
  {
    if Expires(st.conns[e.h], e.sessionExpiry) && !st.conns[e.h].takenOver {
      SessionEndAgrees(st, e);
    } else {
      assert forall id :: SessionSubs(Step(st, e), id) == SessionSubs(st, id);
    }
  }

  /**
   A connection ends its session when its version is 5 and its expiry interval is zero, or its
   version is before 5 and it was a clean one, unless it was taken over.  Then nothing of the client
   is left; otherwise neither the index nor Clients nor what the session holds is touched.
   */
  lemma TeardownExactly<H>(st: State<H>, e: Event<H>)
    requires e.Teardown? && Possible(st, e) && WellFormed(st) && AllAgree(st)
    ensures var conn, after := st.conns[e.h], Step(st, e);
            if !conn.takenOver
               && ((conn.version == 5 && e.sessionExpiry == 0) || (conn.version < 5 && conn.clean)) then
              && conn.id !in after.clients && after.conns[e.h].subs == map[]
              && forall key :: Lookup(after.contents, conn.id, key).None?
            else
              && after.contents == st.contents && after.clients == st.clients
              && after.conns[e.h] == conn.(ended := true)
  {
    var conn, after := st.conns[e.h], Step(st, e);
    TeardownAgrees(st, e);
    AgreesAt(after, conn.id);
  }

  /**
   A filter is subscribed to exactly when it is valid, the access check grants it, and it is not both
   shared and asked without the client's own messages; otherwise nothing changes.
   */
  lemma SubscribeExactly<H>(st: State<H>, e: Event<H>)
    requires e.Subscribe? && Possible(st, e)
    ensures var conn, f, after := st.conns[e.h], e.sub.filter, Step(st, e);
            if e.granted && IsValidFilter(f, false) && !(e.sub.noLocal && Fold(Split(f)[0]) == "$share") then
              && after.conns == st.conns[e.h := conn.(subs := conn.subs[f := e.sub])]
              && Lookup(after.contents, conn.id, KeyOf(f)) == Some(e.sub)
            else
              after == st
  {
    var id := st.conns[e.h].id;
    ShareWordIsFolded(Split(e.sub.filter)[0]);
    LookupAfterSubscribe(st.contents, KeyOf(e.sub.filter), id, e.sub, id, KeyOf(e.sub.filter));
  }

  /** The end of a taken over connection touches neither the index, nor Clients, nor any session. */
  lemma TeardownOfTakenOver<H>(st: State<H>, e: Event<H>)
    requires e.Teardown? && Possible(st, e) && st.conns[e.h].takenOver
    ensures var after := Step(st, e);
            && after.contents == st.contents && after.clients == st.clients
            && (forall h | h in st.conns && h != e.h :: h in after.conns && after.conns[h] == st.conns[h])
            && (forall id :: SessionSubs(after, id) == SessionSubs(st, id))
  {
  }

  // ---------- Where agreement is lost ----------

  /**
   A connection that still subscribes after it was taken over breaks agreement, unless its
   successor holds that very subscription.
   */
  lemma StaleSubscribe<H>(st: State<H>, e: Event<H>)
    requires e.Subscribe? && Possible(st, e) && WellFormed(st) && AllAgree(st)
    requires !Current(st, e.h) && Accepts(e.sub, e.granted)
    ensures var s := SessionSubs(st, st.conns[e.h].id);
            AllAgree(Step(st, e)) <==> e.sub.filter in s && s[e.sub.filter] == e.sub
  {
    var id := st.conns[e.h].id;
    AgreesAt(st, id);
    StaleKeepsSessions(st, e);
    SubscribeAgrees(st.contents, id, SessionSubs(st, id), e.sub);
    OthersAgree(st, Step(st, e), id);
  }

  /** A connection that is not in Clients changes no session. */
  lemma StaleKeepsSessions<H>(st: State<H>, e: Event<H>)
    requires (e.Subscribe? || e.Unsubscribe?) && Possible(st, e) && WellFormed(st) && !Current(st, e.h)
    ensures forall id :: SessionSubs(Step(st, e), id) == SessionSubs(st, id)
  {
  }

  /** A stale unsubscription breaks agreement exactly when the successor holds that key. */
  lemma StaleUnsubscribe<H>(st: State<H>, e: Event<H>)
    requires e.Unsubscribe? && Possible(st, e) && WellFormed(st) && AllAgree(st)
    requires !Current(st, e.h) && e.granted
    ensures AllAgree(Step(st, e)) <==>
            !exists f :: f in SessionSubs(st, st.conns[e.h].id) && KeyOf(f) == KeyOf(e.filter)
  {
    var id := st.conns[e.h].id;
    AgreesAt(st, id);
    StaleKeepsSessions(st, e);
    UnsubscribeAgrees(st.contents, id, SessionSubs(st, id), e.filter);
    OthersAgree(st, Step(st, e), id);
  }

  /** Session expiry deletes the client but leaves its subscriptions in the index. */
  lemma ExpiryLeaks<H>(st: State<H>, id: ClientId)
    requires WellFormed(st) && AllAgree(st)
    ensures AllAgree(Step(st, Expire(id))) <==> SessionSubs(st, id) == map[]
  {
    var after := Step(st, Expire(id));
    assert SessionSubs(after, id) == map[];
    OthersAgree(st, after, id);
    if f :| f in SessionSubs(st, id) {
      assert Lookup(st.contents, id, KeyOf(f)).Some?;
    } else {
      assert SessionSubs(st, id).Keys == {};
    }
  }

  // ---------- Runs ----------

  /** A valid filter, with its share prefix spelled in one way. */
  predicate Spelled(filter: string, word: string) {
    IsValidFilter(filter, false) && (IsSharedFilter(filter) ==> Split(filter)[0] == word)
  }

  ghost predicate AllSpelled(subs: Subs, word: string) {
    forall f | f in subs :: Spelled(f, word)
  }

  ghost predicate SessionsSpelled<H>(st: State<H>, word: string) {
    forall h | h in st.conns :: AllSpelled(st.conns[h].subs, word)
  }

  lemma SpelledNotConfused(subs: Subs, filter: string, word: string)
    requires AllSpelled(subs, word) && Spelled(filter, word)
    ensures !Confused(subs, filter)
  {
    forall g | g in subs && KeyOf(g) == KeyOf(filter) ensures g == filter {
      KeyOfInjective(g, filter);
    }
  }

  /** Among valid filters, only another spelling of the share prefix gets in the way. */
  lemma ConfusedIsRespelled(subs: Subs, filter: string)
    requires IsValidFilter(filter, false) && forall f | f in subs :: IsValidFilter(f, false)
    ensures Confused(subs, filter) <==>
            exists g :: g in subs && g != filter && IsSharedFilter(g) && IsSharedFilter(filter)
                        && Split(g)[1..] == Split(filter)[1..]
  {
    forall g | g in subs ensures
      KeyOf(g) == KeyOf(filter) && g != filter <==>
      g != filter && IsSharedFilter(g) && IsSharedFilter(filter) && Split(g)[1..] == Split(filter)[1..]
    {
      KeyOfInjective(g, filter);
    }
  }

  /**
   Unsubscribing is not validated: the invalid filter "$share/g" takes the key of "$share/g/g"
   away from a session that keeps the filter.
   */
  lemma ShortFilterConfuses(subs: Subs, word: string, group: string)
    requires IsShareWord(word) && '/' !in word && '/' !in group
    requires word + "/" + (group + "/" + group) in subs
    ensures !IsValidFilter(word + "/" + group, false) && Confused(subs, word + "/" + group)
  {
    var short, long := word + "/" + group, word + "/" + (group + "/" + group);
    FirstSeparator(word, group);
    FirstSeparator(word, group + "/" + group);
    FirstSeparator(group, group);
    assert Split(group) == [group];
    assert Split(short) == [word, group] && Split(long) == [word, group, group];
    KeyOfShort(short, long, word, group);
    assert |short| != |long|;
  }

  lemma KeyOfShort(short: string, long: string, word: string, group: string)
    requires IsShareWord(word) && Split(short) == [word, group] && Split(long) == [word, group, group]
    ensures KeyOf(short) == Shared(group, [group]) && KeyOf(long) == Shared(group, [group])
    ensures !IsValidFilter(short, false)
  {
    assert Split(long)[2..] == [group];
  }

  /** One event of a run: no handler of a replaced connection, no session expiry, spelled filters. */
  ghost predicate Orderly<H>(st: State<H>, e: Event<H>, word: string) {
    && Possible(st, e)
    && !e.Expire?
    && (e.Subscribe? ==> Current(st, e.h) && Spelled(e.sub.filter, word))
    && (e.Unsubscribe? ==> Current(st, e.h) && Spelled(e.filter, word))
  }

  ghost predicate OrderlyRun<H>(st: State<H>, events: seq<Event<H>>, word: string)
    decreases |events|
  {
    events == [] || (Orderly(st, events[0], word) && OrderlyRun(Step(st, events[0]), events[1..], word))
  }

  ghost function Run<H>(st: State<H>, events: seq<Event<H>>, word: string): State<H>
    requires OrderlyRun(st, events, word)
    decreases |events|
  {
    if events == [] then st else Run(Step(st, events[0]), events[1..], word)
  }

  ghost predicate InStep<H>(st: State<H>, word: string) {
    WellFormed(st) && AllAgree(st) && SessionsSpelled(st, word)
  }

  lemma StepSpelled<H>(st: State<H>, e: Event<H>, word: string)
    requires Orderly(st, e, word) && WellFormed(st) && SessionsSpelled(st, word)
    ensures SessionsSpelled(Step(st, e), word)
  {
    if e.Connect? && e.conn.id in st.clients {
      CopyIsSession(st.conns[st.clients[e.conn.id]].subs, e.order);
    }
  }

  lemma StepAgrees<H>(st: State<H>, e: Event<H>, word: string)
    requires Orderly(st, e, word) && InStep(st, word)
    ensures InStep(Step(st, e), word)
  {
    StepSpelled(st, e, word);
    StepWellFormed(st, e);
    match e
    case Connect(_, _, _, _) => ConnectAgrees(st, e);
    case Subscribe(h, sub, granted) =>
      if Accepts(sub, granted) {
        SpelledNotConfused(st.conns[h].subs, sub.filter, word);
        SubscribeKeeps(st, e);
      }
    case Unsubscribe(h, filter, granted) =>
      if granted {
        SpelledNotConfused(st.conns[h].subs, filter, word);
        UnsubscribeKeeps(st, e);
      }
    case Teardown(_, _, _) => TeardownAgrees(st, e);
  }

  /**
   After every run of connects, takeovers, clean starts, subscriptions, unsubscriptions and
   teardowns, in any interleaving, the index holds for every client id exactly the subscriptions
   of the session now in Clients.
   */
  lemma {:induction false} IndexFollowsSessions<H>(st: State<H>, events: seq<Event<H>>, word: string)
    requires InStep(st, word) && OrderlyRun(st, events, word)
    ensures InStep(Run(st, events, word), word)
    decreases |events|
  {
    if events != [] {
      StepAgrees(st, events[0], word);
      IndexFollowsSessions(Step(st, events[0]), events[1..], word);
    }
  }

  function FreshBroker<H>(): State<H> {
    State(map[], map[], map[])
  }

  /** The same from a broker that has just started. */
  lemma FreshIndexFollowsSessions<H>(events: seq<Event<H>>, word: string, id: ClientId, f: string)
    requires OrderlyRun(FreshBroker(), events, word)
    ensures var st := Run(FreshBroker(), events, word);
            && WellFormed(st) && AllAgree(st)
            && (f in SessionSubs(st, id) ==> Lookup(st.contents, id, KeyOf(f)) == Some(SessionSubs(st, id)[f]))
            && (forall key :: Lookup(st.contents, id, key).Some? <==>
                              exists g :: g in SessionSubs(st, id) && KeyOf(g) == key)
  {
    assert InStep(FreshBroker<H>(), word);
    IndexFollowsSessions(FreshBroker(), events, word);
    AgreesAt(Run(FreshBroker(), events, word), id);
  }

  // ---------- Delivery ----------

  lemma AgreementFiles<H>(st: State<H>)
    requires WellFormed(st) && AllAgree(st)
    ensures Filed(st.contents)
  {
    forall id, key | Lookup(st.contents, id, key).Some?
      ensures KeyOf(Lookup(st.contents, id, key).value.filter) == key
    {
      AgreesAt(st, id);
      var f :| f in SessionSubs(st, id) && KeyOf(f) == key;
      assert SessionSubs(st, id)[f].filter == f;
    }
  }

  /**
   In every reachable state a message on a topic is gathered for a client id with exactly the
   matching non-shared subscriptions of the session now in Clients: nothing of a replaced or ended
   session, and nothing for an id without one.
   */
  lemma DeliveryFollowsSessions<H>(st: State<H>, word: string, topic: string, id: ClientId, sub: Subscription)
    requires InStep(st, word) && topic != ""
    ensures sub in MatchingSubs(st.contents, topic, id) <==>
            && sub.filter in SessionSubs(st, id) && SessionSubs(st, id)[sub.filter] == sub
            && KeyOf(sub.filter).Plain? && Matches(KeyOf(sub.filter).path, Split(topic)) && !Excluded(topic, sub.filter)
  {
    AgreementFiles(st);
    AgreesAt(st, id);
    MatchingIsLookup(st.contents, topic, id, sub);
    HeldIsSession(st.contents, id, SessionSubs(st, id), sub);
  }

  /** A shared filter is offered exactly the sessions now in Clients that hold it and match. */
  lemma SharedFollowsSessions<H>(st: State<H>, word: string, topic: string, id: ClientId, sub: Subscription)
    requires InStep(st, word)
    ensures MatchingShared(st.contents, topic, sub, id) <==>
            && sub.filter in SessionSubs(st, id) && SessionSubs(st, id)[sub.filter] == sub
            && KeyOf(sub.filter).Shared? && Matches(KeyOf(sub.filter).path, Split(topic))
  {
    AgreesAt(st, id);
    HeldIsSession(st.contents, id, SessionSubs(st, id), sub);
  }

  /** From a fresh broker, over any orderly run: who a message on a topic is gathered for. */
  lemma FreshDelivery<H>(events: seq<Event<H>>, word: string, topic: string, id: ClientId, sub: Subscription)
    requires OrderlyRun(FreshBroker(), events, word) && topic != ""
    ensures var st := Run(FreshBroker(), events, word);
            sub in MatchingSubs(st.contents, topic, id) || MatchingShared(st.contents, topic, sub, id) <==>
            && sub.filter in SessionSubs(st, id) && SessionSubs(st, id)[sub.filter] == sub
            && Matches(KeyOf(sub.filter).path, Split(topic))
            && (KeyOf(sub.filter).Plain? ==> !Excluded(topic, sub.filter))
  {
    var st := Run(FreshBroker(), events, word);
    assert InStep(FreshBroker<H>(), word);
    IndexFollowsSessions(FreshBroker(), events, word);
    DeliveryFollowsSessions(st, word, topic, id, sub);
    SharedFollowsSessions(st, word, topic, id, sub);
  }

  lemma HeldIsSession(c: Contents, id: ClientId, subs: Subs, sub: Subscription)
    requires Agrees(c, id, subs) && OwnFilters(subs)
    ensures Lookup(c, id, KeyOf(sub.filter)) == Some(sub) <==> sub.filter in subs && subs[sub.filter] == sub
  {
    var key := KeyOf(sub.filter);
    if Lookup(c, id, key) == Some(sub) {
      var f :| f in subs && KeyOf(f) == key;
      assert Lookup(c, id, KeyOf(f)) == Some(subs[f]);
    }
  }
}
