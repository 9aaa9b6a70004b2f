/** Topic alias tables (broker/topics.go) and their use on both sides of a connection (broker/server.go). */
module TopicAliases {
  type uint16 = x: int | 0 <= x < 0x1_0000

  /** Aliases received from a peer. */
  class InboundTopicAliases {
    const maximum: uint16
    var internal: map<uint16, string>

    constructor (topicAliasMaximum: uint16)
      ensures maximum == topicAliasMaximum && internal == map[]
    {
      maximum, internal := topicAliasMaximum, map[];
    }

    /** Resolves an empty topic through its alias, or makes the alias stand for the topic. */
    method Set(id: uint16, topic: string) returns (r: string)
      modifies this
      ensures (internal, r) == InboundSet(maximum, old(internal), id, topic)
    {
      if maximum == 0 {
        return topic;
      }
      if id in internal && topic == "" {
        return internal[id];
      }
      internal := internal[id := topic];
      return topic;
    }
  }

  /** Aliases the broker has given out on a connection. */
  class OutboundTopicAliases {
    const maximum: uint16
    var internal: map<string, uint16>
    var cursor: nat

    constructor (topicAliasMaximum: uint16)
      ensures maximum == topicAliasMaximum && View() == Outbound(map[], 0)
    {
      maximum, internal, cursor := topicAliasMaximum, map[], 0;
    }

    ghost function View(): Outbound
      reads this
    {
      Outbound(internal, cursor)
    }

    /** The alias of a topic and whether it had one before; alias 0 when none is left. */
    method Set(topic: string) returns (alias: uint16, existed: bool)
      requires ValidOutbound(View(), maximum)
      modifies this
      ensures ValidOutbound(View(), maximum)
      ensures (View(), alias, existed) == OutboundSet(maximum, old(View()), topic)
    {
      if maximum == 0 {
        return 0, false;
      }
      if topic in internal {
        return internal[topic], true;
      }
      var i := cursor;
      if i + 1 > maximum {
        return 0, false;
      }
      OutboundStaysValid(maximum, View(), topic);
      internal := internal[topic := i + 1];
      cursor := i + 1;
      return i + 1, false;
    }
  }

  // ---------- Specification ----------

  function InboundSet(maximum: uint16, table: map<uint16, string>, id: uint16, topic: string)
    : (map<uint16, string>, string)
  {
    if maximum == 0 then (table, topic)
    else if id in table && topic == "" then (table, table[id])
    else (table[id := topic], topic)
  }

  datatype Outbound = Outbound(internal: map<string, uint16>, cursor: nat)

  /** Aliases are injective and are exactly 1..cursor, which counts them and stays within the maximum. */
  ghost predicate ValidOutbound(o: Outbound, maximum: uint16) {
    && o.cursor == |o.internal| <= maximum
    && (forall t | t in o.internal :: 1 <= o.internal[t] <= o.cursor)
    && (forall s, t | s in o.internal && t in o.internal && o.internal[s] == o.internal[t] :: s == t)
  }

  function OutboundSet(maximum: uint16, o: Outbound, topic: string): (Outbound, uint16, bool)
    requires o.cursor <= maximum
  {
    if maximum == 0 then (o, 0, false)
    else if topic in o.internal then (o, o.internal[topic], true)
    else if o.cursor + 1 > maximum then (o, 0, false)
    else (Outbound(o.internal[topic := o.cursor + 1], o.cursor + 1), o.cursor + 1, false)
  }

  lemma OutboundStaysValid(maximum: uint16, o: Outbound, topic: string)
    requires ValidOutbound(o, maximum)
    ensures ValidOutbound(OutboundSet(maximum, o, topic).0, maximum)
  {
  }

  /** A publish as far as aliases matter: alias 0 stands for no alias property. */
  datatype Sent = Sent(topicName: string, alias: uint16)

  /** What publishToClient sends: a known alias replaces the topic, a new one goes with it. */
  function SendOne(maximum: uint16, o: Outbound, topic: string): (Outbound, Sent)
    requires o.cursor <= maximum
  {
    if maximum > 0 then
      var (after, alias, existed) := OutboundSet(maximum, o, topic);
      (after, Sent(if alias > 0 && existed then "" else topic, alias))
    else (o, Sent(topic, 0))
  }

  function Send(maximum: uint16, o: Outbound, topics: seq<string>): (sent: seq<Sent>)
    requires o.cursor <= maximum
    ensures |sent| == |topics|
    decreases |topics|
  {
    if topics == [] then []
    else
      var (after, pk) := SendOne(maximum, o, topics[0]);
      [pk] + Send(maximum, after, topics[1..])
  }

  /** What processPublish makes of a publish. */
  function ReceiveOne(maximum: uint16, table: map<uint16, string>, pk: Sent): (map<uint16, string>, string) {
    if pk.alias > 0 then InboundSet(maximum, table, pk.alias, pk.topicName) else (table, pk.topicName)
  }

  function Receive(maximum: uint16, table: map<uint16, string>, sent: seq<Sent>): (topics: seq<string>)
    decreases |sent|
  {
    if sent == [] then []
    else
      var (after, topic) := ReceiveOne(maximum, table, sent[0]);
      [topic] + Receive(maximum, after, sent[1..])
  }

  /** Both ends agree on every alias given out. */
  ghost predicate Agree(o: Outbound, table: map<uint16, string>) {
    && (forall t | t in o.internal :: o.internal[t] in table && table[o.internal[t]] == t)
    && (forall a | a in table :: 1 <= a <= o.cursor)
  }

  lemma AgreeOnNew(o: Outbound, table: map<uint16, string>, topic: string, a: uint16)
    requires Agree(o, table) && topic !in o.internal && a == o.cursor + 1
    requires forall t | t in o.internal :: o.internal[t] <= o.cursor
    ensures Agree(Outbound(o.internal[topic := a], a), table[a := topic])
  {
  }

  lemma AgreeStep(maximum: uint16, o: Outbound, table: map<uint16, string>, topic: string)
    requires ValidOutbound(o, maximum) && Agree(o, table)
    ensures var s := SendOne(maximum, o, topic);
            var r := ReceiveOne(maximum, table, s.1);
            ValidOutbound(s.0, maximum) && Agree(s.0, r.0) && r.1 == topic
  {
    OutboundStaysValid(maximum, o, topic);
    var s := SendOne(maximum, o, topic);
    var r := ReceiveOne(maximum, table, s.1);
    if maximum == 0 || topic in o.internal || o.cursor + 1 > maximum {
      assert s.0 == o;
    } else {
      AgreeOnNew(o, table, topic, o.cursor + 1);
    }
  }

  /**
   Delivered in order and without loss, every publish resolves to its own topic, however many
   topics there are and however small the alias maximum.
   */
  lemma {:induction false} AliasesRoundTrip(maximum: uint16, o: Outbound, table: map<uint16, string>,
      topics: seq<string>)
    requires ValidOutbound(o, maximum) && Agree(o, table)
    ensures Receive(maximum, table, Send(maximum, o, topics)) == topics
    decreases |topics|
  {
    if topics != [] {
      AgreeStep(maximum, o, table, topics[0]);
      var (after, pk) := SendOne(maximum, o, topics[0]);
      var (tableAfter, _) := ReceiveOne(maximum, table, pk);
      AliasesRoundTrip(maximum, after, tableAfter, topics[1..]);
      var rest := Send(maximum, after, topics[1..]);
      assert ([pk] + rest)[1..] == rest;
    }
  }

  /** A new connection starts in agreement. */
  lemma NewConnectionRoundTrip(maximum: uint16, topics: seq<string>)
    ensures Receive(maximum, map[], Send(maximum, Outbound(map[], 0), topics)) == topics
  {
    AliasesRoundTrip(maximum, Outbound(map[], 0), map[], topics);
  }

  // ---------- Told from the topics alone ----------

  /** The first publish on the topic of publish k, from publish i on. */
  function FirstFrom(topics: seq<string>, k: nat, i: nat): (r: nat)
    requires i <= k < |topics|
    ensures i <= r <= k && topics[r] == topics[k] && forall j | i <= j < r :: topics[j] != topics[k]
    decreases k - i
  {
    if topics[i] == topics[k] then i else FirstFrom(topics, k, i + 1)
  }

  /** The first publish on the topic of publish k. */
  function First(topics: seq<string>, k: nat): (r: nat)
    requires k < |topics|
    ensures r <= k && topics[r] == topics[k] && forall j | 0 <= j < r :: topics[j] != topics[k]
  {
    FirstFrom(topics, k, 0)
  }

  /** How many topics the first k publishes are on. */
  function TopicCount(topics: seq<string>, k: nat): nat
    requires k <= |topics|
  {
    if k == 0 then 0 else TopicCount(topics, k - 1) + if First(topics, k - 1) == k - 1 then 1 else 0
  }

  /** There was an alias left when the topic of publish k first came. */
  predicate HasAlias(maximum: uint16, topics: seq<string>, k: nat)
    requires k < |topics|
  {
    TopicCount(topics, First(topics, k)) < maximum
  }

  /** Publish i gives out an alias: it is the first on its topic, and fewer topics than the maximum came before. */
  predicate Opens(maximum: uint16, topics: seq<string>, i: nat)
    requires i < |topics|
  {
    First(topics, i) == i && HasAlias(maximum, topics, i)
  }

  /** Aliases are given out in the order in which topics first come. */
  function AliasOf(topics: seq<string>, k: nat): nat
    requires k < |topics|
  {
    TopicCount(topics, First(topics, k)) + 1
  }

  function Written(maximum: uint16, topics: seq<string>, k: nat): Sent
    requires k < |topics|
  {
    if !HasAlias(maximum, topics, k) then Sent(topics[k], 0)
    else Sent(if First(topics, k) == k then topics[k] else "", AliasOf(topics, k))
  }

  lemma {:induction false} TopicCountGrows(topics: seq<string>, i: nat, k: nat)
    requires i <= k <= |topics|
    ensures TopicCount(topics, i) <= TopicCount(topics, k)
  {
    if i < k {
      TopicCountGrows(topics, i, k - 1);
    }
  }

  lemma FirstIsFirst(topics: seq<string>, k: nat)
    requires k < |topics|
    ensures First(topics, First(topics, k)) == First(topics, k)
  {
  }

  /** Two topics never get the same alias. */
  lemma AliasTells(topics: seq<string>, i: nat, k: nat)
    requires i < |topics| && k < |topics|
    ensures AliasOf(topics, i) == AliasOf(topics, k) <==> First(topics, i) == First(topics, k)
  {
    var f, g := First(topics, i), First(topics, k);
    FirstIsFirst(topics, i);
    FirstIsFirst(topics, k);
    if f < g {
      TopicCountGrows(topics, f + 1, g);
    } else if g < f {
      TopicCountGrows(topics, g + 1, f);
    }
  }

  /** The outbound table of a new connection after its first k publishes. */
  ghost predicate TableTold(maximum: uint16, topics: seq<string>, k: nat, o: Outbound)
    requires k <= |topics|
  {
    && o.cursor == (if TopicCount(topics, k) < maximum then TopicCount(topics, k) else maximum)
    && (forall t | t in o.internal :: t in topics[..k])
    && (forall i | 0 <= i < k :: ToldAt(maximum, topics, i, o))
  }

  /** The topic of publish i has its alias, if it has one. */
  ghost predicate ToldAt(maximum: uint16, topics: seq<string>, i: nat, o: Outbound)
    requires i < |topics|
  {
    if HasAlias(maximum, topics, i) then topics[i] in o.internal && o.internal[topics[i]] == AliasOf(topics, i)
    else topics[i] !in o.internal
  }

  /** A topic that has come before changes nothing. */
  lemma ToldKnown(maximum: uint16, topics: seq<string>, k: nat, o: Outbound)
    requires k < |topics| && TableTold(maximum, topics, k, o) && First(topics, k) < k
    ensures SendOne(maximum, o, topics[k]) == (o, Written(maximum, topics, k))
    ensures ToldAt(maximum, topics, k, o) && !GivesNew(maximum, o, topics[k])
  {
    var f := First(topics, k);
    assert ToldAt(maximum, topics, f, o);
    FirstIsFirst(topics, k);
    TopicCountGrows(topics, f, k);
  }

  /** A new topic gets the next alias, while there is one. */
  lemma ToldNew(maximum: uint16, topics: seq<string>, k: nat, o: Outbound)
    requires k < |topics| && TableTold(maximum, topics, k, o) && First(topics, k) == k
    ensures var s := SendOne(maximum, o, topics[k]);
            && s.1 == Written(maximum, topics, k)
            && ToldAt(maximum, topics, k, s.0)
            && (GivesNew(maximum, o, topics[k]) <==> Opens(maximum, topics, k))
            && (forall i | 0 <= i < k :: ToldAt(maximum, topics, i, s.0))
  {
    assert topics[k] !in o.internal;
    forall i | 0 <= i < k
      ensures ToldAt(maximum, topics, i, SendOne(maximum, o, topics[k]).0)
    {
      assert ToldAt(maximum, topics, i, o);
      assert topics[i] != topics[k];
    }
  }

  lemma ToldMore(maximum: uint16, topics: seq<string>, k: nat, internal: set<string>, after: Outbound)
    requires k < |topics| && forall t | t in internal :: t in topics[..k]
    requires after.cursor == if TopicCount(topics, k + 1) < maximum then TopicCount(topics, k + 1) else maximum
    requires after.internal.Keys <= internal + {topics[k]}
    requires forall i | 0 <= i < k + 1 :: ToldAt(maximum, topics, i, after)
    ensures TableTold(maximum, topics, k + 1, after)
  {
    assert topics[..k + 1] == topics[..k] + [topics[k]];
    StillAmong(topics[..k], topics[k], internal, after.internal.Keys);
  }

  lemma StillAmong(prefix: seq<string>, last: string, internal: set<string>, more: set<string>)
    requires forall t | t in internal :: t in prefix
    requires more <= internal + {last}
    ensures forall t | t in more :: t in prefix + [last]
  {
  }

  lemma ToldNext(maximum: uint16, topics: seq<string>, k: nat, o: Outbound)
    requires k < |topics| && TableTold(maximum, topics, k, o)
    ensures GivesNew(maximum, o, topics[k]) <==> Opens(maximum, topics, k)
    ensures SendOne(maximum, o, topics[k]).1 == Written(maximum, topics, k)
    ensures TableTold(maximum, topics, k + 1, SendOne(maximum, o, topics[k]).0)
  {
    var after := SendOne(maximum, o, topics[k]).0;
    if First(topics, k) < k {
      ToldKnown(maximum, topics, k, o);
    } else {
      ToldNew(maximum, topics, k, o);
    }
    ToldMore(maximum, topics, k, o.internal.Keys, after);
  }

  lemma SentHead(maximum: uint16, topics: seq<string>, k: nat, o: Outbound) returns (after: Outbound)
    requires k < |topics| && TableTold(maximum, topics, k, o)
    ensures TableTold(maximum, topics, k + 1, after)
    ensures Send(maximum, o, topics[k..]) == [Written(maximum, topics, k)] + Send(maximum, after, topics[k + 1..])
  {
    ToldNext(maximum, topics, k, o);
    assert topics[k..][1..] == topics[k + 1..];
    after := SendOne(maximum, o, topics[k]).0;
  }

  /** What publishes look like from publish k on. */
  function WrittenFrom(maximum: uint16, topics: seq<string>, k: nat): (r: seq<Sent>)
    requires k <= |topics|
    ensures |r| == |topics| - k && forall j | 0 <= j < |r| :: r[j] == Written(maximum, topics, k + j)
    decreases |topics| - k
  {
    if k == |topics| then [] else [Written(maximum, topics, k)] + WrittenFrom(maximum, topics, k + 1)
  }

  /** A connection makes of its publishes what their topics tell, from any point on. */
  lemma {:induction false} SentFrom(maximum: uint16, topics: seq<string>, k: nat, o: Outbound)
    requires k <= |topics| && TableTold(maximum, topics, k, o)
    ensures Send(maximum, o, topics[k..]) == WrittenFrom(maximum, topics, k)
    decreases |topics| - k
  {
    if k < |topics| {
      var after := SentHead(maximum, topics, k, o);
      SentFrom(maximum, topics, k + 1, after);
    }
  }

  // ---------- Loss ----------

  /**
   An attempt to deliver a publish, which is sent at once or lost: publishToClient gives the alias
   out before it can still refuse or drop the publish.  Publishes held for send quota come below.
   */
  datatype Attempt = Attempt(topic: string, delivered: bool)

  /** What goes out over a connection that drops some publishes and holds none. */
  function SendLossy(maximum: uint16, o: Outbound, attempts: seq<Attempt>): (sent: seq<Sent>)
    requires o.cursor <= maximum
    decreases |attempts|
  {
    if attempts == [] then []
    else
      var (after, pk) := SendOne(maximum, o, attempts[0].topic);
      (if attempts[0].delivered then [pk] else []) + SendLossy(maximum, after, attempts[1..])
  }

  /** The topics of the publishes that were delivered. */
  function Arrived(attempts: seq<Attempt>): seq<string>
    decreases |attempts|
  {
    if attempts == [] then []
    else (if attempts[0].delivered then [attempts[0].topic] else []) + Arrived(attempts[1..])
  }

  predicate GivesNew(maximum: uint16, o: Outbound, topic: string) {
    topic !in o.internal && o.cursor < maximum
  }

  /** The lost topics after one more attempt. */
  function LostAfter(maximum: uint16, o: Outbound, lost: set<string>, a: Attempt): set<string> {
    if !a.delivered && GivesNew(maximum, o, a.topic) then lost + {a.topic} else lost
  }

  /** No delivered publish is on a topic whose alias-carrying publish was lost. */
  predicate Intact(maximum: uint16, o: Outbound, lost: set<string>, attempts: seq<Attempt>)
    requires o.cursor <= maximum
    decreases |attempts|
  {
    attempts == [] ||
    (var a := attempts[0];
     && (a.delivered ==> a.topic !in lost)
     && Intact(maximum, SendOne(maximum, o, a.topic).0, LostAfter(maximum, o, lost, a), attempts[1..]))
  }

  /** Both ends agree on every alias given out but those of the lost topics, which the peer never saw. */
  ghost predicate AgreeBut(o: Outbound, table: map<uint16, string>, lost: set<string>) {
    && lost <= o.internal.Keys
    && (forall t | t in o.internal && t !in lost :: o.internal[t] in table && table[o.internal[t]] == t)
    && (forall t | t in lost :: o.internal[t] !in table)
    && (forall a | a in table :: 1 <= a <= o.cursor)
  }

  predicate NonEmptyTopics(attempts: seq<Attempt>) {
    forall a | a in attempts :: a.topic != ""
  }

  /** A publish that arrives resolves to its topic exactly when the topic is not lost. */
  lemma DeliveredStep(maximum: uint16, o: Outbound, table: map<uint16, string>, lost: set<string>, topic: string)
    requires ValidOutbound(o, maximum) && AgreeBut(o, table, lost) && topic != ""
    ensures var s := SendOne(maximum, o, topic);
            var r := ReceiveOne(maximum, table, s.1);
            (r.1 == topic <==> topic !in lost) && (topic !in lost ==> AgreeBut(s.0, r.0, lost))
  {
    if maximum > 0 && topic !in lost && GivesNew(maximum, o, topic) {
      NewAliasArrives(o, table, lost, topic);
    }
  }

  lemma NewAliasArrives(o: Outbound, table: map<uint16, string>, lost: set<string>, topic: string)
    requires AgreeBut(o, table, lost) && topic !in o.internal
    requires forall t | t in o.internal :: o.internal[t] <= o.cursor
    requires o.cursor < 0xFFFF
    ensures AgreeBut(Outbound(o.internal[topic := o.cursor + 1], o.cursor + 1), table[o.cursor + 1 := topic], lost)
  {
  }

  lemma NewAliasIsLost(o: Outbound, table: map<uint16, string>, lost: set<string>, topic: string)
    requires AgreeBut(o, table, lost) && topic !in o.internal && o.cursor < 0xFFFF
    ensures AgreeBut(Outbound(o.internal[topic := o.cursor + 1], o.cursor + 1), table, lost + {topic})
  {
  }

  lemma DroppedStep(maximum: uint16, o: Outbound, table: map<uint16, string>, lost: set<string>, a: Attempt)
    requires ValidOutbound(o, maximum) && AgreeBut(o, table, lost) && !a.delivered
    ensures AgreeBut(SendOne(maximum, o, a.topic).0, table, LostAfter(maximum, o, lost, a))
  {
    if GivesNew(maximum, o, a.topic) {
      NewAliasIsLost(o, table, lost, a.topic);
    } else {
      assert SendOne(maximum, o, a.topic).0 == o;
    }
  }

  /**
   Whatever is lost: what arrives is what was delivered, resolved to its own topics, if and only if
   no delivered publish is on a topic whose alias-carrying publish was lost.
   */
  lemma {:induction false} LossyRoundTrip(maximum: uint16, o: Outbound, table: map<uint16, string>, lost: set<string>,
      attempts: seq<Attempt>)
    requires ValidOutbound(o, maximum) && AgreeBut(o, table, lost) && NonEmptyTopics(attempts)
    ensures Receive(maximum, table, SendLossy(maximum, o, attempts)) == Arrived(attempts) <==>
            Intact(maximum, o, lost, attempts)
    decreases |attempts|
  {
    if attempts != [] {
      var a, rest := attempts[0], attempts[1..];
      assert a in attempts && forall x | x in rest :: x in attempts;
      OutboundStaysValid(maximum, o, a.topic);
      var (after, pk) := SendOne(maximum, o, a.topic);
      var (tableAfter, topic) := ReceiveOne(maximum, table, pk);
      var more := SendLossy(maximum, after, rest);
      if a.delivered {
        DeliveredStep(maximum, o, table, lost, a.topic);
        ReceiveFirst(maximum, table, pk, more);
        FirstsAndRests(topic, Receive(maximum, tableAfter, more), a.topic, Arrived(rest));
        if a.topic !in lost {
          LossyRoundTrip(maximum, after, tableAfter, lost, rest);
        }
      } else {
        assert [] + more == more && [] + Arrived(rest) == Arrived(rest);
        DroppedStep(maximum, o, table, lost, a);
        LossyRoundTrip(maximum, after, table, LostAfter(maximum, o, lost, a), rest);
      }
    }
  }

  lemma ReceiveFirst(maximum: uint16, table: map<uint16, string>, pk: Sent, more: seq<Sent>)
    ensures Receive(maximum, table, [pk] + more) ==
            [ReceiveOne(maximum, table, pk).1] + Receive(maximum, ReceiveOne(maximum, table, pk).0, more)
  {
    assert ([pk] + more)[1..] == more;
  }

  lemma FirstsAndRests(x: string, s: seq<string>, y: string, t: seq<string>)
    ensures [x] + s == [y] + t <==> x == y && s == t
  {
    assert ([x] + s)[0] == x && ([x] + s)[1..] == s && ([y] + t)[0] == y && ([y] + t)[1..] == t;
  }

  // ---------- The same, as a caller can check it ----------

  function Topics(attempts: seq<Attempt>): seq<string> {
    seq(|attempts|, i requires 0 <= i < |attempts| => attempts[i].topic)
  }

  /** Attempt i loses the alias that attempt j then uses. */
  predicate Breaks(maximum: uint16, attempts: seq<Attempt>, i: nat, j: nat)
    requires i < j < |attempts|
  {
    && Opens(maximum, Topics(attempts), i) && !attempts[i].delivered
    && attempts[j].topic == attempts[i].topic && attempts[j].delivered
  }

  predicate LosesAlias(maximum: uint16, attempts: seq<Attempt>, i: nat, t: string) {
    i < |attempts| && Opens(maximum, Topics(attempts), i) && !attempts[i].delivered && attempts[i].topic == t
  }

  /** The topics that lost their alias in the first k attempts. */
  ghost predicate LostExactly(maximum: uint16, attempts: seq<Attempt>, k: nat, lost: set<string>) {
    forall t :: t in lost <==> exists i: nat :: i < k && LosesAlias(maximum, attempts, i, t)
  }

  lemma LostNext(maximum: uint16, attempts: seq<Attempt>, k: nat, lost: set<string>, next: set<string>)
    requires k < |attempts| && LostExactly(maximum, attempts, k, lost)
    requires next == if Opens(maximum, Topics(attempts), k) && !attempts[k].delivered then lost + {attempts[k].topic}
                     else lost
    ensures LostExactly(maximum, attempts, k + 1, next)
  {
    forall t ensures t in next <==> exists i: nat :: i < k + 1 && LosesAlias(maximum, attempts, i, t) {
      if t in lost {
        var i: nat :| i < k && LosesAlias(maximum, attempts, i, t);
        assert i < k + 1;
      } else if t in next {
        assert LosesAlias(maximum, attempts, k, t);
      }
    }
  }

  /** Attempt j uses no alias that an earlier attempt lost. */
  ghost predicate NoneBreaks(maximum: uint16, attempts: seq<Attempt>, j: nat)
    requires j < |attempts|
  {
    forall i | 0 <= i < j :: !Breaks(maximum, attempts, i, j)
  }

  lemma LostBreaks(maximum: uint16, attempts: seq<Attempt>, k: nat, lost: set<string>)
    requires k < |attempts| && LostExactly(maximum, attempts, k, lost)
    ensures (attempts[k].delivered ==> attempts[k].topic !in lost) <==> NoneBreaks(maximum, attempts, k)
  {
    var a := attempts[k];
    if a.delivered && a.topic in lost {
      var i: nat :| i < k && LosesAlias(maximum, attempts, i, a.topic);
      assert Breaks(maximum, attempts, i, k);
    }
    if i :| 0 <= i < k && Breaks(maximum, attempts, i, k) {
      assert LosesAlias(maximum, attempts, i, a.topic);
    }
  }

  ghost predicate NoneBreaksFrom(maximum: uint16, attempts: seq<Attempt>, k: nat)
    requires k <= |attempts|
    decreases |attempts| - k
  {
    k == |attempts| || (NoneBreaks(maximum, attempts, k) && NoneBreaksFrom(maximum, attempts, k + 1))
  }

  lemma {:induction false} NoneBreaksFromAll(maximum: uint16, attempts: seq<Attempt>, k: nat)
    requires k <= |attempts|
    ensures NoneBreaksFrom(maximum, attempts, k) <==> forall j | k <= j < |attempts| :: NoneBreaks(maximum, attempts, j)
    decreases |attempts| - k
  {
    if k < |attempts| {
      NoneBreaksFromAll(maximum, attempts, k + 1);
    }
  }

  lemma IntactHead(maximum: uint16, o: Outbound, lost: set<string>, attempts: seq<Attempt>, k: nat)
    requires k < |attempts| && o.cursor <= maximum
    ensures Intact(maximum, o, lost, attempts[k..]) <==>
            && (attempts[k].delivered ==> attempts[k].topic !in lost)
            && Intact(maximum, SendOne(maximum, o, attempts[k].topic).0, LostAfter(maximum, o, lost, attempts[k]),
                      attempts[k + 1..])
  {
    assert attempts[k..][0] == attempts[k] && attempts[k..][1..] == attempts[k + 1..];
  }

  /** Intact, in closed form: no alias is lost in one attempt and used in a later one. */
  lemma {:induction false} IntactFrom(maximum: uint16, attempts: seq<Attempt>, k: nat, o: Outbound, lost: set<string>)
    requires k <= |attempts| && TableTold(maximum, Topics(attempts), k, o) && LostExactly(maximum, attempts, k, lost)
    ensures Intact(maximum, o, lost, attempts[k..]) <==> NoneBreaksFrom(maximum, attempts, k)
    decreases |attempts| - k
  {
    if k < |attempts| {
      var after, next := IntactNext(maximum, attempts, k, o, lost);
      IntactFrom(maximum, attempts, k + 1, after, next);
    }
  }

  lemma IntactNext(maximum: uint16, attempts: seq<Attempt>, k: nat, o: Outbound, lost: set<string>)
    returns (after: Outbound, next: set<string>)
    requires k < |attempts| && TableTold(maximum, Topics(attempts), k, o) && LostExactly(maximum, attempts, k, lost)
    ensures TableTold(maximum, Topics(attempts), k + 1, after) && LostExactly(maximum, attempts, k + 1, next)
    ensures Intact(maximum, o, lost, attempts[k..]) <==>
            NoneBreaks(maximum, attempts, k) && Intact(maximum, after, next, attempts[k + 1..])
  {
    after, next := SendOne(maximum, o, attempts[k].topic).0, LostAfter(maximum, o, lost, attempts[k]);
    IntactHead(maximum, o, lost, attempts, k);
    LostBreaks(maximum, attempts, k, lost);
    ToldNext(maximum, Topics(attempts), k, o);
    LostNext(maximum, attempts, k, lost, next);
  }

  lemma NewIntact(maximum: uint16, attempts: seq<Attempt>)
    ensures Intact(maximum, Outbound(map[], 0), {}, attempts) <==>
            forall j | 0 <= j < |attempts| :: NoneBreaks(maximum, attempts, j)
  {
    IntactFrom(maximum, attempts, 0, Outbound(map[], 0), {});
    assert attempts[0..] == attempts;
    NoneBreaksFromAll(maximum, attempts, 0);
  }

  /**
   On a new connection that drops some publishes and holds none, every delivered one resolves to its own topic if
   and only if no dropped publish was the first on its topic, with an alias left for it, while a
   later publish on that topic was delivered.
   */
  lemma NewConnectionWithLoss(maximum: uint16, attempts: seq<Attempt>)
    requires NonEmptyTopics(attempts)
    ensures Receive(maximum, map[], SendLossy(maximum, Outbound(map[], 0), attempts)) == Arrived(attempts) <==>
            forall j | 0 <= j < |attempts| :: NoneBreaks(maximum, attempts, j)
  {
    LossyRoundTrip(maximum, Outbound(map[], 0), map[], {}, attempts);
    NewIntact(maximum, attempts);
  }

  /** The smallest case: the publish that carried the alias is dropped, the next one resolves to nothing. */
  lemma LostAliasResolvesToNothing(maximum: uint16, topic: string)
    requires maximum > 0
    ensures Receive(maximum, map[],
                    SendLossy(maximum, Outbound(map[], 0), [Attempt(topic, false), Attempt(topic, true)]))
            == [""]
  {
    var o := Outbound(map[], 0);
    var attempts := [Attempt(topic, false), Attempt(topic, true)];
    var first := SendOne(maximum, o, topic);
    assert attempts[1..] == [Attempt(topic, true)] && attempts[1..][1..] == [];
    assert SendLossy(maximum, first.0, attempts[1..]) == [Sent("", 1)];
    assert [] + [Sent("", 1)] == [Sent("", 1)] && [Sent("", 1)][1..] == [];
  }

  // ---------- Aliases from any peer ----------

  /** The table after a peer's publishes with aliases, whatever they were. */
  function Table(maximum: uint16, table: map<uint16, string>, sent: seq<Sent>): map<uint16, string>
    decreases |sent|
  {
    if sent == [] then table else Table(maximum, ReceiveOne(maximum, table, sent[0]).0, sent[1..])
  }

  /** The last non-empty topic sent with an alias, or the empty topic. */
  function LastNamed(sent: seq<Sent>, alias: uint16): string {
    if sent == [] then ""
    else
      var pk := sent[|sent| - 1];
      if pk.alias == alias && pk.topicName != "" then pk.topicName else LastNamed(sent[..|sent| - 1], alias)
  }

  lemma {:induction false} TableLast(maximum: uint16, table: map<uint16, string>, sent: seq<Sent>, pk: Sent)
    ensures Table(maximum, table, sent + [pk]) == ReceiveOne(maximum, Table(maximum, table, sent), pk).0
    decreases |sent|
  {
    if sent == [] {
      assert [] + [pk] == [pk] && [pk][1..] == [];
    } else {
      assert (sent + [pk])[1..] == sent[1..] + [pk];
      TableLast(maximum, ReceiveOne(maximum, table, sent[0]).0, sent[1..], pk);
    }
  }

  /** An alias stands for the last topic it was sent with; an unknown one resolves to the empty topic. */
  lemma {:induction false} AliasIsLastNamed(maximum: uint16, sent: seq<Sent>, alias: uint16)
    requires maximum > 0 && alias > 0
    ensures ReceiveOne(maximum, Table(maximum, map[], sent), Sent("", alias)).1 == LastNamed(sent, alias)
  {
    if sent != [] {
      var before, pk := sent[..|sent| - 1], sent[|sent| - 1];
      assert sent == before + [pk];
      TableLast(maximum, map[], before, pk);
      AliasIsLastNamed(maximum, before, alias);
    }
  }

  lemma {:induction false} ReceivedAt(maximum: uint16, table: map<uint16, string>, sent: seq<Sent>, j: nat)
    requires j < |sent|
    ensures |Receive(maximum, table, sent)| == |sent|
    ensures Receive(maximum, table, sent)[j] == ReceiveOne(maximum, Table(maximum, table, sent[..j]), sent[j]).1
    decreases |sent|
  {
    var after := ReceiveOne(maximum, table, sent[0]).0;
    if j > 0 {
      ReceivedAt(maximum, after, sent[1..], j - 1);
      assert sent[1..][..j - 1] == sent[..j][1..];
    } else if |sent| > 1 {
      ReceivedAt(maximum, after, sent[1..], 0);
    }
  }

  lemma {:induction false} ReceivedLength(maximum: uint16, table: map<uint16, string>, sent: seq<Sent>)
    ensures |Receive(maximum, table, sent)| == |sent|
    decreases |sent|
  {
    if sent != [] {
      ReceivedLength(maximum, ReceiveOne(maximum, table, sent[0]).0, sent[1..]);
    }
  }

  /** A publish that needs its alias to be resolved. */
  predicate Blank(pk: Sent) {
    pk.topicName == "" && pk.alias > 0
  }

  /** Publishes that carry their topics, or an alias in place of them. */
  predicate Carry(sent: seq<Sent>, topics: seq<string>) {
    |sent| == |topics| && forall j | 0 <= j < |sent| :: Blank(sent[j]) || sent[j].topicName == topics[j]
  }

  /** The alias of publish j, if it needs one, was last named with the topic that is meant. */
  predicate Understood(sent: seq<Sent>, topics: seq<string>, j: nat)
    requires j < |sent| == |topics|
  {
    Blank(sent[j]) ==> LastNamed(sent[..j], sent[j].alias) == topics[j]
  }

  lemma ResolvesAt(maximum: uint16, sent: seq<Sent>, topics: seq<string>, j: nat)
    requires j < |sent| && Carry(sent, topics) && (maximum > 0 || sent[j].alias == 0)
    ensures |Receive(maximum, map[], sent)| == |sent|
    ensures Receive(maximum, map[], sent)[j] == topics[j] <==> Understood(sent, topics, j)
  {
    ReceivedAt(maximum, map[], sent, j);
    if Blank(sent[j]) {
      AliasIsLastNamed(maximum, sent[..j], sent[j].alias);
      assert sent[j] == Sent("", sent[j].alias);
    }
  }

  /**
   Whatever arrives on a connection, in whatever order and from wherever it was sent: it resolves to
   the topics that are meant if and only if every publish without its topic comes after one that
   named its alias, and the last one that did named that topic.
   */
  lemma ResolvesExactly(maximum: uint16, sent: seq<Sent>, topics: seq<string>)
    requires Carry(sent, topics) && (maximum == 0 ==> forall pk | pk in sent :: pk.alias == 0)
    ensures Receive(maximum, map[], sent) == topics <==>
            forall j | 0 <= j < |sent| :: Understood(sent, topics, j)
  {
    ReceivedLength(maximum, map[], sent);
    forall j | 0 <= j < |sent|
      ensures Receive(maximum, map[], sent)[j] == topics[j] <==> Understood(sent, topics, j)
    {
      assert sent[j] in sent;
      ResolvesAt(maximum, sent, topics, j);
    }
    SameSequence(Receive(maximum, map[], sent), topics);
  }

  lemma SameSequence<T>(s: seq<T>, t: seq<T>)
    requires |s| == |t|
    ensures s == t <==> forall j | 0 <= j < |t| :: s[j] == t[j]
  {
  }

  // ---------- Any order of arrival ----------

  /** What a new connection makes of its publishes. */
  function SendNew(maximum: uint16, topics: seq<string>): (sent: seq<Sent>)
    ensures |sent| == |topics|
  {
    Send(maximum, Outbound(map[], 0), topics)
  }

  lemma SentIsWritten(maximum: uint16, topics: seq<string>, k: nat)
    requires k < |topics|
    ensures SendNew(maximum, topics)[k] == Written(maximum, topics, k)
  {
    assert topics[0..] == topics;
    SentFrom(maximum, topics, 0, Outbound(map[], 0));
  }

  predicate Among(order: seq<nat>, n: nat) {
    forall j | 0 <= j < |order| :: order[j] < n
  }

  function Pick<T>(s: seq<T>, order: seq<nat>): seq<T>
    requires Among(order, |s|)
  {
    seq(|order|, j requires 0 <= j < |order| => s[order[j]])
  }

  /** The publish that named the alias of arrival j arrived before it, or is it. */
  predicate NamedBefore(maximum: uint16, topics: seq<string>, order: seq<nat>, j: nat)
    requires j < |order| && order[j] < |topics|
  {
    topics[order[j]] != "" && HasAlias(maximum, topics, order[j]) ==> First(topics, order[j]) in order[..j + 1]
  }

  /** An alias is named by the first publish on its topic, once that has arrived, and by no other. */
  lemma {:induction false} LastNamedInOrder(maximum: uint16, topics: seq<string>, order: seq<nat>, k: nat)
    requires Among(order, |topics|) && k < |topics| && HasAlias(maximum, topics, k)
    ensures LastNamed(Pick(SendNew(maximum, topics), order), AliasOf(topics, k)) ==
            if First(topics, k) in order then topics[k] else ""
    decreases |order|
  {
    if order != [] {
      var before, i := order[..|order| - 1], order[|order| - 1];
      assert order == before + [i];
      var sent := SendNew(maximum, topics);
      assert Pick(sent, order)[..|order| - 1] == Pick(sent, before);
      LastNamedInOrder(maximum, topics, before, k);
      SentIsWritten(maximum, topics, i);
      AliasTells(topics, i, k);
    }
  }

  lemma ArrivalUnderstood(maximum: uint16, topics: seq<string>, order: seq<nat>, j: nat)
    requires Among(order, |topics|) && j < |order|
    ensures var sent := Pick(SendNew(maximum, topics), order);
            && (Blank(sent[j]) || sent[j].topicName == topics[order[j]])
            && (maximum == 0 ==> sent[j].alias == 0)
            && (Understood(sent, Pick(topics, order), j) <==> NamedBefore(maximum, topics, order, j))
  {
    var k := order[j];
    SentIsWritten(maximum, topics, k);
    assert order[..j + 1] == order[..j] + [k];
    assert Pick(SendNew(maximum, topics), order)[..j] == Pick(SendNew(maximum, topics), order[..j]);
    if HasAlias(maximum, topics, k) {
      LastNamedInOrder(maximum, topics, order[..j], k);
    }
  }

  /**
   The publishes of a connection may arrive in any order, some of them late, some never, some more
   than once: they resolve to their own topics if and only if every arrival on a topic with an alias
   comes after the arrival of the publish that named the alias, or is that arrival.
   */
  lemma ArrivalRoundTrip(maximum: uint16, topics: seq<string>, order: seq<nat>)
    requires Among(order, |topics|)
    ensures Receive(maximum, map[], Pick(SendNew(maximum, topics), order)) == Pick(topics, order) <==>
            forall j | 0 <= j < |order| :: NamedBefore(maximum, topics, order, j)
  {
    var sent := Pick(SendNew(maximum, topics), order);
    forall j | 0 <= j < |order|
      ensures Blank(sent[j]) || sent[j].topicName == topics[order[j]]
      ensures maximum == 0 ==> sent[j].alias == 0
      ensures Understood(sent, Pick(topics, order), j) <==> NamedBefore(maximum, topics, order, j)
    {
      ArrivalUnderstood(maximum, topics, order, j);
    }
    ResolvesExactly(maximum, sent, Pick(topics, order));
  }

  // ---------- Held publishes ----------

  /** What becomes of a publish: sent at once, held for send quota, or lost (refused or dropped). */
  datatype Fate = AtOnce | Held | Lost

  /** publishToClient is called, or a held publish is released, and written unless that fails. */
  datatype Move = Publish(topic: string, fate: Fate) | Release(index: nat, written: bool)

  /** A connection with its table, the publishes it holds, and what it has written. */
  datatype Link = Link(aliases: Outbound, made: nat, held: map<nat, Sent>, wire: seq<Sent>)

  function MoveOne(maximum: uint16, l: Link, m: Move): (r: Link)
    requires l.aliases.cursor <= maximum
    ensures r.aliases.cursor <= maximum
  {
    match m
    case Publish(topic, fate) =>
      var (after, pk) := SendOne(maximum, l.aliases, topic);
      Link(after, l.made + 1, if fate == Held then l.held[l.made := pk] else l.held,
           if fate == AtOnce then l.wire + [pk] else l.wire)
    case Release(index, written) =>
      if index !in l.held then l
      else l.(held := l.held - {index}, wire := if written then l.wire + [l.held[index]] else l.wire)
  }

  function Moves(maximum: uint16, moves: seq<Move>): (l: Link)
    ensures l.aliases.cursor <= maximum
  {
    if moves == [] then Link(Outbound(map[], 0), 0, map[], [])
    else MoveOne(maximum, Moves(maximum, moves[..|moves| - 1]), moves[|moves| - 1])
  }

  /** The topics of all publishes, in the order in which aliases are given out. */
  function Published(moves: seq<Move>): seq<string> {
    if moves == [] then []
    else
      var m := moves[|moves| - 1];
      Published(moves[..|moves| - 1]) + if m.Publish? then [m.topic] else []
  }

  /** The publishes that are held. */
  function Waiting(moves: seq<Move>): (ks: set<nat>)
    ensures forall k | k in ks :: k < |Published(moves)|
  {
    if moves == [] then {}
    else
      var before := moves[..|moves| - 1];
      match moves[|moves| - 1]
      case Publish(_, fate) => Waiting(before) + if fate == Held then {|Published(before)|} else {}
      case Release(index, _) => Waiting(before) - {index}
  }

  /** The publishes that are written, in the order in which they arrive. */
  function Order(moves: seq<Move>): (order: seq<nat>)
    ensures Among(order, |Published(moves)|)
  {
    if moves == [] then []
    else
      var before := moves[..|moves| - 1];
      match moves[|moves| - 1]
      case Publish(_, fate) => Order(before) + if fate == AtOnce then [|Published(before)|] else []
      case Release(index, written) => Order(before) + if written && index in Waiting(before) then [index] else []
  }

  /** The outbound table after some publishes. */
  function SentTable(maximum: uint16, o: Outbound, topics: seq<string>): (r: Outbound)
    requires o.cursor <= maximum
    ensures r.cursor <= maximum
    decreases |topics|
  {
    if topics == [] then o else SentTable(maximum, SendOne(maximum, o, topics[0]).0, topics[1..])
  }

  lemma {:induction false} SendMore(maximum: uint16, o: Outbound, topics: seq<string>, t: string)
    requires o.cursor <= maximum
    ensures var last := SendOne(maximum, SentTable(maximum, o, topics), t);
            && Send(maximum, o, topics + [t]) == Send(maximum, o, topics) + [last.1]
            && SentTable(maximum, o, topics + [t]) == last.0
    decreases |topics|
  {
    if topics == [] {
      assert [] + [t] == [t] && [t][1..] == [];
    } else {
      assert (topics + [t])[1..] == topics[1..] + [t];
      SendMore(maximum, SendOne(maximum, o, topics[0]).0, topics[1..], t);
    }
  }

  /** The connection's table is that of all its publishes, and what it holds are those that wait. */
  ghost predicate Tracks(maximum: uint16, l: Link, moves: seq<Move>) {
    var sent := SendNew(maximum, Published(moves));
    && l.made == |sent| && l.aliases == SentTable(maximum, Outbound(map[], 0), Published(moves))
    && l.held.Keys == Waiting(moves) && (forall k | k in l.held :: k < |sent| && l.held[k] == sent[k])
    && l.wire == Pick(sent, Order(moves))
  }

  /** What is written are the publishes as they were made, in their order of arrival. */
  lemma {:induction false} WireIsPicked(maximum: uint16, moves: seq<Move>)
    ensures Tracks(maximum, Moves(maximum, moves), moves)
  {
    if moves != [] {
      var before, m := moves[..|moves| - 1], moves[|moves| - 1];
      WireIsPicked(maximum, before);
      var sent, order := SendNew(maximum, Published(before)), Order(before);
      if m.Publish? {
        SendMore(maximum, Outbound(map[], 0), Published(before), m.topic);
        var all := SendNew(maximum, Published(moves));
        assert all[..|sent|] == sent;
        PickMore(sent, all, order, Order(moves));
      } else {
        assert Published(moves) == Published(before);
        PickMore(sent, sent, order, Order(moves));
      }
    }
  }

  lemma PickMore<T>(s: seq<T>, t: seq<T>, order: seq<nat>, more: seq<nat>)
    requires s <= t && order <= more && |more| <= |order| + 1 && Among(order, |s|) && Among(more, |t|)
    ensures Pick(t, more) == if |more| == |order| then Pick(s, order) else Pick(s, order) + [t[more[|order|]]]
  {
    forall j | 0 <= j < |order| ensures s[order[j]] == t[more[j]] {
      assert more[j] == order[j];
    }
  }

  /**
   A connection that refuses, drops, holds and releases publishes: what arrives resolves to its own
   topics if and only if every arrival on a topic with an alias comes after the arrival of the
   publish that named the alias, or is that arrival.
   */
  lemma HeldRoundTrip(maximum: uint16, moves: seq<Move>)
    ensures var topics, order := Published(moves), Order(moves);
            Receive(maximum, map[], Moves(maximum, moves).wire) == Pick(topics, order) <==>
            forall j | 0 <= j < |order| :: NamedBefore(maximum, topics, order, j)
  {
    WireIsPicked(maximum, moves);
    ArrivalRoundTrip(maximum, Published(moves), Order(moves));
  }

  /** Nothing need be lost: a held publish that named the alias is overtaken by the next one on its topic. */
  lemma HeldIsOvertaken(maximum: uint16, topic: string)
    requires maximum > 0
    ensures var l := Moves(maximum, [Publish(topic, Held), Publish(topic, AtOnce), Release(0, true)]);
            l.held == map[] && Receive(maximum, map[], l.wire) == ["", topic]
  {
    var moves := [Publish(topic, Held), Publish(topic, AtOnce), Release(0, true)];
    var one := moves[..1];
    assert one == [Publish(topic, Held)] && one[..0] == [] && moves[..2][..1] == one && moves[..3] == moves;
    assert Moves(maximum, one) == Link(Outbound(map[topic := 1], 1), 1, map[0 := Sent(topic, 1)], []);
    assert Moves(maximum, moves[..2]).wire == [Sent("", 1)];
    var l := Moves(maximum, moves);
    assert l.wire == [Sent("", 1)] + [Sent(topic, 1)];
    ReceiveFirst(maximum, map[], Sent("", 1), [Sent(topic, 1)]);
    var table := ReceiveOne(maximum, map[], Sent("", 1)).0;
    ReceiveFirst(maximum, table, Sent(topic, 1), []);
    assert [Sent(topic, 1)] + [] == [Sent(topic, 1)];
  }
}
