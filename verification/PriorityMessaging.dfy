/**
 The priority scheduler (broker/modules/routing/priority_messaging.go): three FIFO queues, strict
 priority, and promotion of entries that have waited too long.

 Each critical section under the hook's mutex is one event: a publish, a dequeue of the scheduler
 loop, or a tick of the ageing loop.
 */
module PriorityMessaging {
  import opened Wrappers

  datatype UserProperty = UserProperty(key: string, val: string)

  datatype Class = Urgent | High | Normal

  /** A queued packet; `priority` records the priority it was first queued under. */
  datatype Prioritized = Prioritized(
    client: string, user: seq<UserProperty>, payload: string, enqueued: int, priority: Class)

  const Processed := UserProperty("priority-processed", "true")

  datatype Config = Config(agingThresholdHigh: int, agingThresholdNormal: int)

  datatype Queues = Queues(urgent: seq<Prioritized>, high: seq<Prioritized>, normal: seq<Prioritized>)

  // ---------- Classification ----------

  /** The value of the last "priority" property, or "Normal". */
  function PriorityOf(user: seq<UserProperty>): string {
    if user == [] then "Normal"
    else if user[|user| - 1].key == "priority" then user[|user| - 1].val
    else PriorityOf(user[..|user| - 1])
  }

  /** Anything but "Urgent" and "High" is normal. */
  function ClassOf(user: seq<UserProperty>): Class {
    var p := PriorityOf(user);
    if p == "Urgent" then Urgent else if p == "High" then High else Normal
  }

  function Enqueue(q: Queues, pp: Prioritized): Queues {
    match pp.priority
    case Urgent => q.(urgent := q.urgent + [pp])
    case High => q.(high := q.high + [pp])
    case Normal => q.(normal := q.normal + [pp])
  }

  function Head(q: Queues): Option<Prioritized> {
    if q.urgent != [] then Some(q.urgent[0])
    else if q.high != [] then Some(q.high[0])
    else if q.normal != [] then Some(q.normal[0])
    else None
  }

  function Dequeue(q: Queues): Queues {
    if q.urgent != [] then q.(urgent := q.urgent[1..])
    else if q.high != [] then q.(high := q.high[1..])
    else if q.normal != [] then q.(normal := q.normal[1..])
    else q
  }

  /** The hook's answer to a publish: the queues after it, and whether the broker is to ignore it. */
  function Accept(q: Queues, client: string, user: seq<UserProperty>, payload: string, now: int): (Queues, bool) {
    if Processed in user then (q, false)
    else (Enqueue(q, Prioritized(client, user, payload, now, ClassOf(user))), true)
  }

  /** A packet as the scheduler hands it on, marked as processed. */
  function Marked(pp: Prioritized): Prioritized {
    pp.(user := pp.user + [Processed])
  }

  // ---------- Ageing ----------

  predicate IsStarved(pp: Prioritized, now: int, threshold: int) {
    now - pp.enqueued >= threshold
  }

  function Starved(s: seq<Prioritized>, now: int, threshold: int): seq<Prioritized> {
    if s == [] then []
    else
      var last := s[|s| - 1];
      Starved(s[..|s| - 1], now, threshold) + if IsStarved(last, now, threshold) then [last] else []
  }

  function Kept(s: seq<Prioritized>, now: int, threshold: int): seq<Prioritized> {
    if s == [] then []
    else
      var last := s[|s| - 1];
      Kept(s[..|s| - 1], now, threshold) + if IsStarved(last, now, threshold) then [] else [last]
  }

  /** A tick moves the starved normal entries, then the starved high ones, to the urgent queue. */
  function Promote(q: Queues, now: int, config: Config): Queues {
    Queues(
      q.urgent + Starved(q.normal, now, config.agingThresholdNormal) + Starved(q.high, now, config.agingThresholdHigh),
      Kept(q.high, now, config.agingThresholdHigh),
      Kept(q.normal, now, config.agingThresholdNormal))
  }

  class PriorityMessagingHook {
    const config: Config
    var urgent: seq<Prioritized>
    var high: seq<Prioritized>
    var normal: seq<Prioritized>

    constructor (config: Config)
      ensures this.config == config && View() == Queues([], [], [])
    {
      this.config := config;
      urgent, high, normal := [], [], [];
    }

    ghost function View(): Queues
      reads this
    {
      Queues(urgent, high, normal)
    }

    /**
     Queues a publish by priority and tells the broker to ignore it; a publish that the scheduler
     has already processed passes through.
     */
    method OnPublish(client: string, user: seq<UserProperty>, payload: string, now: int) returns (ignore: bool)
      modifies this
      ensures (View(), ignore) == Accept(old(View()), client, user, payload, now)
    {
      var priority := "Normal";
      for i := 0 to |user|
        invariant View() == old(View())
        invariant Processed !in user[..i]
        invariant priority == PriorityOf(user[..i])
      {
        var p := user[i];
        assert user[..i + 1] == user[..i] + [p];
        if p.key == "priority-processed" && p.val == "true" {
          return false;
        }
        if p.key == "priority" {
          priority := p.val;
        }
      }
      assert user[..|user|] == user;
      if priority == "Urgent" {
        urgent := urgent + [Prioritized(client, user, payload, now, Urgent)];
      } else if priority == "High" {
        high := high + [Prioritized(client, user, payload, now, High)];
      } else {
        normal := normal + [Prioritized(client, user, payload, now, Normal)];
      }
      ignore := true;
    }

    /** One round of the scheduler loop: takes the first entry of the first non-empty queue. */
    method TakeNext() returns (pp: Option<Prioritized>)
      modifies this
      ensures pp == Head(old(View())) && View() == Dequeue(old(View()))
    {
      pp := None;
      if |urgent| > 0 {
        pp := Some(urgent[0]);
        urgent := urgent[1..];
      } else if |high| > 0 {
        pp := Some(high[0]);
        high := high[1..];
      } else if |normal| > 0 {
        pp := Some(normal[0]);
        normal := normal[1..];
      }
    }

    /** Hands the next packet on to the subscribers, marked so that it is not queued again. */
    method Deliver() returns (out: Option<Prioritized>)
      modifies this
      ensures out == match Head(old(View())) case Some(pp) => Some(Marked(pp)) case None => None
      ensures View() == Dequeue(old(View()))
    {
      var next := TakeNext();
      out := None;
      if next.Some? {
        var pp := next.value;
        out := Some(pp.(user := pp.user + [UserProperty("priority-processed", "true")]));
      }
    }

    /** One tick of the ageing loop. */
    method Age(now: int)
      modifies this
      ensures View() == Promote(old(View()), now, config)
    {
      AgeNormal(now);
      AgeHigh(now);
    }

    /** Moves starved normal entries to the urgent queue. */
    method AgeNormal(now: int)
      modifies `urgent, `normal
      ensures urgent == old(urgent) + Starved(old(normal), now, config.agingThresholdNormal)
      ensures normal == Kept(old(normal), now, config.agingThresholdNormal)
    {
      var keepNormal: seq<Prioritized> := [];
      for i := 0 to |normal|
        invariant normal == old(normal)
        invariant urgent == old(urgent) + Starved(normal[..i], now, config.agingThresholdNormal)
        invariant keepNormal == Kept(normal[..i], now, config.agingThresholdNormal)
      {
        var pp := normal[i];
        assert normal[..i + 1][..i] == normal[..i];
        if now - pp.enqueued >= config.agingThresholdNormal {
          urgent := urgent + [pp];
        } else {
          keepNormal := keepNormal + [pp];
        }
      }
      assert normal[..|normal|] == normal;
      normal := keepNormal;
    }

    /** Moves starved high entries to the urgent queue. */
    method AgeHigh(now: int)
      modifies `urgent, `high
      ensures urgent == old(urgent) + Starved(old(high), now, config.agingThresholdHigh)
      ensures high == Kept(old(high), now, config.agingThresholdHigh)
    {
      var keepHigh: seq<Prioritized> := [];
      for i := 0 to |high|
        invariant high == old(high)
        invariant urgent == old(urgent) + Starved(high[..i], now, config.agingThresholdHigh)
        invariant keepHigh == Kept(high[..i], now, config.agingThresholdHigh)
      {
        var pp := high[i];
        assert high[..i + 1][..i] == high[..i];
        if now - pp.enqueued >= config.agingThresholdHigh {
          urgent := urgent + [pp];
        } else {
          keepHigh := keepHigh + [pp];
        }
      }
      assert high[..|high|] == high;
      high := keepHigh;
    }
  }

  /** A packet the scheduler handed on is let through, and leaves the queues alone, should it come back. */
  lemma DeliveredPassesThrough(q: Queues, pp: Prioritized, now: int)
    ensures Accept(q, Marked(pp).client, Marked(pp).user, Marked(pp).payload, now) == (q, false)
  {
    assert Marked(pp).user[|pp.user|] == Processed;
  }

  /** A publish goes to the end of the queue that its last "priority" property names. */
  lemma AcceptedByPriority(q: Queues, client: string, user: seq<UserProperty>, payload: string, now: int, last: nat)
    requires UserProperty("priority-processed", "true") !in user
    requires last < |user| && user[last].key == "priority"
    requires forall j | last < j < |user| :: user[j].key != "priority"
    ensures var (after, ignore) := Accept(q, client, user, payload, now);
            && ignore
            && if user[last].val == "Urgent" then
                 after == q.(urgent := q.urgent + [Prioritized(client, user, payload, now, Urgent)])
               else if user[last].val == "High" then
                 after == q.(high := q.high + [Prioritized(client, user, payload, now, High)])
               else
                 after == q.(normal := q.normal + [Prioritized(client, user, payload, now, Normal)])
  {
    LastPriority(user, last);
  }

  /** Without one it is normal. */
  lemma AcceptedAsNormal(q: Queues, client: string, user: seq<UserProperty>, payload: string, now: int)
    requires UserProperty("priority-processed", "true") !in user && forall p | p in user :: p.key != "priority"
    ensures Accept(q, client, user, payload, now) ==
            (q.(normal := q.normal + [Prioritized(client, user, payload, now, Normal)]), true)
  {
    NoPriority(user);
  }

  lemma {:induction false} LastPriority(user: seq<UserProperty>, last: nat)
    requires last < |user| && user[last].key == "priority"
    requires forall j | last < j < |user| :: user[j].key != "priority"
    ensures PriorityOf(user) == user[last].val
    decreases |user|
  {
    if last < |user| - 1 {
      LastPriority(user[..|user| - 1], last);
    }
  }

  lemma {:induction false} NoPriority(user: seq<UserProperty>)
    requires forall p | p in user :: p.key != "priority"
    ensures PriorityOf(user) == "Normal"
  {
    if user != [] {
      assert user[|user| - 1] in user;
      NoPriority(user[..|user| - 1]);
    }
  }

  // ---------- Runs ----------

  datatype Event = Publish(pp: Prioritized) | Take | Tick(now: int)

  /** The queues with everything that has arrived at them and left them. */
  datatype History = History(queues: Queues, arrived: seq<Prioritized>, delivered: seq<Prioritized>)

  const NewHistory := History(Queues([], [], []), [], [])

  function Step(h: History, e: Event, config: Config): History {
    match e
    case Publish(pp) => h.(queues := Enqueue(h.queues, pp), arrived := h.arrived + [pp])
    case Take =>
      h.(queues := Dequeue(h.queues),
         delivered := h.delivered + match Head(h.queues) case Some(pp) => [pp] case None => [])
    case Tick(now) => h.(queues := Promote(h.queues, now, config))
  }

  function RunFrom(h: History, events: seq<Event>, config: Config): History {
    if events == [] then h else Step(RunFrom(h, events[..|events| - 1], config), events[|events| - 1], config)
  }

  function Run(events: seq<Event>, config: Config): History {
    RunFrom(NewHistory, events, config)
  }

  /** The entries of one class, in order. */
  function Of(c: Class, s: seq<Prioritized>): (r: seq<Prioritized>)
    ensures forall pp | pp in r :: pp in s && pp.priority == c
  {
    if s == [] then []
    else
      var last := s[|s| - 1];
      Of(c, s[..|s| - 1]) + if last.priority == c then [last] else []
  }

  /** Entries are stamped in the order in which they arrive. */
  predicate ClockMonotone(s: seq<Prioritized>) {
    forall i, j | 0 <= i < j < |s| :: s[i].enqueued <= s[j].enqueued
  }

  /** The high entries are stamped in order among themselves, and so are the normal ones. */
  predicate InClassOrder(s: seq<Prioritized>) {
    ClockMonotone(Of(High, s)) && ClockMonotone(Of(Normal, s))
  }

  function QueueOf(c: Class, q: Queues): seq<Prioritized> {
    match c
    case Urgent => []
    case High => q.high
    case Normal => q.normal
  }

  /** Entries still waiting in their own queue have that queue's class. */
  ghost predicate Sorted(q: Queues) {
    && (forall pp | pp in q.high :: pp.priority == High)
    && (forall pp | pp in q.normal :: pp.priority == Normal)
  }

  /** Of each class: what was delivered, then what waits as urgent, then what waits in its own queue. */
  ghost predicate Line(c: Class, h: History) {
    Of(c, h.delivered) + Of(c, h.queues.urgent) + QueueOf(c, h.queues) == Of(c, h.arrived)
  }

  ghost predicate InOrder(h: History) {
    Sorted(h.queues) && forall c :: Line(c, h)
  }

  lemma {:induction false} OfConcat(c: Class, a: seq<Prioritized>, b: seq<Prioritized>)
    ensures Of(c, a + b) == Of(c, a) + Of(c, b)
  {
    if b == [] {
      assert a + b == a;
    } else {
      var init, last := b[..|b| - 1], b[|b| - 1];
      assert (a + b)[..|a + b| - 1] == a + init;
      OfConcat(c, a, init);
    }
  }

  lemma {:induction false} OfOwnClass(c: Class, s: seq<Prioritized>)
    requires forall pp | pp in s :: pp.priority == c
    ensures Of(c, s) == s
  {
    if s != [] {
      var init, last := s[..|s| - 1], s[|s| - 1];
      assert s == init + [last] && last in s;
      OfOwnClass(c, init);
    }
  }

  lemma {:induction false} OfOtherClass(c: Class, d: Class, s: seq<Prioritized>)
    requires c != d && forall pp | pp in s :: pp.priority == c
    ensures Of(d, s) == []
  {
    if s != [] {
      assert s[|s| - 1] in s;
      OfOtherClass(c, d, s[..|s| - 1]);
    }
  }

  lemma OfSameClass(c: Class, s: seq<Prioritized>)
    requires forall pp | pp in s :: pp.priority == c
    ensures Of(c, s) == s
    ensures forall d | d != c :: Of(d, s) == []
  {
    OfOwnClass(c, s);
    forall d | d != c ensures Of(d, s) == [] {
      OfOtherClass(c, d, s);
    }
  }

  lemma {:induction false} AgeingMembers(s: seq<Prioritized>, now: int, threshold: int)
    ensures forall pp | pp in Starved(s, now, threshold) :: pp in s && IsStarved(pp, now, threshold)
    ensures forall pp | pp in Kept(s, now, threshold) :: pp in s && !IsStarved(pp, now, threshold)
    ensures forall pp | pp in s && IsStarved(pp, now, threshold) :: pp in Starved(s, now, threshold)
  {
    if s != [] {
      var init, last := s[..|s| - 1], s[|s| - 1];
      assert s == init + [last];
      AgeingMembers(init, now, threshold);
    }
  }

  lemma {:induction false} KeptMembers(s: seq<Prioritized>, now: int, threshold: int)
    ensures forall pp | pp in s && !IsStarved(pp, now, threshold) :: pp in Kept(s, now, threshold)
  {
    if s != [] {
      var init, last := s[..|s| - 1], s[|s| - 1];
      assert s == init + [last];
      KeptMembers(init, now, threshold);
    }
  }

  /** Under a monotone clock the starved entries are the front of their queue. */
  lemma {:induction false} StarvedIsFront(s: seq<Prioritized>, now: int, threshold: int)
    requires ClockMonotone(s)
    ensures Starved(s, now, threshold) + Kept(s, now, threshold) == s
  {
    if s != [] {
      var init, last := s[..|s| - 1], s[|s| - 1];
      StarvedIsFront(init, now, threshold);
      if IsStarved(last, now, threshold) {
        NoneKept(s, now, threshold);
      }
      FrontAndLast(Starved(init, now, threshold), Kept(init, now, threshold), init, last, s);
    }
  }

  lemma FrontAndLast<T>(starved: seq<T>, kept: seq<T>, init: seq<T>, last: T, s: seq<T>)
    requires s != [] && init == s[..|s| - 1] && last == s[|s| - 1] && starved + kept == init
    ensures (starved + []) + (kept + [last]) == s
    ensures kept == [] ==> (starved + [last]) + (kept + []) == s
  {
  }

  /** When the last entry is starved, so are all before it. */
  lemma NoneKept(s: seq<Prioritized>, now: int, threshold: int)
    requires s != [] && ClockMonotone(s) && IsStarved(s[|s| - 1], now, threshold)
    ensures Kept(s[..|s| - 1], now, threshold) == []
  {
    var init, last := s[..|s| - 1], s[|s| - 1];
    forall i | 0 <= i < |init|
      ensures IsStarved(init[i], now, threshold)
    {
      assert s[i].enqueued <= last.enqueued;
    }
    KeepsNone(init, now, threshold);
  }

  lemma {:induction false} KeepsNone(s: seq<Prioritized>, now: int, threshold: int)
    requires forall i | 0 <= i < |s| :: IsStarved(s[i], now, threshold)
    ensures Kept(s, now, threshold) == []
  {
    if s != [] {
      KeepsNone(s[..|s| - 1], now, threshold);
    }
  }

  lemma {:induction false} OfMonotone(c: Class, s: seq<Prioritized>)
    requires ClockMonotone(s)
    ensures ClockMonotone(Of(c, s))
  {
    if s != [] {
      var init, last := s[..|s| - 1], s[|s| - 1];
      OfMonotone(c, init);
      var r := Of(c, init);
      forall k | 0 <= k < |r|
        ensures r[k].enqueued <= last.enqueued
      {
        assert r[k] in r;
        var i :| 0 <= i < |init| && init[i] == r[k];
        assert s[i].enqueued <= last.enqueued;
      }
    }
  }

  lemma OfAppend(c: Class, s: seq<Prioritized>, pp: Prioritized)
    ensures Of(c, s + [pp]) == if pp.priority == c then Of(c, s) + [pp] else Of(c, s)
  {
    assert (s + [pp])[..|s|] == s;
  }

  lemma PublishKeepsLine(c: Class, h: History, pp: Prioritized, config: Config)
    requires Line(c, h)
    ensures Line(c, Step(h, Publish(pp), config))
  {
    OfAppend(c, h.arrived, pp);
    OfAppend(c, h.queues.urgent, pp);
    AppendLast(Of(c, h.delivered), Of(c, h.queues.urgent), QueueOf(c, h.queues), pp);
  }

  lemma AppendLast<T>(d: seq<T>, u: seq<T>, q: seq<T>, x: T)
    ensures d + u + (q + [x]) == (d + u + q) + [x]
    ensures q == [] ==> d + (u + [x]) + q == (d + u + q) + [x]
  {
  }

  lemma TakeKeepsLine(c: Class, h: History, config: Config)
    requires Line(c, h) && Sorted(h.queues)
    ensures Line(c, Step(h, Take, config))
  {
    var q := h.queues;
    if q.urgent != [] {
      TakeUrgent(c, h, config);
    } else if q.high != [] {
      TakeFromOwnQueue(c, h, High, q.high);
    } else if q.normal != [] {
      TakeFromOwnQueue(c, h, Normal, q.normal);
    } else {
      assert h.delivered + [] == h.delivered;
    }
  }

  lemma TakeUrgent(c: Class, h: History, config: Config)
    requires Line(c, h) && h.queues.urgent != []
    ensures Line(c, Step(h, Take, config))
  {
    var x, rest := h.queues.urgent[0], h.queues.urgent[1..];
    assert h.queues.urgent == [x] + rest;
    OfConcat(c, [x], rest);
    OfConcat(c, h.delivered, [x]);
    MoveFront(Of(c, h.delivered), Of(c, [x]), Of(c, rest), QueueOf(c, h.queues));
  }

  lemma MoveFront<T>(d: seq<T>, x: seq<T>, rest: seq<T>, q: seq<T>)
    ensures d + (x + rest) + q == (d + x) + rest + q
  {
  }

  lemma TakeFromOwnQueue(c: Class, h: History, own: Class, s: seq<Prioritized>)
    requires s != [] && s[0].priority == own && h.queues.urgent == []
    ensures c == own ==> Of(c, h.delivered + [s[0]]) + [] + s[1..] == Of(c, h.delivered) + [] + s
    ensures c != own ==> Of(c, h.delivered + [s[0]]) == Of(c, h.delivered)
  {
    OfAppend(c, h.delivered, s[0]);
    assert s == [s[0]] + s[1..];
  }

  /** Promoting the front of a queue of one class adds exactly that front to the urgent ones of its class. */
  lemma PromoteQueue(c: Class, s: seq<Prioritized>, own: Class, now: int, threshold: int)
    requires forall pp | pp in s :: pp.priority == own
    requires ClockMonotone(s)
    ensures c == own ==> Of(c, Starved(s, now, threshold)) + Kept(s, now, threshold) == s
    ensures c != own ==> Of(c, Starved(s, now, threshold)) == []
  {
    AgeingMembers(s, now, threshold);
    OfSameClass(own, Starved(s, now, threshold));
    StarvedIsFront(s, now, threshold);
  }

  lemma TickKeepsLine(c: Class, h: History, now: int, config: Config)
    requires Line(c, h) && Sorted(h.queues) && ClockMonotone(h.queues.high) && ClockMonotone(h.queues.normal)
    ensures Line(c, Step(h, Tick(now), config))
  {
    var q := h.queues;
    var n := Of(c, Starved(q.normal, now, config.agingThresholdNormal));
    var g := Of(c, Starved(q.high, now, config.agingThresholdHigh));
    UrgentAfterTick(c, q, now, config);
    OwnQueueAfterTick(c, q, now, config);
    var after := Promote(q, now, config);
    Regroup(Of(c, h.delivered), Of(c, q.urgent), n, g, QueueOf(c, after), Of(c, after.urgent), QueueOf(c, q));
  }

  lemma UrgentAfterTick(c: Class, q: Queues, now: int, config: Config)
    ensures Of(c, Promote(q, now, config).urgent) ==
            Of(c, q.urgent) + Of(c, Starved(q.normal, now, config.agingThresholdNormal))
            + Of(c, Starved(q.high, now, config.agingThresholdHigh))
  {
    var n := Starved(q.normal, now, config.agingThresholdNormal);
    OfConcat(c, q.urgent + n, Starved(q.high, now, config.agingThresholdHigh));
    OfConcat(c, q.urgent, n);
  }

  lemma OwnQueueAfterTick(c: Class, q: Queues, now: int, config: Config)
    requires Sorted(q) && ClockMonotone(q.high) && ClockMonotone(q.normal)
    ensures Of(c, Starved(q.normal, now, config.agingThresholdNormal))
            + (Of(c, Starved(q.high, now, config.agingThresholdHigh)) + QueueOf(c, Promote(q, now, config)))
            == QueueOf(c, q)
  {
    var n := Of(c, Starved(q.normal, now, config.agingThresholdNormal));
    var g := Of(c, Starved(q.high, now, config.agingThresholdHigh));
    PromoteQueue(c, q.normal, Normal, now, config.agingThresholdNormal);
    PromoteQueue(c, q.high, High, now, config.agingThresholdHigh);
    match c
    case Urgent => assert n == [] && g == [];
    case High => EmptyFront(n, g + Kept(q.high, now, config.agingThresholdHigh));
    case Normal => EmptyFront(g, Kept(q.normal, now, config.agingThresholdNormal));
  }

  lemma EmptyFront<T>(a: seq<T>, b: seq<T>)
    requires a == []
    ensures a + b == b
  {
  }

  lemma Regroup<T>(d: seq<T>, u: seq<T>, n: seq<T>, g: seq<T>, k: seq<T>, urgent: seq<T>, own: seq<T>)
    requires urgent == u + n + g && own == n + (g + k)
    ensures d + urgent + k == d + u + own
  {
  }

  lemma StepKeepsOrder(h: History, e: Event, config: Config)
    requires InOrder(h) && InClassOrder(h.arrived)
    ensures InOrder(Step(h, e, config))
  {
    QueueMonotone(h, High);
    QueueMonotone(h, Normal);
    forall c
      ensures Line(c, Step(h, e, config))
    {
      assert Line(c, h);
      match e
      case Publish(pp) => PublishKeepsLine(c, h, pp, config);
      case Take => TakeKeepsLine(c, h, config);
      case Tick(now) => TickKeepsLine(c, h, now, config);
    }
    StepKeepsSorted(h.queues, h, e, config);
  }

  lemma StepKeepsSorted(q: Queues, h: History, e: Event, config: Config)
    requires q == h.queues && Sorted(q)
    ensures Sorted(Step(h, e, config).queues)
  {
    match e
    case Publish(pp) =>
    case Take =>
    case Tick(now) =>
      AgeingMembers(q.normal, now, config.agingThresholdNormal);
      AgeingMembers(q.high, now, config.agingThresholdHigh);
  }

  /** What waits in the queue of a class is the end of what arrived in that class. */
  lemma QueueMonotone(h: History, c: Class)
    requires InOrder(h) && ClockMonotone(Of(c, h.arrived))
    ensures ClockMonotone(QueueOf(c, h.queues))
  {
    assert Line(c, h);
    var all, q := Of(c, h.arrived), QueueOf(c, h.queues);
    var front := Of(c, h.delivered) + Of(c, h.queues.urgent);
    forall i | 0 <= i < |q|
      ensures q[i] == all[|front| + i]
    {
    }
  }

  ghost predicate DeliveredInOrder(h: History) {
    forall c :: Of(c, h.delivered) <= Of(c, h.arrived)
  }

  lemma EarlierInClassOrder(a: seq<Prioritized>, b: seq<Prioritized>)
    requires InClassOrder(a + b)
    ensures InClassOrder(a)
  {
    forall c | c == High || c == Normal ensures ClockMonotone(Of(c, a)) {
      OfConcat(c, a, b);
      var all, front := Of(c, a + b), Of(c, a);
      assert forall i | 0 <= i < |front| :: front[i] == all[i];
    }
  }

  /**
   When each of the two ageing classes is stamped in order, in every run and for every class: what
   was delivered of the class, followed by what is still queued of it, is exactly what arrived of
   it, in arrival order.  Nothing is lost, duplicated or reordered within a class, whatever the
   ticks promote.  Urgent entries, and entries of different classes, may be stamped in any order.
   */
  lemma {:induction false} DeliveredInArrivalOrder(events: seq<Event>, config: Config)
    requires InClassOrder(Run(events, config).arrived)
    ensures InOrder(Run(events, config)) && DeliveredInOrder(Run(events, config))
  {
    if events != [] {
      var before, e := events[..|events| - 1], events[|events| - 1];
      var h := Run(before, config);
      assert h.arrived <= Run(events, config).arrived;
      var more := Run(events, config).arrived[|h.arrived|..];
      assert Run(events, config).arrived == h.arrived + more;
      EarlierInClassOrder(h.arrived, more);
      DeliveredInArrivalOrder(before, config);
      StepKeepsOrder(h, e, config);
    }
    var h := Run(events, config);
    forall c
      ensures Of(c, h.delivered) <= Of(c, h.arrived)
    {
      assert Line(c, h);
    }
  }

  /** One clock that never runs back stamps both classes in order. */
  lemma MonotoneClockKeepsOrder(events: seq<Event>, config: Config)
    requires ClockMonotone(Run(events, config).arrived)
    ensures InOrder(Run(events, config)) && DeliveredInOrder(Run(events, config))
  {
    OfMonotone(High, Run(events, config).arrived);
    OfMonotone(Normal, Run(events, config).arrived);
    DeliveredInArrivalOrder(events, config);
  }

  // ---------- Exactly when order is kept ----------

  lemma {:induction false} StarvedConcat(a: seq<Prioritized>, b: seq<Prioritized>, now: int, threshold: int)
    ensures Starved(a + b, now, threshold) == Starved(a, now, threshold) + Starved(b, now, threshold)
  {
    if b == [] {
      assert a + b == a;
    } else {
      var init, last := b[..|b| - 1], b[|b| - 1];
      assert (a + b)[..|a + b| - 1] == a + init;
      StarvedConcat(a, init, now, threshold);
    }
  }

  lemma {:induction false} AllStarved(s: seq<Prioritized>, now: int, threshold: int)
    requires forall pp | pp in s :: IsStarved(pp, now, threshold)
    ensures Starved(s, now, threshold) == s
  {
    if s != [] {
      var init, last := s[..|s| - 1], s[|s| - 1];
      assert s == init + [last] && last in s && forall pp | pp in init :: pp in s;
      AllStarved(init, now, threshold);
    }
  }

  /** When a later entry is stamped earlier, the tick at its threshold takes it out of turn. */
  lemma StarvedOutOfTurn(s: seq<Prioritized>, i: nat, j: nat, threshold: int)
    requires i < j < |s| && s[i].enqueued > s[j].enqueued
    ensures !(Starved(s, s[j].enqueued + threshold, threshold) <= s)
  {
    var now := s[j].enqueued + threshold;
    if Starved(s, now, threshold) <= s {
      var m := |Starved(s, now, threshold)|;
      StarvedFrontStops(s, i, now, threshold);
      StarvedFrontIsAll(s, m, j, now, threshold);
    }
  }

  lemma StarvedFrontStops(s: seq<Prioritized>, i: nat, now: int, threshold: int)
    requires i < |s| && !IsStarved(s[i], now, threshold) && Starved(s, now, threshold) <= s
    ensures |Starved(s, now, threshold)| <= i
  {
    var starved := Starved(s, now, threshold);
    AgeingMembers(s, now, threshold);
    forall k | 0 <= k < |starved| ensures IsStarved(s[k], now, threshold) {
      assert starved[k] in starved;
    }
  }

  lemma NoneStarvedBehind(s: seq<Prioritized>, m: nat, now: int, threshold: int)
    requires m <= |s| && Starved(s, now, threshold) == s[..m]
    ensures Starved(s[m..], now, threshold) == []
  {
    assert s == s[..m] + s[m..];
    NothingBehind(s[..m], s[m..], now, threshold);
  }

  lemma NothingBehind(a: seq<Prioritized>, b: seq<Prioritized>, now: int, threshold: int)
    requires Starved(a + b, now, threshold) == a
    ensures Starved(b, now, threshold) == []
  {
    AllOfStarved(a + b, a, now, threshold);
    AllStarved(a, now, threshold);
    StarvedConcat(a, b, now, threshold);
  }

  lemma AllOfStarved(s: seq<Prioritized>, starved: seq<Prioritized>, now: int, threshold: int)
    requires starved == Starved(s, now, threshold)
    ensures forall pp | pp in starved :: IsStarved(pp, now, threshold)
  {
    AgeingMembers(s, now, threshold);
  }

  lemma StarvedFrontIsAll(s: seq<Prioritized>, m: nat, j: nat, now: int, threshold: int)
    requires j < |s| && IsStarved(s[j], now, threshold) && m <= |s| && Starved(s, now, threshold) == s[..m]
    ensures j < m
  {
    NoneStarvedBehind(s, m, now, threshold);
    AgeingMembers(s[m..], now, threshold);
    forall k | m <= k < |s| ensures !IsStarved(s[k], now, threshold) {
      assert s[m..][k - m] == s[k];
    }
  }

  /** Every tick takes the front of a queue if and only if the queue is stamped in order. */
  lemma FrontExactly(s: seq<Prioritized>, threshold: int)
    ensures (forall now :: Starved(s, now, threshold) <= s) <==> ClockMonotone(s)
    ensures (forall now :: Starved(s, now, threshold) + Kept(s, now, threshold) == s) <==> ClockMonotone(s)
  {
    if ClockMonotone(s) {
      forall now ensures Starved(s, now, threshold) + Kept(s, now, threshold) == s {
        StarvedIsFront(s, now, threshold);
      }
    } else {
      var i, j :| 0 <= i < j < |s| && s[i].enqueued > s[j].enqueued;
      var now := s[j].enqueued + threshold;
      StarvedOutOfTurn(s, i, j, threshold);
      assert Starved(s, now, threshold) + Kept(s, now, threshold) != s;
    }
  }

  function Publishes(pps: seq<Prioritized>): seq<Event> {
    if pps == [] then [] else Publishes(pps[..|pps| - 1]) + [Publish(pps[|pps| - 1])]
  }

  function TakeEvents(n: nat): (events: seq<Event>)
    ensures Takes(events) == n
    ensures forall e | e in events :: e == Take
  {
    if n == 0 then [] else
      var before := TakeEvents(n - 1);
      assert (before + [Take])[..|before|] == before;
      before + [Take]
  }

  /** The queues when everything has arrived and nothing has left. */
  function AllWaiting(pps: seq<Prioritized>): Queues {
    Queues(Of(Urgent, pps), Of(High, pps), Of(Normal, pps))
  }

  lemma OneMoreWaiting(pps: seq<Prioritized>, pp: Prioritized)
    ensures Enqueue(AllWaiting(pps), pp) == AllWaiting(pps + [pp])
  {
    OfAppend(Urgent, pps, pp);
    OfAppend(High, pps, pp);
    OfAppend(Normal, pps, pp);
  }

  lemma {:induction false} AllQueued(pps: seq<Prioritized>, config: Config)
    ensures Run(Publishes(pps), config) == History(AllWaiting(pps), pps, [])
  {
    if pps != [] {
      var init, last := pps[..|pps| - 1], pps[|pps| - 1];
      AllQueued(init, config);
      RunAppend(Publishes(init), Publish(last), config);
      OneMoreWaiting(init, last);
      assert pps == init + [last];
    }
  }

  lemma {:induction false} TakesKeepArrived(h: History, events: seq<Event>, config: Config)
    requires forall e | e in events :: e == Take
    ensures RunFrom(h, events, config).arrived == h.arrived
  {
    if events != [] {
      var before := events[..|events| - 1];
      assert events[|events| - 1] in events;
      assert forall e | e in before :: e in events;
      TakesKeepArrived(h, before, config);
    }
  }

  /** Everything is queued, one tick comes, and the urgent queue is drained. */
  lemma DrainedAfterTick(pps: seq<Prioritized>, now: int, config: Config) returns (events: seq<Event>)
    ensures var h := Run(events, config);
            var ticked := Promote(AllWaiting(pps), now, config);
            h.arrived == pps && h.delivered == ticked.urgent
  {
    AllQueued(pps, config);
    RunAppend(Publishes(pps), Tick(now), config);
    var h := Run(Publishes(pps) + [Tick(now)], config);
    var takes := TakeEvents(|h.queues.urgent|);
    events := Publishes(pps) + [Tick(now)] + takes;
    RunSplit(NewHistory, Publishes(pps) + [Tick(now)], takes, config);
    UrgentProgress(h, takes, config);
    TakesKeepArrived(h, takes, config);
    assert h.queues.urgent[..|h.queues.urgent|] == h.queues.urgent && [] + h.queues.urgent == h.queues.urgent;
  }

  lemma DrainedOfClass(c: Class, pps: seq<Prioritized>, now: int, config: Config)
    requires c == High || c == Normal
    ensures var threshold := if c == High then config.agingThresholdHigh else config.agingThresholdNormal;
            Of(c, Promote(AllWaiting(pps), now, config).urgent)
            == Starved(Of(c, pps), now, threshold)
  {
    var q := AllWaiting(pps);
    UrgentAfterTick(c, q, now, config);
    OfSameClass(Urgent, q.urgent);
    StarvedOfClass(c, q.normal, Normal, now, config.agingThresholdNormal);
    StarvedOfClass(c, q.high, High, now, config.agingThresholdHigh);
    OnlyOne(Starved(Of(c, pps), now, if c == High then config.agingThresholdHigh else config.agingThresholdNormal));
  }

  lemma OnlyOne<T>(s: seq<T>)
    ensures [] + s + [] == s && [] + [] + s == s
  {
  }

  lemma StarvedOfClass(c: Class, s: seq<Prioritized>, own: Class, now: int, threshold: int)
    requires forall pp | pp in s :: pp.priority == own
    ensures Of(c, Starved(s, now, threshold)) == if c == own then Starved(s, now, threshold) else []
  {
    AgeingMembers(s, now, threshold);
    OfSameClass(own, Starved(s, now, threshold));
  }

  lemma OutOfOrder(c: Class, pps: seq<Prioritized>, config: Config) returns (events: seq<Event>)
    requires (c == High || c == Normal) && !ClockMonotone(Of(c, pps))
    ensures Run(events, config).arrived == pps && !DeliveredInOrder(Run(events, config))
  {
    var threshold := if c == High then config.agingThresholdHigh else config.agingThresholdNormal;
    FrontExactly(Of(c, pps), threshold);
    var now :| !(Starved(Of(c, pps), now, threshold) <= Of(c, pps));
    events := DrainedAfterTick(pps, now, config);
    DrainedOfClass(c, pps, now, config);
  }

  /**
   Given what arrives, every run delivers every class in arrival order if and only if the high
   entries are stamped in order among themselves, and the normal ones too.
   */
  lemma OrderKeptExactly(pps: seq<Prioritized>, config: Config)
    ensures (forall events | Run(events, config).arrived == pps :: DeliveredInOrder(Run(events, config))) <==>
            InClassOrder(pps)
  {
    if InClassOrder(pps) {
      forall events | Run(events, config).arrived == pps ensures DeliveredInOrder(Run(events, config)) {
        DeliveredInArrivalOrder(events, config);
      }
    } else {
      var events := OutOfOrder(if ClockMonotone(Of(High, pps)) then Normal else High, pps, config);
    }
  }

  /** The clock matters: two normal entries stamped in reverse are delivered in reverse by one tick. */
  lemma ReversedClockReorders(a: Prioritized, b: Prioritized, config: Config)
    requires a.priority == Normal && b.priority == Normal && a.enqueued > b.enqueued
    ensures var queued := Step(Step(NewHistory, Publish(a), config), Publish(b), config);
            var ticked := Step(queued, Tick(b.enqueued + config.agingThresholdNormal), config);
            queued.arrived == [a, b] && Step(ticked, Take, config).delivered == [b]
  {
    var now := b.enqueued + config.agingThresholdNormal;
    TwoNormal(a, b, config);
    TickTwo(a, b, now, config);
  }

  lemma TickTwo(a: Prioritized, b: Prioritized, now: int, config: Config)
    requires !IsStarved(a, now, config.agingThresholdNormal) && IsStarved(b, now, config.agingThresholdNormal)
    ensures Head(Promote(Queues([], [], [a, b]), now, config)) == Some(b)
  {
    StarvedOfTwo(a, b, now, config.agingThresholdNormal);
  }

  lemma TwoNormal(a: Prioritized, b: Prioritized, config: Config)
    requires a.priority == Normal && b.priority == Normal
    ensures Step(Step(NewHistory, Publish(a), config), Publish(b), config) ==
            History(Queues([], [], [a, b]), [a, b], [])
  {
  }

  lemma StarvedOfTwo(a: Prioritized, b: Prioritized, now: int, threshold: int)
    requires !IsStarved(a, now, threshold) && IsStarved(b, now, threshold)
    ensures Starved([a, b], now, threshold) == [b]
  {
    assert [a, b][..1] == [a] && [a][..0] == [];
    assert Starved([a], now, threshold) == [];
  }

  lemma RunAppend(events: seq<Event>, e: Event, config: Config)
    ensures Run(events + [e], config) == Step(Run(events, config), e, config)
  {
    assert (events + [e])[..|events|] == events;
  }

  // ---------- Conservation ----------

  ghost function Queued(q: Queues): multiset<Prioritized> {
    multiset(q.urgent) + multiset(q.high) + multiset(q.normal)
  }

  lemma {:induction false} AgeingPartitions(s: seq<Prioritized>, now: int, threshold: int)
    ensures multiset(Starved(s, now, threshold)) + multiset(Kept(s, now, threshold)) == multiset(s)
  {
    if s != [] {
      assert s == s[..|s| - 1] + [s[|s| - 1]];
      AgeingPartitions(s[..|s| - 1], now, threshold);
    }
  }

  /** Whatever the clock does, what arrived is always what was delivered plus what is queued. */
  lemma {:induction false} NothingLostOrDuplicated(events: seq<Event>, config: Config)
    ensures var h := Run(events, config);
            multiset(h.arrived) == multiset(h.delivered) + Queued(h.queues)
  {
    if events != [] {
      var before := events[..|events| - 1];
      NothingLostOrDuplicated(before, config);
      StepConserves(Run(before, config), events[|events| - 1], config);
    }
  }

  lemma HeadAndTail<T>(s: seq<T>)
    requires s != []
    ensures multiset(s) == multiset{s[0]} + multiset(s[1..])
  {
    assert s == [s[0]] + s[1..];
  }

  lemma TakeConserves(q: Queues)
    ensures Queued(q) == Queued(Dequeue(q)) + match Head(q) case Some(pp) => multiset{pp} case None => multiset{}
  {
    if q.urgent != [] {
      HeadAndTail(q.urgent);
    } else if q.high != [] {
      HeadAndTail(q.high);
    } else if q.normal != [] {
      HeadAndTail(q.normal);
    }
  }

  lemma PublishConserves(q: Queues, pp: Prioritized)
    ensures Queued(Enqueue(q, pp)) == Queued(q) + multiset{pp}
  {
    match pp.priority
    case Urgent => assert multiset(q.urgent + [pp]) == multiset(q.urgent) + multiset{pp};
    case High => assert multiset(q.high + [pp]) == multiset(q.high) + multiset{pp};
    case Normal => assert multiset(q.normal + [pp]) == multiset(q.normal) + multiset{pp};
  }

  lemma TickConserves(q: Queues, now: int, config: Config)
    ensures Queued(Promote(q, now, config)) == Queued(q)
  {
    AgeingPartitions(q.normal, now, config.agingThresholdNormal);
    AgeingPartitions(q.high, now, config.agingThresholdHigh);
  }

  lemma StepConserves(h: History, e: Event, config: Config)
    requires multiset(h.arrived) == multiset(h.delivered) + Queued(h.queues)
    ensures var after := Step(h, e, config);
            multiset(after.arrived) == multiset(after.delivered) + Queued(after.queues)
  {
    match e
    case Publish(pp) => PublishConserves(h.queues, pp);
    case Take => TakeConserves(h.queues);
    case Tick(now) => TickConserves(h.queues, now, config);
  }

  // ---------- Strictly by priority ----------

  /** A dequeue takes a high entry only when no urgent one waits, and a normal one only when neither does. */
  lemma TakenByPriority(h: History, config: Config)
    ensures var after, q := Step(h, Take, config), h.queues;
            && after.arrived == h.arrived
            && if q.urgent != [] then
                 after.delivered == h.delivered + [q.urgent[0]]
                 && after.queues == Queues(q.urgent[1..], q.high, q.normal)
               else if q.high != [] then
                 after.delivered == h.delivered + [q.high[0]] && after.queues == Queues([], q.high[1..], q.normal)
               else if q.normal != [] then
                 after.delivered == h.delivered + [q.normal[0]] && after.queues == Queues([], [], q.normal[1..])
               else
                 after == h
  {
  }

  /** Nothing becomes urgent. */
  predicate NoneUrgent(events: seq<Event>) {
    forall e | e in events :: !e.Tick? && !(e.Publish? && e.pp.priority.Urgent?)
  }

  /** While nothing is urgent, what was high is delivered first, in order; till then no normal entry leaves. */
  lemma {:induction false} HighProgress(h: History, events: seq<Event>, config: Config)
    requires h.queues.urgent == [] && NoneUrgent(events)
    ensures var r, u, t := RunFrom(h, events, config), h.queues.high, Takes(events);
            && r.queues.urgent == []
            && if t <= |u| then
                 r.delivered == h.delivered + u[..t] && u[t..] <= r.queues.high && h.queues.normal <= r.queues.normal
               else
                 h.delivered + u <= r.delivered
  {
    var u := h.queues.high;
    if events == [] {
      assert u[..0] == [] && u[0..] == u && h.delivered + [] == h.delivered;
    } else {
      var before, e := events[..|events| - 1], events[|events| - 1];
      assert e in events && forall x | x in before :: x in events;
      var mid, t := RunFrom(h, before, config), Takes(before);
      HighProgress(h, before, config);
      HighStep(mid, e, config);
      if e.Take? && t < |u| {
        OneMoreTaken(h.delivered, u, t, mid.queues.high);
      } else if t == |u| {
        assert u[..t] == u;
      }
    }
  }

  lemma OneMoreTaken<T>(delivered: seq<T>, u: seq<T>, t: nat, queue: seq<T>)
    requires t < |u| && u[t..] <= queue
    ensures delivered + u[..t] + [queue[0]] == delivered + u[..t + 1] && u[t + 1..] <= queue[1..]
  {
    assert queue[0] == u[t..][0] == u[t] && u[..t] + [u[t]] == u[..t + 1] && u[t..][1..] == u[t + 1..];
  }

  lemma HighStep(h: History, e: Event, config: Config)
    requires h.queues.urgent == [] && !e.Tick? && !(e.Publish? && e.pp.priority.Urgent?)
    ensures var u, after := h.queues.high, Step(h, e, config);
            && after.queues.urgent == []
            && if e.Take? && u != [] then
                 after.delivered == h.delivered + [u[0]] && after.queues.high == u[1..]
                 && after.queues.normal == h.queues.normal
               else
                 h.delivered <= after.delivered && u <= after.queues.high
                 && (!e.Take? ==> after.delivered == h.delivered && h.queues.normal <= after.queues.normal)
  {
    TakenByPriority(h, config);
  }

  /**
   While nothing is urgent, an entry at index k of the high queue is delivered by exactly the
   (k+1)-th later dequeue, after the k entries before it and nothing else, whatever arrives.
   */
  lemma HighDeliveredAtItsIndex(q: Queues, events: seq<Event>, config: Config, k: nat)
    requires q.urgent == [] && NoneUrgent(events) && k < |q.high|
    ensures k < Takes(events) ==> q.high[..k + 1] <= Deliveries(q, events, config)
    ensures k >= Takes(events) ==> |Deliveries(q, events, config)| <= k
  {
    HighProgress(History(q, [], []), events, config);
  }

  // ---------- No starvation ----------

  /** Right after a tick no entry in its own queue is at or past its threshold; those that were are urgent. */
  lemma TickLeavesNoneStarved(q: Queues, now: int, config: Config)
    ensures var after := Promote(q, now, config);
            var (high, normal) := (config.agingThresholdHigh, config.agingThresholdNormal);
            && (forall pp :: pp in after.high <==> pp in q.high && now < pp.enqueued + high)
            && (forall pp :: pp in after.normal <==> pp in q.normal && now < pp.enqueued + normal)
            && (forall pp | pp in q.high && pp.enqueued + high <= now :: pp in after.urgent)
            && (forall pp | pp in q.normal && pp.enqueued + normal <= now :: pp in after.urgent)
            && (forall pp | pp in after.urgent ::
                  || pp in q.urgent
                  || (pp in q.high && pp.enqueued + high <= now)
                  || (pp in q.normal && pp.enqueued + normal <= now))
            && q.urgent <= after.urgent
  {
    KeptMembers(q.high, now, config.agingThresholdHigh);
    KeptMembers(q.normal, now, config.agingThresholdNormal);
    AgeingMembers(q.high, now, config.agingThresholdHigh);
    AgeingMembers(q.normal, now, config.agingThresholdNormal);
  }

  /** The promoted normal entries come before the promoted high ones. */
  lemma PromotedInTurn(q: Queues, now: int, config: Config)
    ensures var after := Promote(q, now, config);
            var from, cut := |q.urgent|, |q.urgent| + |q.normal| - |after.normal|;
            && from <= cut <= |after.urgent|
            && (forall i | from <= i < cut :: after.urgent[i] in q.normal)
            && (forall i | cut <= i < |after.urgent| :: after.urgent[i] in q.high)
  {
    var n := Starved(q.normal, now, config.agingThresholdNormal);
    var g := Starved(q.high, now, config.agingThresholdHigh);
    AgeingMembers(q.high, now, config.agingThresholdHigh);
    AgeingMembers(q.normal, now, config.agingThresholdNormal);
    StarvedOrKept(q.normal, now, config.agingThresholdNormal);
    forall i | |q.urgent| + |n| <= i < |q.urgent| + |n| + |g|
      ensures (q.urgent + n + g)[i] in g
    {
    }
  }

  lemma {:induction false} StarvedOrKept(s: seq<Prioritized>, now: int, threshold: int)
    ensures |Starved(s, now, threshold)| + |Kept(s, now, threshold)| == |s|
  {
    if s != [] {
      StarvedOrKept(s[..|s| - 1], now, threshold);
    }
  }

  /** How often a run dequeues. */
  function Takes(events: seq<Event>): nat {
    if events == [] then 0 else Takes(events[..|events| - 1]) + if events[|events| - 1].Take? then 1 else 0
  }

  /** What a run from given queues delivers. */
  function Deliveries(q: Queues, events: seq<Event>, config: Config): seq<Prioritized> {
    RunFrom(History(q, [], []), events, config).delivered
  }

  lemma {:induction false} RunSplit(h: History, a: seq<Event>, b: seq<Event>, config: Config)
    ensures RunFrom(h, a + b, config) == RunFrom(RunFrom(h, a, config), b, config)
  {
    if b == [] {
      assert a + b == a;
    } else {
      assert (a + b)[..|a + b| - 1] == a + b[..|b| - 1];
      RunSplit(h, a, b[..|b| - 1], config);
    }
  }

  /** One dequeue takes one entry off the front of the urgent queue; everything else only adds behind. */
  lemma UrgentStep(h: History, e: Event, config: Config)
    ensures var u, after := h.queues.urgent, Step(h, e, config);
            if e.Take? && u != [] then after.delivered == h.delivered + [u[0]] && after.queues.urgent == u[1..]
            else && h.delivered <= after.delivered && u <= after.queues.urgent
                 && (!e.Take? ==> after.delivered == h.delivered)
  {
  }

  /** What was urgent is delivered first, one entry a dequeue, in order. */
  lemma {:induction false} UrgentProgress(h: History, events: seq<Event>, config: Config)
    ensures var r, u, t := RunFrom(h, events, config), h.queues.urgent, Takes(events);
            if t <= |u| then r.delivered == h.delivered + u[..t] && u[t..] <= r.queues.urgent
            else h.delivered + u <= r.delivered
  {
    var u := h.queues.urgent;
    if events == [] {
      assert u[..0] == [] && u[0..] == u && h.delivered + [] == h.delivered;
    } else {
      var before, e := events[..|events| - 1], events[|events| - 1];
      var mid, t := RunFrom(h, before, config), Takes(before);
      UrgentProgress(h, before, config);
      UrgentStep(mid, e, config);
      if e.Take? && t < |u| {
        OneMoreTaken(h.delivered, u, t, mid.queues.urgent);
      } else if t == |u| {
        assert u[..t] == u;
      }
    }
  }

  /**
   An entry at index k of the urgent queue is delivered by exactly the (k+1)-th later dequeue,
   whatever arrives or is promoted in between.
   */
  lemma UrgentDeliveredAtItsIndex(q: Queues, events: seq<Event>, config: Config, k: nat)
    requires k < |q.urgent|
    ensures k < Takes(events) ==>
              k < |Deliveries(q, events, config)| && Deliveries(q, events, config)[k] == q.urgent[k]
    ensures k >= Takes(events) ==> |Deliveries(q, events, config)| <= k
  {
    UrgentProgress(History(q, [], []), events, config);
  }

  /** An entry that waits in one of the two ageing queues and is at or past its threshold. */
  predicate WaitsStarved(q: Queues, pp: Prioritized, now: int, config: Config) {
    || (pp in q.high && pp.enqueued + config.agingThresholdHigh <= now)
    || (pp in q.normal && pp.enqueued + config.agingThresholdNormal <= now)
  }

  /**
   Waiting is bounded, over every run: an entry that waits at or past its threshold when a tick
   comes is delivered within as many later dequeues as the urgent queue holds after that tick,
   whatever arrives or is promoted meanwhile.
   */
  lemma StarvedDeliveredInTime(before: seq<Event>, now: int, later: seq<Event>, config: Config, pp: Prioritized)
    requires WaitsStarved(Run(before, config).queues, pp, now, config)
    requires Takes(later) >= |Run(before + [Tick(now)], config).queues.urgent|
    ensures var ticked := Run(before + [Tick(now)], config);
            var from, done := |ticked.delivered|, Run(before + [Tick(now)] + later, config).delivered;
            && from + |ticked.queues.urgent| <= |done|
            && pp in done[from..from + |ticked.queues.urgent|]
  {
    RunAppend(before, Tick(now), config);
    var ticked := Run(before + [Tick(now)], config);
    StarvedIsUrgent(Run(before, config).queues, now, config, pp);
    RunSplit(NewHistory, before + [Tick(now)], later, config);
    UrgentDrained(ticked, later, config);
  }

  lemma StarvedIsUrgent(q: Queues, now: int, config: Config, pp: Prioritized)
    requires WaitsStarved(q, pp, now, config)
    ensures pp in Promote(q, now, config).urgent
  {
    TickLeavesNoneStarved(q, now, config);
  }

  lemma UrgentDrained(h: History, later: seq<Event>, config: Config)
    requires Takes(later) >= |h.queues.urgent|
    ensures var from, u, done := |h.delivered|, h.queues.urgent, RunFrom(h, later, config).delivered;
            from + |u| <= |done| && done[from..from + |u|] == u
  {
    var from, u, done := |h.delivered|, h.queues.urgent, RunFrom(h, later, config).delivered;
    UrgentProgress(h, later, config);
    assert u[..|u|] == u;
    assert h.delivered + u <= done;
    assert done[from..from + |u|] == (h.delivered + u)[from..];
  }
}
