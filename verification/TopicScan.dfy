/**
 The reading side of the topic index (broker/topics.go): the recursive scans for the subscribers
 of a topic and for the retained messages of a filter, and the choice of one subscriber for each
 shared filter.
 */
module TopicScan {
  import opened Levels
  import opened Subscriptions
  import opened IndexSpec
  import opened Gathering
  import opened TopicTrie

  class Subscribers {
    var shared: SharedMap
    var sharedSelected: map<ClientId, Subscription>
    var subscriptions: map<ClientId, Subscription>
    var inlineSubscriptions: map<int, Subscription>
    ghost var visited: set<Path>        // paths gathered so far
    ghost var visitedInline: set<Path>  // paths whose inline subscriptions were gathered

    constructor ()
      ensures shared == map[] && sharedSelected == map[] && subscriptions == map[] && inlineSubscriptions == map[]
      ensures visited == {} && visitedInline == {}
    {
      shared, sharedSelected, subscriptions, inlineSubscriptions := map[], map[], map[], map[];
      visited, visitedInline := {}, {};
    }

    /** Merges a client's subscription in, but for a leading wildcard on a '$' topic. */
    method AddPlain(topic: string, client: ClientId, sub: Subscription)
      requires topic != ""
      modifies this`subscriptions
      ensures subscriptions == GatherOne(topic, client, sub, old(subscriptions))
    {
      if |sub.filter| > 0 && topic[0] == '$' && (sub.filter[0] == '+' || sub.filter[0] == '#') {
        return;
      }
      var cls := if client in subscriptions then subscriptions[client] else sub;
      subscriptions := subscriptions[client := cls.Merge(sub)];
    }

    method AddShared(client: ClientId, sub: Subscription)
      modifies this`shared
      ensures shared == AddToShared(old(shared), client, sub)
    {
      if sub.filter !in shared {
        shared := shared[sub.filter := map[]];
      }
      shared := shared[sub.filter := shared[sub.filter][client := sub]];
    }

    /** Selects one subscriber, whichever comes first, for each shared filter. */
    method SelectShared() returns (ghost choice: map<string, ClientId>)
      requires WellKeyed(shared) && SharedUnmerged(shared)
      modifies this`sharedSelected
      ensures ChoiceOf(shared, choice)
      ensures SelectedAs(shared, choice, sharedSelected)
    {
      sharedSelected := map[];
      choice := map[];
      var todo := shared.Keys;
      while todo != {}
        invariant todo <= shared.Keys && choice.Keys == shared.Keys - todo
        invariant forall f | f in choice :: choice[f] in shared[f]
        invariant SelectedAs(shared, choice, sharedSelected)
      {
        var f :| f in todo;
        todo := todo - {f};
        var subs := shared[f];
        assert subs != map[];
        var client :| client in subs;
        SelectStep(shared, choice, f, client, sharedSelected);
        choice := choice[f := client];
        var cls := if client in sharedSelected then sharedSelected[client] else subs[client];
        sharedSelected := sharedSelected[client := cls.Merge(subs[client])];
      }
    }

    /** Merges the selected subscribers into the non-shared ones, so that each client appears once. */
    method MergeSharedSelected()
      modifies this`subscriptions
      ensures MergedInto(old(subscriptions), sharedSelected, subscriptions)
    {
      var todo := sharedSelected.Keys;
      while todo != {}
        invariant todo <= sharedSelected.Keys
        invariant subscriptions.Keys == old(subscriptions).Keys + (sharedSelected.Keys - todo)
        invariant forall client | client in subscriptions && (client in todo || client !in sharedSelected) ::
          subscriptions[client] == old(subscriptions)[client]
        invariant forall client | client in sharedSelected.Keys - todo ::
          subscriptions[client] ==
          (if client in old(subscriptions) then old(subscriptions)[client] else sharedSelected[client])
            .Merge(sharedSelected[client])
      {
        var client :| client in todo;
        todo := todo - {client};
        var cls := if client in subscriptions then subscriptions[client] else sharedSelected[client];
        subscriptions := subscriptions[client := cls.Merge(sharedSelected[client])];
      }
    }

    /** Settles the shared filters of a publish, when no hook has selected any subscriber. */
    method Settle() returns (ghost choice: map<string, ClientId>)
      requires WellKeyed(shared) && SharedUnmerged(shared) && sharedSelected == map[]
      modifies this`sharedSelected, this`subscriptions
      ensures ChoiceOf(shared, choice) && SelectedAs(shared, choice, sharedSelected)
      ensures MergedInto(old(subscriptions), sharedSelected, subscriptions)
    {
      choice := map[];
      if |shared| > 0 {
        if |sharedSelected| == 0 {
          choice := SelectShared();
        }
        MergeSharedSelected();
      } else {
        assert shared == map[];
      }
    }

    /** Holds what the visited paths hold for the topic. */
    ghost predicate Gathered(c: Contents, topic: string)
      requires topic != ""
      reads this
    {
      && GatheredPlain(c, visited, topic, subscriptions)
      && GatheredShared(c, visited, shared)
      && GatheredInline(c, visitedInline, inlineSubscriptions)
    }
  }

  /** Stored subscriptions sit under their own keys, unmerged: true after every run of decoded operations. */
  ghost predicate Sound(c: Contents) {
    Filed(c) && AllUnmerged(c)
  }

  /** Gathers the non-shared subscriptions of a particle. */
  method GatherSubscriptions(ghost c: Contents, topic: string, particle: Particle, subs: Subscribers)
    requires topic != "" && Sound(c) && particle.Held() == At(c, particle.path)
    requires GatheredPlain(c, subs.visited, topic, subs.subscriptions)
    modifies subs`subscriptions
    ensures GatheredPlain(c, subs.visited + {particle.path}, topic, subs.subscriptions)
  {
    ghost var p := particle.path;
    var todo := particle.subscriptions.Keys;
    GatherStart(c, subs.visited, p, topic, subs.subscriptions);
    while todo != {}
      invariant todo <= particle.subscriptions.Keys
      invariant GatheringPlain(c, subs.visited, p, topic, todo, subs.subscriptions)
    {
      var client :| client in todo;
      GatherStep(c, subs.visited, p, topic, todo, subs.subscriptions, client);
      todo := todo - {client};
      subs.AddPlain(topic, client, particle.subscriptions[client]);
    }
  }

  /** Gathers the shared subscriptions of a particle, keyed by filter. */
  method GatherSharedSubscriptions(ghost c: Contents, particle: Particle, subs: Subscribers)
    requires Sound(c) && particle.Held() == At(c, particle.path)
    requires GatheredShared(c, subs.visited, subs.shared)
    modifies subs`shared
    ensures GatheredShared(c, subs.visited + {particle.path}, subs.shared)
  {
    ghost var p, last := particle.path, "";
    var groups := particle.shared.Keys;
    SharedStart(c, subs.visited, p, last, subs.shared);
    while groups != {}
      invariant groups <= particle.shared.Keys
      invariant GatheringShared(c, subs.visited, p, groups, last, {}, subs.shared)
    {
      var g :| g in groups;
      SharedNextGroup(c, subs.visited, p, groups, last, g, subs.shared);
      groups := groups - {g};
      GatherGroup(c, p, groups, g, particle.shared[g], subs);
      last := g;
    }
    SharedEnd(c, subs.visited, p, last, subs.shared);
  }

  /** Gathers one share group of the particle at p. */
  method GatherGroup(ghost c: Contents, ghost p: Path, ghost groups: set<string>, ghost g: string,
      shares: map<ClientId, Subscription>, subs: Subscribers)
    requires Sound(c) && g in At(c, p).shared && shares == At(c, p).shared[g] && g !in groups
    requires GatheringShared(c, subs.visited, p, groups, g, shares.Keys, subs.shared)
    modifies subs`shared
    ensures GatheringShared(c, subs.visited, p, groups, g, {}, subs.shared)
  {
    var todo := shares.Keys;
    while todo != {}
      invariant todo <= shares.Keys
      invariant GatheringShared(c, subs.visited, p, groups, g, todo, subs.shared)
    {
      var client :| client in todo;
      SharedStep(c, subs.visited, p, groups, g, todo, subs.shared, client);
      todo := todo - {client};
      subs.AddShared(client, shares[client]);
    }
  }

  /** Gathers the inline subscriptions of a particle. */
  method GatherInlineSubscriptions(ghost c: Contents, particle: Particle, subs: Subscribers)
    requires particle.Held() == At(c, particle.path)
    requires GatheredInline(c, subs.visitedInline, subs.inlineSubscriptions)
    modifies subs`inlineSubscriptions, subs`visitedInline
    ensures subs.visitedInline == old(subs.visitedInline) + {particle.path}
    ensures GatheredInline(c, subs.visitedInline, subs.inlineSubscriptions)
  {
    subs.inlineSubscriptions := subs.inlineSubscriptions + particle.inlineSubscriptions;
    subs.visitedInline := subs.visitedInline + {particle.path};
    forall id | id in subs.inlineSubscriptions
      ensures exists p :: p in subs.visitedInline && id in At(c, p).inline
                          && At(c, p).inline[id] == subs.inlineSubscriptions[id]
    {
      if id in particle.inlineSubscriptions {
        assert particle.path in subs.visitedInline;
      } else {
        var p :| p in old(subs.visitedInline) && id in At(c, p).inline
          && At(c, p).inline[id] == old(subs.inlineSubscriptions)[id];
        assert p in subs.visitedInline;
      }
    }
  }

  /** The paths of the nodes of an index. */
  ghost function Paths(nodes: set<Particle>): set<Path> {
    set n | n in nodes :: n.path
  }

  lemma PathsPrefixClosed(x: TopicsIndex)
    requires x.Valid()
    ensures PrefixClosed(Paths(x.nodes))
  {
    forall p | p in Paths(x.nodes) && p != []
      ensures Parent(p) in Paths(x.nodes)
    {
      var n :| n in x.nodes && n.path == p;
      assert Continues(n);
      assert n.parent.path == Parent(p);
    }
  }

  /** The particle below n with the given key, if there is one, and what its absence means. */
  method Child(x: TopicsIndex, n: Particle, key: string) returns (child: Particle?)
    requires x.Valid() && n in x.nodes
    ensures child == null <==> n.path + [key] !in Paths(x.nodes)
    ensures child != null ==> child in x.nodes && child.path == n.path + [key]
  {
    if key in n.particles {
      child := n.particles[key];
      x.ChildAt(n, key, child);
    } else {
      child := null;
      forall m | m in x.nodes
        ensures m.path != n.path + [key]
      {
        x.ChildAt(n, key, m);
      }
    }
  }

  /** What is known of the index and the result during a scan. */
  ghost predicate Scanning(x: TopicsIndex, topic: string, subs: Subscribers)
    requires topic != ""
    reads x`nodes, x`contents, x.nodes, subs
  {
    x.Valid() && Sound(x.contents) && subs.Gathered(x.contents, topic) && subs.sharedSelected == map[]
  }

  /** Gathers everything a particle holds. */
  method GatherParticle(x: TopicsIndex, topic: string, particle: Particle, subs: Subscribers)
    requires topic != "" && Scanning(x, topic, subs) && particle in x.nodes
    modifies subs
    ensures Scanning(x, topic, subs)
    ensures subs.visited == old(subs.visited) + {particle.path}
    ensures subs.visitedInline == old(subs.visitedInline) + {particle.path}
  {
    assert particle.Held() == At(x.contents, particle.path);
    GatherSubscriptions(x.contents, topic, particle, subs);
    GatherSharedSubscriptions(x.contents, particle, subs);
    GatherInlineSubscriptions(x.contents, particle, subs);
    subs.visited := subs.visited + {particle.path};
  }

  /**
   Gathers the "#" particle below one that matches its parent level.  Its inline subscriptions
   are not gathered: the parent's are gathered again instead.
   */
  method GatherParentLevel(x: TopicsIndex, topic: string, particle: Particle, wild: Particle, subs: Subscribers)
    requires topic != "" && Scanning(x, topic, subs) && particle in x.nodes && wild in x.nodes
    modifies subs
    ensures Scanning(x, topic, subs)
    ensures subs.visited == old(subs.visited) + {wild.path}
    ensures subs.visitedInline == old(subs.visitedInline) + {particle.path}
  {
    assert wild.Held() == At(x.contents, wild.path);
    assert particle.Held() == At(x.contents, particle.path);
    GatherSubscriptions(x.contents, topic, wild, subs);
    GatherSharedSubscriptions(x.contents, wild, subs);
    GatherInlineSubscriptions(x.contents, particle, subs);
    subs.visited := subs.visited + {wild.path};
  }

  /** Gathers, below n, what matches the levels of the topic from depth d. */
  method ScanSubscribers(x: TopicsIndex, topic: string, d: nat, n: Particle, subs: Subscribers)
    requires topic != "" && Scanning(x, topic, subs) && n in x.nodes && d < |Split(topic)|
    modifies subs
    ensures Scanning(x, topic, subs)
    ensures subs.visited == old(subs.visited) + Reached(Paths(x.nodes), n.path, Split(topic)[d..])
    ensures subs.visitedInline == old(subs.visitedInline) + ReachedInline(Paths(x.nodes), n.path, Split(topic)[d..])
    decreases |Split(topic)| - d, 1
  {
    ghost var paths, t := Paths(x.nodes), Split(topic)[d..];
    var key, hasNext := IsolateParticle(topic, d);
    assert t[0] == key;
    ghost var v0, w0 := subs.visited, subs.visitedInline;
    ScanBranch(x, topic, d, n, key, hasNext, subs);
    ghost var v1, w1 := subs.visited, subs.visitedInline;
    ScanBranch(x, topic, d, n, "+", hasNext, subs);
    ghost var v2, w2 := subs.visited, subs.visitedInline;
    GatherMultiLevel(x, topic, n, subs);
    ReachedByBranches(paths, n.path, t, v0, v1, v2, subs.visited);
    ReachedInlineByBranches(paths, n.path, t, w0, w1, w2, subs.visitedInline);
  }

  /** Gathers the "#" particle below n, which matches all that remains of the topic. */
  method GatherMultiLevel(x: TopicsIndex, topic: string, n: Particle, subs: Subscribers)
    requires topic != "" && Scanning(x, topic, subs) && n in x.nodes
    modifies subs
    ensures Scanning(x, topic, subs)
    ensures subs.visited == old(subs.visited) + {n.path + ["#"]} * Paths(x.nodes)
    ensures subs.visitedInline == old(subs.visitedInline) + {n.path + ["#"]} * Paths(x.nodes)
  {
    var particle := Child(x, n, "#");
    if particle != null {
      GatherParticle(x, topic, particle, subs);
      assert {n.path + ["#"]} * Paths(x.nodes) == {particle.path};
    } else {
      assert {n.path + ["#"]} * Paths(x.nodes) == {};
    }
  }

  /** One turn of the scan's loop over the topic's own level and "+". */
  method ScanBranch(x: TopicsIndex, topic: string, d: nat, n: Particle, partKey: string, hasNext: bool,
      subs: Subscribers)
    requires topic != "" && Scanning(x, topic, subs) && n in x.nodes && d < |Split(topic)|
    requires hasNext <==> d < |Split(topic)| - 1
    modifies subs
    ensures Scanning(x, topic, subs)
    ensures subs.visited == old(subs.visited) + Branch(Paths(x.nodes), n.path, partKey, Split(topic)[d..])
    ensures subs.visitedInline ==
            old(subs.visitedInline) + BranchInline(Paths(x.nodes), n.path, partKey, Split(topic)[d..])
    decreases |Split(topic)| - d, 0
  {
    ghost var paths, t := Paths(x.nodes), Split(topic)[d..];
    PathsPrefixClosed(x);
    assert t[1..] == Split(topic)[d + 1..];
    var particle := Child(x, n, partKey);
    if particle == null {
      NoneBelow(paths, n.path, partKey, t);
    } else if hasNext {
      ScanSubscribers(x, topic, d + 1, particle, subs);
    } else {
      GatherParticle(x, topic, particle, subs);
      var wild := Child(x, particle, "#");
      assert particle.path in paths;
      if wild != null && partKey != "+" {
        GatherParentLevel(x, topic, particle, wild, subs);
        assert wild.path in paths;
      }
    }
  }

  /**
   The subscribers of a topic: for each client the merge of exactly its matching non-shared
   subscriptions, and for each shared filter exactly its matching members.
   */
  method SubscribersOf(x: TopicsIndex, topic: string) returns (subs: Subscribers)
    requires x.Valid() && Sound(x.contents)
    ensures fresh(subs) && subs.sharedSelected == map[]
    ensures topic == "" ==> subs.subscriptions == map[] && subs.shared == map[]
    ensures topic != "" ==> forall client ::
                HoldsMerge(subs.subscriptions, client, MatchingSubs(x.contents, topic, client))
    ensures topic != "" ==> WellKeyed(subs.shared) && forall client, s ::
                InShared(subs.shared, client, s) <==> MatchingShared(x.contents, topic, s, client)
    ensures topic != "" ==>
              GatheredInline(x.contents, ReachedInline(Paths(x.nodes), [], Split(topic)), subs.inlineSubscriptions)
  {
    subs := new Subscribers();
    if topic == "" {
      return;
    }
    ScanSubscribers(x, topic, 0, x.root, subs);
    ghost var c, paths := x.contents, Paths(x.nodes);
    assert Split(topic)[0..] == Split(topic);
    assert subs.visited == Reached(paths, [], Split(topic));
    assert subs.visitedInline == ReachedInline(paths, [], Split(topic));
    forall client
      ensures HoldsMerge(subs.subscriptions, client, MatchingSubs(c, topic, client))
    {
      PlainOfTopic(c, paths, topic, client);
    }
    forall client, s
      ensures InShared(subs.shared, client, s) <==> MatchingShared(c, topic, s, client)
    {
      SharedOfTopic(c, paths, topic, client, s);
    }
  }

  /**
   The recipients of a message on a topic, when no hook selects shared subscribers itself.  Each
   client appears once, with its matching non-shared subscriptions and those matching shared ones
   for which it was chosen; each matching shared filter chooses exactly one of its members.
   */
  method Recipients(x: TopicsIndex, topic: string) returns (subs: Subscribers, ghost choice: map<string, ClientId>)
    requires x.Valid() && Sound(x.contents) && topic != ""
    ensures ChoiceOf(subs.shared, choice)
    ensures WellKeyed(subs.shared) && forall client, s ::
              InShared(subs.shared, client, s) <==> MatchingShared(x.contents, topic, s, client)
    ensures forall client ::
              DeliveredAs(subs.subscriptions, client, MatchingSubs(x.contents, topic, client),
                          ChosenSubs(subs.shared, choice, client), subs.sharedSelected)
  {
    subs := SubscribersOf(x, topic);
    ghost var c, plain := x.contents, subs.subscriptions;
    SharedStaysUnmerged(c, topic, subs.shared);
    choice := subs.Settle();
    forall client
      ensures DeliveredAs(subs.subscriptions, client, MatchingSubs(c, topic, client),
                          ChosenSubs(subs.shared, choice, client), subs.sharedSelected)
    {
      KindsApart(c, topic, client, subs.shared, choice);
      MergeSelected(plain, subs.sharedSelected, client, MatchingSubs(c, topic, client),
                    ChosenSubs(subs.shared, choice, client), subs.subscriptions);
    }
  }
}
