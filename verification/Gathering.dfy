/**
 What a scan of the topic index has gathered after visiting a set of paths, whatever the order
 of the visits, and which paths a scan visits (broker/topics.go, gatherSubscriptions and
 scanSubscribers).
 */
module Gathering {
  import opened Wrappers
  import opened Levels
  import opened Filters
  import opened Subscriptions
  import opened IndexSpec

  type SharedMap = map<string, map<ClientId, Subscription>>

  // ---------- Paths visited ----------

  ghost predicate PrefixClosed(paths: set<Path>) {
    forall p | p in paths && p != [] :: Parent(p) in paths
  }

  /** The paths below p that a scan for the remaining levels t gathers. */
  ghost function Reached(paths: set<Path>, p: Path, t: Path): set<Path> {
    set q | q in paths && p <= q && Matches(q[|p|..], t)
  }

  ghost function ReachedInline(paths: set<Path>, p: Path, t: Path): set<Path> {
    set q | q in paths && p <= q && MatchesInline(q[|p|..], t)
  }

  /** The part of Reached that goes through one child. */
  ghost function Branch(paths: set<Path>, p: Path, key: string, t: Path): set<Path>
    requires t != []
  {
    if |t| > 1 then Reached(paths, p + [key], t[1..])
    else if key != "+" then {p + [key], p + [key] + ["#"]} * paths
    else {p + [key]} * paths
  }

  ghost function BranchInline(paths: set<Path>, p: Path, key: string, t: Path): set<Path>
    requires t != []
  {
    if |t| > 1 then ReachedInline(paths, p + [key], t[1..]) else {p + [key]} * paths
  }

  lemma Below(p: Path, key: string, q: Path)
    ensures p + [key] <= q <==> p <= q && |q| > |p| && q[|p|] == key
    ensures p + [key] <= q ==> q[|p|..] == [key] + q[|p| + 1..]
    ensures p <= q && q[|p|..] == [key] <==> q == p + [key]
    ensures p <= q && q[|p|..] == [key, "#"] <==> q == p + [key] + ["#"]
  {
    assert p <= q ==> q == p + q[|p|..];
  }

  lemma ReachedSplit(paths: set<Path>, p: Path, t: Path)
    requires t != []
    ensures Reached(paths, p, t) ==
            Branch(paths, p, t[0], t) + Branch(paths, p, "+", t) + {p + ["#"]} * paths
  {
    forall q
      ensures q in Reached(paths, p, t) <==>
              q in Branch(paths, p, t[0], t) + Branch(paths, p, "+", t) + {p + ["#"]} * paths
    {
      Below(p, t[0], q);
      Below(p, "+", q);
      Below(p, "#", q);
      if p <= q && q in paths {
        var f := q[|p|..];
        if |t| == 1 && f != [] {
          assert f == [f[0]] + f[1..];
        }
      }
    }
  }

  lemma ReachedInlineSplit(paths: set<Path>, p: Path, t: Path)
    requires t != []
    ensures ReachedInline(paths, p, t) ==
            BranchInline(paths, p, t[0], t) + BranchInline(paths, p, "+", t) + {p + ["#"]} * paths
  {
    forall q
      ensures q in ReachedInline(paths, p, t) <==>
              q in BranchInline(paths, p, t[0], t) + BranchInline(paths, p, "+", t) + {p + ["#"]} * paths
    {
      Below(p, t[0], q);
      Below(p, "+", q);
      Below(p, "#", q);
    }
  }

  lemma ReachedByBranches(paths: set<Path>, p: Path, t: Path, v0: set<Path>, v1: set<Path>, v2: set<Path>,
      v3: set<Path>)
    requires t != []
    requires v1 == v0 + Branch(paths, p, t[0], t)
    requires v2 == v1 + Branch(paths, p, "+", t)
    requires v3 == v2 + {p + ["#"]} * paths
    ensures v3 == v0 + Reached(paths, p, t)
  {
    ReachedSplit(paths, p, t);
  }

  lemma ReachedInlineByBranches(paths: set<Path>, p: Path, t: Path, v0: set<Path>, v1: set<Path>, v2: set<Path>,
      v3: set<Path>)
    requires t != []
    requires v1 == v0 + BranchInline(paths, p, t[0], t)
    requires v2 == v1 + BranchInline(paths, p, "+", t)
    requires v3 == v2 + {p + ["#"]} * paths
    ensures v3 == v0 + ReachedInline(paths, p, t)
  {
    ReachedInlineSplit(paths, p, t);
  }

  /** Nothing lies below a path that is not there. */
  lemma NoneBelow(paths: set<Path>, p: Path, key: string, t: Path)
    requires PrefixClosed(paths) && p + [key] !in paths && t != []
    ensures Branch(paths, p, key, t) == {} && BranchInline(paths, p, key, t) == {}
  {
    forall q | q in paths
      ensures !(p + [key] <= q)
    {
      if p + [key] <= q {
        Prefixes(paths, p + [key], q);
      }
    }
  }

  lemma {:induction false} Prefixes(paths: set<Path>, p: Path, q: Path)
    requires PrefixClosed(paths) && q in paths && p <= q
    ensures p in paths
    decreases |q|
  {
    if p != q {
      Prefixes(paths, p, Parent(q));
    }
  }

  // ---------- Non-shared subscriptions ----------

  /** The subscriptions of a client at the visited paths, but for those excluded on '$' topics. */
  ghost function PlainAt(c: Contents, paths: set<Path>, topic: string, client: ClientId): set<Subscription>
    requires topic != ""
  {
    set p | p in paths && client in At(c, p).subs && !Excluded(topic, At(c, p).subs[client].filter)
      :: At(c, p).subs[client]
  }

  /** m holds for a client exactly the merge of the given subscriptions. */
  ghost predicate HoldsMerge(m: map<ClientId, Subscription>, client: ClientId, subs: set<Subscription>) {
    && (client in m <==> subs != {})
    && (client in m ==> MergedFrom(m[client], subs))
  }

  ghost predicate GatheredPlain(c: Contents, paths: set<Path>, topic: string, m: map<ClientId, Subscription>)
    requires topic != ""
  {
    forall client :: HoldsMerge(m, client, PlainAt(c, paths, topic, client))
  }

  lemma PlainAtMore(c: Contents, paths: set<Path>, topic: string, client: ClientId, p: Path)
    requires topic != ""
    ensures PlainAt(c, paths + {p}, topic, client) ==
            if client in At(c, p).subs && !Excluded(topic, At(c, p).subs[client].filter)
            then PlainAt(c, paths, topic, client) + {At(c, p).subs[client]}
            else PlainAt(c, paths, topic, client)
  {
  }

  /** A client holds at most one subscription for a filter, so its set can be merged. */
  lemma PlainUnmerged(c: Contents, paths: set<Path>, topic: string, client: ClientId)
    requires topic != "" && Filed(c) && AllUnmerged(c)
    ensures Unmerged(PlainAt(c, paths, topic, client))
  {
    var subs := PlainAt(c, paths, topic, client);
    forall s | s in subs
      ensures s.identifiers.None? && KeyOf(s.filter).Plain? && Lookup(c, client, KeyOf(s.filter)) == Some(s)
    {
      var p :| p in paths && client in At(c, p).subs && At(c, p).subs[client] == s;
      assert Lookup(c, client, Plain(p)) == Some(s);
    }
  }

  lemma MergeMore(m: map<ClientId, Subscription>, client: ClientId, subs: set<Subscription>, sub: Subscription)
    requires HoldsMerge(m, client, subs) && Unmerged(subs + {sub})
    ensures HoldsMerge(m[client := (if client in m then m[client] else sub).Merge(sub)], client, subs + {sub})
  {
    assert sub in subs + {sub};
    if client in m {
      MergeNext(m[client], subs, sub);
    } else {
      MergeFirst(sub);
      assert subs + {sub} == {sub};
    }
  }

  lemma OthersKept(m: map<ClientId, Subscription>, r: map<ClientId, Subscription>, client: ClientId,
      subs: set<Subscription>)
    requires HoldsMerge(m, client, subs)
    requires client in m <==> client in r
    requires client in m ==> r[client] == m[client]
    ensures HoldsMerge(r, client, subs)
  {
  }

  /** Midway through a node: the clients in todo have not been merged in yet. */
  ghost predicate GatheringPlain(c: Contents, paths: set<Path>, p: Path, topic: string, todo: set<ClientId>,
      m: map<ClientId, Subscription>)
    requires topic != ""
  {
    forall client ::
      HoldsMerge(m, client, PlainAt(c, if client in todo then paths else paths + {p}, topic, client))
  }

  lemma GatherStart(c: Contents, paths: set<Path>, p: Path, topic: string, m: map<ClientId, Subscription>)
    requires topic != "" && GatheredPlain(c, paths, topic, m)
    ensures GatheringPlain(c, paths, p, topic, At(c, p).subs.Keys, m)
  {
    forall client
      ensures HoldsMerge(m, client,
                         PlainAt(c, if client in At(c, p).subs.Keys then paths else paths + {p}, topic, client))
    {
      PlainAtMore(c, paths, topic, client, p);
    }
  }

  /** One client's subscription, merged in or skipped as gatherSubscriptions does. */
  function GatherOne(topic: string, client: ClientId, sub: Subscription, m: map<ClientId, Subscription>)
    : map<ClientId, Subscription>
    requires topic != ""
  {
    if Excluded(topic, sub.filter) then m
    else m[client := (if client in m then m[client] else sub).Merge(sub)]
  }

  lemma GatherStep(c: Contents, paths: set<Path>, p: Path, topic: string, todo: set<ClientId>,
      m: map<ClientId, Subscription>, client: ClientId)
    requires topic != "" && Filed(c) && AllUnmerged(c)
    requires client in todo && todo <= At(c, p).subs.Keys
    requires GatheringPlain(c, paths, p, topic, todo, m)
    ensures GatheringPlain(c, paths, p, topic, todo - {client}, GatherOne(topic, client, At(c, p).subs[client], m))
  {
    var sub := At(c, p).subs[client];
    var r := GatherOne(topic, client, sub, m);
    PlainAtMore(c, paths, topic, client, p);
    PlainUnmerged(c, paths + {p}, topic, client);
    if !Excluded(topic, sub.filter) {
      MergeMore(m, client, PlainAt(c, paths, topic, client), sub);
    }
    forall other | other != client
      ensures HoldsMerge(r, other, PlainAt(c, if other in todo - {client} then paths else paths + {p}, topic, other))
    {
      GatherOther(c, paths, p, topic, todo, m, client, sub, other);
    }
  }

  /** Another client keeps what was gathered for it. */
  lemma GatherOther(c: Contents, paths: set<Path>, p: Path, topic: string, todo: set<ClientId>,
      m: map<ClientId, Subscription>, client: ClientId, sub: Subscription, other: ClientId)
    requires topic != "" && other != client
    requires HoldsMerge(m, other, PlainAt(c, if other in todo then paths else paths + {p}, topic, other))
    ensures HoldsMerge(GatherOne(topic, client, sub, m), other,
                       PlainAt(c, if other in todo - {client} then paths else paths + {p}, topic, other))
  {
    OthersKept(m, GatherOne(topic, client, sub, m), other,
               PlainAt(c, if other in todo then paths else paths + {p}, topic, other));
  }

  // ---------- Shared subscriptions ----------

  /** The shared map holds s for its filter and the client. */
  ghost predicate InShared(m: SharedMap, client: ClientId, s: Subscription) {
    s.filter in m && client in m[s.filter] && m[s.filter][client] == s
  }

  ghost predicate SharedAt(c: Contents, p: Path, g: string, client: ClientId) {
    g in At(c, p).shared && client in At(c, p).shared[g]
  }

  ghost predicate SharedIn(c: Contents, paths: set<Path>, client: ClientId, s: Subscription) {
    exists p, g :: p in paths && SharedAt(c, p, g, client) && At(c, p).shared[g][client] == s
  }

  /** Exactly the shared subscriptions at the visited paths, keyed by filter, then client. */
  ghost predicate GatheredShared(c: Contents, paths: set<Path>, m: SharedMap) {
    && (forall client, s :: InShared(m, client, s) <==> SharedIn(c, paths, client, s))
    && WellKeyed(m)
  }

  ghost predicate WellKeyed(m: SharedMap) {
    forall f | f in m :: m[f] != map[] && forall client | client in m[f] :: m[f][client].filter == f
  }

  /** A client holds one shared subscription for a filter. */
  lemma SharedUnique(c: Contents, client: ClientId, p: Path, g: string, q: Path, h: string)
    requires Filed(c) && SharedAt(c, p, g, client) && SharedAt(c, q, h, client)
    requires At(c, p).shared[g][client].filter == At(c, q).shared[h][client].filter
    ensures p == q && g == h
  {
    assert Lookup(c, client, Shared(g, p)).Some? && Lookup(c, client, Shared(h, q)).Some?;
    assert KeyOf(At(c, p).shared[g][client].filter) == Shared(g, p);
    assert KeyOf(At(c, q).shared[h][client].filter) == Shared(h, q);
  }

  /** Midway through a node: of the group g, the clients in todo are still missing. */
  ghost predicate GatheringShared(c: Contents, paths: set<Path>, p: Path, groups: set<string>, g: string,
      todo: set<ClientId>, m: SharedMap) {
    && (forall client, s :: InShared(m, client, s) <==>
          SharedIn(c, paths, client, s) || SharedSeen(c, p, groups, g, todo, client, s))
    && WellKeyed(m)
  }

  /** s was met at p: in a group not in `groups`, or in g for a client not in `todo`. */
  ghost predicate SharedSeen(c: Contents, p: Path, groups: set<string>, g: string, todo: set<ClientId>,
      client: ClientId, s: Subscription) {
    exists h :: SharedAt(c, p, h, client) && At(c, p).shared[h][client] == s
                && (h !in groups && (h != g || client !in todo))
  }

  lemma SharedStart(c: Contents, paths: set<Path>, p: Path, g: string, m: SharedMap)
    requires GatheredShared(c, paths, m)
    ensures GatheringShared(c, paths, p, At(c, p).shared.Keys, g, {}, m)
  {
  }

  lemma SharedNextGroup(c: Contents, paths: set<Path>, p: Path, groups: set<string>, last: string, g: string,
      m: SharedMap)
    requires GatheringShared(c, paths, p, groups, last, {}, m) && g in groups && g in At(c, p).shared
    ensures GatheringShared(c, paths, p, groups - {g}, g, At(c, p).shared[g].Keys, m)
  {
    forall client, s
      ensures SharedSeen(c, p, groups, last, {}, client, s) <==>
              SharedSeen(c, p, groups - {g}, g, At(c, p).shared[g].Keys, client, s)
    {
    }
  }

  function AddToShared(m: SharedMap, client: ClientId, sub: Subscription): SharedMap {
    m[sub.filter := (if sub.filter in m then m[sub.filter] else map[])[client := sub]]
  }

  lemma SharedStep(c: Contents, paths: set<Path>, p: Path, groups: set<string>, g: string, todo: set<ClientId>,
      m: SharedMap, client: ClientId)
    requires Filed(c) && SharedAt(c, p, g, client) && g !in groups && client in todo
    requires GatheringShared(c, paths, p, groups, g, todo, m)
    ensures GatheringShared(c, paths, p, groups, g, todo - {client}, AddToShared(m, client, At(c, p).shared[g][client]))
  {
    var sub := At(c, p).shared[g][client];
    var r := AddToShared(m, client, sub);
    assert client in r[sub.filter];
    forall who, s
      ensures InShared(r, who, s) <==>
              SharedIn(c, paths, who, s) || SharedSeen(c, p, groups, g, todo - {client}, who, s)
    {
      assert InShared(r, who, s) <==>
             (who == client && s == sub) || (InShared(m, who, s) && !(who == client && s.filter == sub.filter));
      assert SharedSeen(c, p, groups, g, todo - {client}, who, s) <==>
             SharedSeen(c, p, groups, g, todo, who, s) || (who == client && s == sub);
      if who == client && s.filter == sub.filter {
        if SharedIn(c, paths, who, s) {
          var q, h :| q in paths && SharedAt(c, q, h, who) && At(c, q).shared[h][who] == s;
          SharedUnique(c, client, p, g, q, h);
        }
        if SharedSeen(c, p, groups, g, todo, who, s) {
          var h :| SharedAt(c, p, h, who) && At(c, p).shared[h][who] == s && h !in groups;
          SharedUnique(c, client, p, g, p, h);
        }
      }
    }
  }

  lemma SharedEnd(c: Contents, paths: set<Path>, p: Path, g: string, m: SharedMap)
    requires GatheringShared(c, paths, p, {}, g, {}, m)
    ensures GatheredShared(c, paths + {p}, m)
  {
    forall client, s
      ensures SharedIn(c, paths + {p}, client, s) <==>
              SharedIn(c, paths, client, s) || SharedSeen(c, p, {}, g, {}, client, s)
    {
      if SharedIn(c, paths, client, s) {
        var q, h :| q in paths && SharedAt(c, q, h, client) && At(c, q).shared[h][client] == s;
        assert q in paths + {p};
      }
      if SharedSeen(c, p, {}, g, {}, client, s) {
        var h :| SharedAt(c, p, h, client) && At(c, p).shared[h][client] == s;
        assert p in paths + {p};
      }
    }
  }

  // ---------- Inline subscriptions ----------

  /** The identifiers at the visited paths, each with one of its subscriptions there. */
  ghost predicate GatheredInline(c: Contents, paths: set<Path>, m: map<int, Subscription>) {
    && (forall id | id in m :: exists p :: p in paths && id in At(c, p).inline && At(c, p).inline[id] == m[id])
    && (forall p, id | p in paths && id in At(c, p).inline :: id in m)
  }

  // ---------- The whole topic ----------

  /** Visiting the matching paths gathers the matching subscriptions of the contents. */
  lemma PlainOfTopic(c: Contents, paths: set<Path>, topic: string, client: ClientId)
    requires topic != "" && forall p | p in c :: p in paths
    ensures PlainAt(c, Reached(paths, [], Split(topic)), topic, client) == MatchingSubs(c, topic, client)
  {
    var visited := Reached(paths, [], Split(topic));
    forall p
      ensures p in visited <==> p in paths && Matches(p, Split(topic))
    {
      assert p[0..] == p;
    }
  }

  lemma SharedOfTopic(c: Contents, paths: set<Path>, topic: string, client: ClientId, s: Subscription)
    requires topic != "" && Filed(c) && forall p | p in c :: p in paths
    ensures SharedIn(c, Reached(paths, [], Split(topic)), client, s) <==> MatchingShared(c, topic, s, client)
  {
    var visited := Reached(paths, [], Split(topic));
    forall p
      ensures p in visited <==> p in paths && Matches(p, Split(topic))
    {
      assert p[0..] == p;
    }
    if SharedIn(c, visited, client, s) {
      var p, g :| p in visited && SharedAt(c, p, g, client) && At(c, p).shared[g][client] == s;
      assert Lookup(c, client, Shared(g, p)) == Some(s);
      assert KeyOf(s.filter) == Shared(g, p);
    }
    if MatchingShared(c, topic, s, client) {
      var key := KeyOf(s.filter);
      assert key.path in visited && SharedAt(c, key.path, key.group, client);
    }
  }

  // ---------- Choosing among shared subscriptions ----------

  /** One member for each shared filter. */
  ghost predicate ChoiceOf(shared: SharedMap, choice: map<string, ClientId>) {
    choice.Keys == shared.Keys && forall f | f in choice :: choice[f] in shared[f]
  }

  /** The shared subscriptions for which a client was chosen. */
  ghost function ChosenSubs(shared: SharedMap, choice: map<string, ClientId>, client: ClientId): set<Subscription> {
    set f | f in choice && choice[f] == client && f in shared && client in shared[f] :: shared[f][client]
  }

  ghost predicate SharedUnmerged(shared: SharedMap) {
    forall f, client | f in shared && client in shared[f] :: shared[f][client].identifiers.None?
  }

  lemma ChosenMore(shared: SharedMap, choice: map<string, ClientId>, f: string, client: ClientId, who: ClientId)
    requires f !in choice && f in shared && client in shared[f]
    ensures ChosenSubs(shared, choice[f := client], who) ==
            if who == client then ChosenSubs(shared, choice, who) + {shared[f][client]}
            else ChosenSubs(shared, choice, who)
  {
    var more := choice[f := client];
    forall s
      ensures s in ChosenSubs(shared, more, who) <==>
              s in ChosenSubs(shared, choice, who) || (who == client && s == shared[f][client])
    {
      if s in ChosenSubs(shared, choice, who) {
        var g :| g in choice && choice[g] == who && g in shared && who in shared[g] && shared[g][who] == s;
        assert g in more;
      }
      assert f in more;
    }
  }

  lemma ChosenUnmerged(shared: SharedMap, choice: map<string, ClientId>, client: ClientId)
    requires WellKeyed(shared) && SharedUnmerged(shared)
    ensures Unmerged(ChosenSubs(shared, choice, client))
  {
  }

  /** Each client holds the merge of the shared subscriptions it was chosen for. */
  ghost predicate SelectedAs(shared: SharedMap, choice: map<string, ClientId>, m: map<ClientId, Subscription>) {
    forall client :: HoldsMerge(m, client, ChosenSubs(shared, choice, client))
  }

  lemma SelectStep(shared: SharedMap, choice: map<string, ClientId>, f: string, client: ClientId,
      m: map<ClientId, Subscription>)
    requires WellKeyed(shared) && SharedUnmerged(shared)
    requires f !in choice && f in shared && client in shared[f]
    requires SelectedAs(shared, choice, m)
    ensures var sub := shared[f][client];
            SelectedAs(shared, choice[f := client], m[client := (if client in m then m[client] else sub).Merge(sub)])
  {
    var sub := shared[f][client];
    var r := m[client := (if client in m then m[client] else sub).Merge(sub)];
    var more := choice[f := client];
    forall who
      ensures HoldsMerge(r, who, ChosenSubs(shared, more, who))
    {
      ChosenMore(shared, choice, f, client, who);
      if who == client {
        ChosenUnmerged(shared, choice[f := client], client);
        MergeMore(m, client, ChosenSubs(shared, choice, client), sub);
      } else {
        OthersKept(m, r, who, ChosenSubs(shared, choice, who));
      }
    }
  }

  /**
   What a client finally gets for a topic: its matching non-shared subscriptions `plain` and the
   shared ones it was chosen for, `chosen`, merged.  Identifiers are complete unless the client has
   both kinds and was chosen for a second filter with an identifier.
   */
  ghost predicate DeliveredAs(m: map<ClientId, Subscription>, client: ClientId, plain: set<Subscription>,
      chosen: set<Subscription>, selected: map<ClientId, Subscription>) {
    && (client in m <==> plain + chosen != {})
    && (client in selected <==> chosen != {})
    && (client in m ==>
          && QosIsMaximum(m[client], plain + chosen)
          && NoLocalIsOr(m[client], plain + chosen)
          && BaseAmong(m[client], plain + chosen)
          && (IdentifiersExact(m[client], plain + chosen) <==>
              (plain == {} || chosen == {}
               || forall s | s in chosen && s.identifier > 0 :: s.filter == selected[client].filter)))
  }

  /** The selected subscribers have been merged into the non-shared ones. */
  ghost predicate MergedInto(m: map<ClientId, Subscription>, selected: map<ClientId, Subscription>,
      r: map<ClientId, Subscription>) {
    && r.Keys == m.Keys + selected.Keys
    && (forall client | client in r && client !in selected :: r[client] == m[client])
    && (forall client | client in selected ::
          r[client] == (if client in m then m[client] else selected[client]).Merge(selected[client]))
  }

  lemma MergeSelected(m: map<ClientId, Subscription>, selected: map<ClientId, Subscription>, client: ClientId,
      plain: set<Subscription>, chosen: set<Subscription>, r: map<ClientId, Subscription>)
    requires HoldsMerge(m, client, plain) && HoldsMerge(selected, client, chosen)
    requires Unmerged(plain + chosen) && plain !! chosen
    requires MergedInto(m, selected, r)
    ensures DeliveredAs(r, client, plain, chosen, selected)
  {
    if client in selected {
      var n := selected[client];
      if client in m {
        MergeOfMerged(m[client], plain, n, chosen);
      } else {
        assert plain + chosen == chosen;
        MergeWithItself(n, chosen);
      }
    } else {
      assert plain + chosen == plain;
    }
  }

  lemma SharedStaysUnmerged(c: Contents, topic: string, shared: SharedMap)
    requires AllUnmerged(c) && WellKeyed(shared)
    requires forall client, s :: InShared(shared, client, s) <==> MatchingShared(c, topic, s, client)
    ensures SharedUnmerged(shared)
  {
    forall f, client | f in shared && client in shared[f]
      ensures shared[f][client].identifiers.None?
    {
      var s := shared[f][client];
      assert InShared(shared, client, s);
      assert Lookup(c, client, KeyOf(s.filter)) == Some(s);
    }
  }

  /** A client's shared and non-shared subscriptions never have the same filter. */
  lemma KindsApart(c: Contents, topic: string, client: ClientId, shared: SharedMap, choice: map<string, ClientId>)
    requires topic != "" && Filed(c) && AllUnmerged(c) && WellKeyed(shared) && SharedUnmerged(shared)
    requires forall who, s :: InShared(shared, who, s) <==> MatchingShared(c, topic, s, who)
    ensures var plain, chosen := MatchingSubs(c, topic, client), ChosenSubs(shared, choice, client);
            Unmerged(plain + chosen) && plain !! chosen
  {
    var plain, chosen := MatchingSubs(c, topic, client), ChosenSubs(shared, choice, client);
    forall s | s in plain
      ensures s.identifiers.None? && KeyOf(s.filter).Plain? && Lookup(c, client, KeyOf(s.filter)) == Some(s)
    {
      MatchingIsLookup(c, topic, client, s);
    }
    forall s | s in chosen
      ensures s.identifiers.None? && KeyOf(s.filter).Shared? && Lookup(c, client, KeyOf(s.filter)) == Some(s)
    {
      assert InShared(shared, client, s);
    }
  }

  // ---------- Copies for a share group ----------

  /** The members of a share group at a path. */
  ghost function Members(c: Contents, key: FilterKey): map<ClientId, Subscription>
    requires key.Shared?
  {
    if key.group in At(c, key.path).shared then At(c, key.path).shared[key.group] else map[]
  }

  /** The filters under one key for which a member was chosen: one copy each. */
  ghost function Copies(choice: map<string, ClientId>, key: FilterKey): set<string> {
    set f | f in choice && KeyOf(f) == key
  }

  /** The first level of a shared filter is the share prefix as the client spelled it. */
  function Spelling(filter: string): string {
    Split(filter)[0]
  }

  ghost function Spellings(c: Contents, key: FilterKey): set<string>
    requires key.Shared?
  {
    set client | client in Members(c, key) :: Spelling(Members(c, key)[client].filter)
  }

  ghost predicate AllValidFilters(c: Contents) {
    forall client, key :: Lookup(c, client, key).Some? ==> IsValidFilter(Lookup(c, client, key).value.filter, false)
  }

  /** What was gathered for a topic under a key is what the members of its group hold, if it matches. */
  lemma GatheredUnderKey(c: Contents, topic: string, shared: SharedMap, key: FilterKey, client: ClientId, f: string)
    requires Filed(c) && WellKeyed(shared) && key.Shared?
    requires forall who, s :: InShared(shared, who, s) <==> MatchingShared(c, topic, s, who)
    ensures KeyOf(f) == key && f in shared && client in shared[f] <==>
            Matches(key.path, Split(topic)) && client in Members(c, key) && Members(c, key)[client].filter == f
    ensures KeyOf(f) == key && f in shared && client in shared[f] ==> Lookup(c, client, key) == Some(shared[f][client])
  {
    if f in shared && client in shared[f] && KeyOf(f) == key {
      assert InShared(shared, client, shared[f][client]);
    }
    if client in Members(c, key) && Members(c, key)[client].filter == f && Matches(key.path, Split(topic)) {
      var s := Members(c, key)[client];
      assert Lookup(c, client, key) == Some(s);
      assert MatchingShared(c, topic, s, client);
      assert InShared(shared, client, s);
    }
  }

  lemma {:induction false} SameSize(filters: set<string>, words: set<string>)
    requires forall f | f in filters :: Spelling(f) in words
    requires forall w | w in words :: exists f :: f in filters && Spelling(f) == w
    requires forall f, g | f in filters && g in filters && Spelling(f) == Spelling(g) :: f == g
    ensures |filters| == |words|
  {
    if f :| f in filters {
      var w := Spelling(f);
      forall v | v in words - {w}
        ensures exists g :: g in filters - {f} && Spelling(g) == v
      {
        var g :| g in filters && Spelling(g) == v;
        assert g in filters - {f};
      }
      SameSize(filters - {f}, words - {w});
    } else {
      assert words == {};
    }
  }

  /** A member is chosen for at most one filter under a key, and only for its own. */
  lemma CopyOfMember(c: Contents, topic: string, shared: SharedMap, choice: map<string, ClientId>, key: FilterKey,
      f: string)
    requires Filed(c) && WellKeyed(shared) && ChoiceOf(shared, choice) && key.Shared?
    requires forall who, s :: InShared(shared, who, s) <==> MatchingShared(c, topic, s, who)
    requires f in Copies(choice, key)
    ensures choice[f] in Members(c, key) && Members(c, key)[choice[f]].filter == f
    ensures Matches(key.path, Split(topic)) && Lookup(c, choice[f], key).Some?
  {
    GatheredUnderKey(c, topic, shared, key, choice[f], f);
  }

  /**
   A share group gets as many copies of a message as its members have spellings of the share prefix,
   each for another member: those who spell it alike share one copy.
   */
  lemma SharedCopies(c: Contents, topic: string, shared: SharedMap, choice: map<string, ClientId>, key: FilterKey)
    requires Filed(c) && AllValidFilters(c) && WellKeyed(shared) && ChoiceOf(shared, choice) && key.Shared?
    requires forall who, s :: InShared(shared, who, s) <==> MatchingShared(c, topic, s, who)
    ensures |Copies(choice, key)| == if Matches(key.path, Split(topic)) then |Spellings(c, key)| else 0
    ensures forall f | f in Copies(choice, key) ::
              choice[f] in Members(c, key) && Members(c, key)[choice[f]].filter == f
  {
    var copies := Copies(choice, key);
    forall f | f in copies
      ensures choice[f] in Members(c, key) && Members(c, key)[choice[f]].filter == f
      ensures Matches(key.path, Split(topic)) && IsValidFilter(f, false)
    {
      CopyOfMember(c, topic, shared, choice, key, f);
    }
    if Matches(key.path, Split(topic)) {
      forall client | client in Members(c, key)
        ensures Members(c, key)[client].filter in copies
      {
        var f := Members(c, key)[client].filter;
        assert Lookup(c, client, key) == Some(Members(c, key)[client]);
        GatheredUnderKey(c, topic, shared, key, client, f);
      }
      forall f, g | f in copies && g in copies && Spelling(f) == Spelling(g)
        ensures f == g
      {
        KeyOfInjective(f, g);
      }
      SameSize(copies, Spellings(c, key));
    }
  }

  /** Exactly one copy, as section 4.8.2 asks, if and only if the matching members all spell the prefix alike. */
  lemma OneCopyExactly(c: Contents, topic: string, shared: SharedMap, choice: map<string, ClientId>, key: FilterKey)
    requires Filed(c) && AllValidFilters(c) && WellKeyed(shared) && ChoiceOf(shared, choice) && key.Shared?
    requires forall who, s :: InShared(shared, who, s) <==> MatchingShared(c, topic, s, who)
    requires Matches(key.path, Split(topic)) && Members(c, key) != map[]
    ensures |Copies(choice, key)| == 1 <==>
            forall a, b | a in Members(c, key) && b in Members(c, key) ::
              Spelling(Members(c, key)[a].filter) == Spelling(Members(c, key)[b].filter)
  {
    SharedCopies(c, topic, shared, choice, key);
    AlikeExactly(Members(c, key), Spellings(c, key));
  }

  lemma AlikeExactly(members: map<ClientId, Subscription>, words: set<string>)
    requires members != map[] && words == set client | client in members :: Spelling(members[client].filter)
    ensures |words| == 1 <==>
            forall a, b | a in members && b in members :: Spelling(members[a].filter) == Spelling(members[b].filter)
  {
    var a :| a in members;
    var w := Spelling(members[a].filter);
    assert w in words && |words - {w}| == |words| - 1;
    if |words| == 1 {
      assert words - {w} == {};
      forall b | b in members ensures Spelling(members[b].filter) == w {
        assert Spelling(members[b].filter) in words;
      }
    } else {
      var x :| x in words - {w};
      var b :| b in members && Spelling(members[b].filter) == x;
    }
  }
}
