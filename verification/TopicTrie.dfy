/**
 The topic index as the broker keeps it: a mutable trie of particles with parent links
 (broker/topics.go).

 The ghost set `nodes` says which particles the trie has.  Each operation is proved to be one step
 of IndexSpec on the contents of those nodes and to keep the trie minimal.
 */
module TopicTrie {
  import opened Levels
  import opened Filters
  import opened Subscriptions
  import opened IndexSpec

  class Particle {
    const key: string
    const parent: Particle?
    ghost const path: Path  // the keys from the root down to this particle
    var particles: map<string, Particle>
    var subscriptions: map<ClientId, Subscription>
    var shared: map<string, map<ClientId, Subscription>>
    var inlineSubscriptions: map<int, Subscription>
    var retainPath: string

    constructor (key: string, parent: Particle?)
      ensures this.key == key && this.parent == parent && particles == map[] && Held() == Empty
      ensures path == if parent == null then [] else parent.path + [key]
    {
      this.key, this.parent := key, parent;
      path := if parent == null then [] else parent.path + [key];
      particles, subscriptions, shared, inlineSubscriptions, retainPath := map[], map[], map[], map[], "";
    }

    /** What the particle itself holds. */
    ghost function Held(): Content
      reads `subscriptions, `shared, `inlineSubscriptions, `retainPath
    {
      Content(subscriptions, shared, inlineSubscriptions, retainPath)
    }

    /** Adds a subscription of a client to a share group, making the group if need be. */
    method AddShared(group: string, client: ClientId, sub: Subscription)
      modifies this`shared
      ensures shared == IndexSpec.AddShared(old(shared), group, client, sub)
    {
      if group !in shared {
        shared := shared[group := map[]];
      }
      shared := shared[group := shared[group][client := sub]];
    }

    /** Deletes a client from a share group, and the group with its last client. */
    method DeleteShared(group: string, client: ClientId)
      modifies this`shared
      ensures shared == IndexSpec.DeleteShared(old(shared), group, client)
    {
      if group in shared {
        shared := shared[group := shared[group] - {client}];
      }
      if group !in shared || |shared[group]| == 0 {
        shared := shared - {group};
      }
    }

    /** The number of shared subscriptions over all groups. */
    method SharedLen() returns (n: nat)
      requires ProperShared(shared)
      ensures n == MembersIn(shared, shared.Keys) && (n == 0 <==> shared == map[])
    {
      n := 0;
      var rest := shared.Keys;
      while rest != {}
        invariant rest <= shared.Keys
        invariant n + MembersIn(shared, rest) == MembersIn(shared, shared.Keys)
        invariant n == 0 <==> rest == shared.Keys
      {
        var group :| group in rest;
        assert shared[group] != map[];
        MembersWithout(shared, rest, group);
        n := n + |shared[group]|;
        rest := rest - {group};
      }
    }

    /** The condition under which `trim` removes a particle from its parent. */
    method IsDeadLeaf() returns (dead: bool)
      requires ProperShared(shared)
      ensures dead <==> parent != null && particles == map[] && Held() == Empty
    {
      var sharedLen := SharedLen();
      dead := parent != null && retainPath == ""
              && |particles| + |subscriptions| + sharedLen + |inlineSubscriptions| == 0;
    }
  }

  /** The members of some share groups, counted. */
  ghost function MembersIn(shared: map<string, map<ClientId, Subscription>>, groups: set<string>): nat
    requires groups <= shared.Keys
  {
    if groups == {} then 0
    else
      var group :| group in groups;
      |shared[group]| + MembersIn(shared, groups - {group})
  }

  lemma {:induction false} MembersWithout(shared: map<string, map<ClientId, Subscription>>, groups: set<string>,
      group: string)
    requires group in groups && groups <= shared.Keys
    ensures MembersIn(shared, groups) == |shared[group]| + MembersIn(shared, groups - {group})
    decreases |groups|
  {
    var first :| first in groups && MembersIn(shared, groups) == |shared[first]| + MembersIn(shared, groups - {first});
    if first != group {
      MembersWithout(shared, groups - {first}, group);
      MembersWithout(shared, groups - {group}, first);
      assert groups - {first} - {group} == groups - {group} - {first};
    }
  }

  /** The path of a particle continues the path of its parent with its own key. */
  ghost predicate Continues(n: Particle) {
    n.parent != null && n.path == n.parent.path + [n.key]
  }

  /** A path leads to at most one node. */
  ghost predicate UniquePaths(nodes: set<Particle>) {
    forall a, b {:trigger a.path, b.path} | a in nodes && b in nodes && a.path == b.path :: a == b
  }

  /** Every path that holds something leads to a node. */
  ghost predicate Covers(nodes: set<Particle>, contents: Contents) {
    forall p | p in contents :: exists n :: n in nodes && n.path == p
  }

  lemma AddNode(nodes: set<Particle>, contents: Contents, child: Particle)
    requires UniquePaths(nodes) && Covers(nodes, contents)
    requires forall m | m in nodes :: m.path != child.path
    ensures UniquePaths(nodes + {child}) && Covers(nodes + {child}, contents)
  {
    forall p | p in contents
      ensures exists n :: n in nodes + {child} && n.path == p
    {
      var n :| n in nodes && n.path == p;
      assert n in nodes + {child};
    }
  }

  class TopicsIndex {
    const root: Particle
    var retained: map<string, Message>
    ghost var nodes: set<Particle>
    ghost var contents: Contents

    /** Parent and child links agree, and lead from every node up to the root. */
    ghost predicate Linked()
      reads `nodes, nodes`particles
    {
      && root in nodes && root.path == [] && root.parent == null
      && (forall n {:trigger Continues(n)} {:trigger n.parent} | n in nodes && n != root ::
            Continues(n) && n.parent in nodes && n.key in n.parent.particles && n.parent.particles[n.key] == n)
      && (forall n, k {:trigger n.particles[k]} | n in nodes && k in n.particles ::
            n.particles[k] in nodes && n.particles[k].parent == n && n.particles[k].key == k)
    }

    /** The contents are what the particles hold; the root holds nothing. */
    ghost predicate Consistent()
      reads `nodes, `contents, nodes`subscriptions, nodes`shared, nodes`inlineSubscriptions, nodes`retainPath
    {
      && Proper(contents) && [] !in contents
      && Covers(nodes, contents)
      && (forall n {:trigger n.Held()} | n in nodes :: n.Held() == At(contents, n.path))
    }

    ghost predicate Valid()
      reads `nodes, `contents, nodes
    {
      Linked() && UniquePaths(nodes) && Consistent()
    }

    /** The nodes other than the root that hold nothing and have no child. */
    ghost function DeadLeaves(): set<Particle>
      reads `nodes, `contents, nodes`particles
    {
      set n | n in nodes && n != root && n.path !in contents && n.particles == map[]
    }

    /** Every leaf other than the root holds something. */
    ghost predicate Minimal()
      reads `nodes, `contents, nodes`particles
    {
      DeadLeaves() == {}
    }

    /** The same, but for the node of the empty topic. */
    ghost predicate NearlyMinimal()
      reads `nodes, `contents, nodes`particles
    {
      forall n | n in DeadLeaves() :: n.path == [""]
    }

    ghost function View(): Index
      reads `contents, `retained
    {
      Index(contents, retained)
    }

    constructor ()
      ensures Valid() && Minimal() && View() == NewIndex
      ensures fresh(nodes)
    {
      root := new Particle("", null);
      retained := map[];
      new;
      nodes := {root};
      contents := map[];
    }

    // ---------- Walking and pruning ----------

    /** The node one level below n on a path, if there is one, is n's child of that key. */
    lemma ChildAt(n: Particle, key: string, m: Particle)
      requires Linked() && UniquePaths(nodes) && n in nodes && m in nodes
      ensures m.path == n.path + [key] <==> key in n.particles && n.particles[key] == m
    {
      if m.path == n.path + [key] {
        assert Continues(m);
        assert Parent(m.path) == m.parent.path && Parent(n.path + [key]) == n.path;
        assert Last(m.path) == m.key && Last(n.path + [key]) == key;
      }
      if key in n.particles && n.particles[key] == m {
        assert m.parent == n && root.parent == null;
        assert Continues(m);
      }
    }

    /** Finds or creates the particle at the end of the path of a topic from depth d. */
    method Set(topic: string, d: nat) returns (n: Particle)
      requires Valid()
      modifies `nodes, nodes`particles
      ensures Valid() && old(nodes) <= nodes && fresh(nodes - old(nodes))
      ensures n in nodes && n.path == PathFrom(topic, d)
      ensures DeadLeaves() <= old(DeadLeaves()) + {n}
    {
      ghost var path := PathFrom(topic, d);
      ghost var i := 0;
      var depth, hasNext := d, true;
      n := root;
      assert path[..0] == [];
      while hasNext
        invariant 0 <= i <= |path| && depth == d + i
        invariant hasNext <==> i < |path|
        invariant Valid() && old(nodes) <= nodes && fresh(nodes - old(nodes))
        invariant n in nodes && n.path == path[..i]
        invariant DeadLeaves() <= old(DeadLeaves()) + {n}
        decreases |path| - i
      {
        IsolateAlongPath(topic, d, i);
        var key;
        key, hasNext := IsolateParticle(topic, depth);
        depth := depth + 1;
        assert path[..i] + [key] == path[..i + 1];
        if key !in n.particles {
          n := Grow(n, key);
        } else {
          ChildAt(n, key, n.particles[key]);
          n := n.particles[key];
        }
        i := i + 1;
      }
      assert path[..i] == path;
    }

    /** Adds a new particle below n. */
    method Grow(n: Particle, key: string) returns (child: Particle)
      requires Valid() && n in nodes && key !in n.particles
      modifies `nodes, n`particles
      ensures Valid() && fresh(child) && nodes == old(nodes) + {child}
      ensures child.path == n.path + [key]
      ensures DeadLeaves() <= old(DeadLeaves()) - {n} + {child}
    {
      forall m | m in nodes
        ensures m.path != n.path + [key]
      {
        ChildAt(n, key, m);
      }
      child := new Particle(key, n);
      Link(n, child);
    }

    /** Makes a particle without children a child of its parent n. */
    method Link(n: Particle, child: Particle)
      requires Valid() && n in nodes && child !in nodes
      requires Continues(child) && child.parent == n && child.particles == map[]
      requires child.key !in n.particles && child.Held() == Empty
      requires forall m | m in nodes :: m.path != child.path
      modifies `nodes, n`particles
      ensures Valid() && nodes == old(nodes) + {child}
      ensures DeadLeaves() <= old(DeadLeaves()) - {n} + {child}
    {
      AddNode(nodes, contents, child);
      Attach(n, child);
      assert child.key in n.particles;
    }

    /** The parent and child links of a new leaf. */
    method Attach(n: Particle, child: Particle)
      requires Linked() && n in nodes && child !in nodes
      requires Continues(child) && child.parent == n && child.particles == map[] && child.key !in n.particles
      modifies `nodes, n`particles
      ensures Linked() && nodes == old(nodes) + {child} && n.particles == old(n.particles)[child.key := child]
    {
      n.particles := n.particles[child.key := child];
      nodes := nodes + {child};
    }

    /** Finds the particle at the end of the path of a filter from depth d, if there is one. */
    method Seek(filter: string, d: nat) returns (n: Particle?)
      requires Valid()
      ensures n != null ==> n in nodes && n.path == PathFrom(filter, d)
      ensures n == null ==> forall m | m in nodes :: m.path != PathFrom(filter, d)
    {
      ghost var path := PathFrom(filter, d);
      ghost var i := 0;
      var depth, hasNext := d, true;
      var m := root;
      assert path[..0] == [];
      while hasNext
        invariant 0 <= i <= |path| && depth == d + i
        invariant hasNext <==> i < |path|
        invariant m in nodes && m.path == path[..i]
        decreases |path| - i
      {
        IsolateAlongPath(filter, d, i);
        var key;
        key, hasNext := IsolateParticle(filter, depth);
        assert path[..i] + [key] == path[..i + 1];
        depth := depth + 1;
        if key !in m.particles {
          forall q | q in nodes
            ensures q.path != path
          {
            NoWayTo(q, m, key, i);
          }
          return null;
        }
        ChildAt(m, key, m.particles[key]);
        m := m.particles[key];
        i := i + 1;
      }
      assert path[..i] == path;
      n := m;
    }

    /** A node is reached only through all its ancestors. */
    lemma {:induction false} NoWayTo(q: Particle, m: Particle, key: string, i: nat)
      requires Linked() && UniquePaths(nodes) && q in nodes && m in nodes && key !in m.particles && |m.path| == i
      ensures !(i < |q.path| && q.path[..i] == m.path && q.path[i] == key)
      decreases |q.path|
    {
      if i < |q.path| && q.path[..i] == m.path && q.path[i] == key {
        assert Continues(q);
        var up := q.parent;
        if |q.path| > i + 1 {
          assert up.path == Parent(q.path);
          assert up.path[..i] == q.path[..i];
          NoWayTo(up, m, key, i);
        }
      }
    }

    /** Removes particles that hold nothing and have no child, from n upwards. */
    method Trim(n: Particle)
      requires Valid() && n in nodes
      modifies `nodes, nodes`particles
      ensures Valid() && nodes <= old(nodes)
      ensures DeadLeaves() <= old(DeadLeaves()) - {n}
    {
      var m := n;
      while true
        invariant Valid() && nodes <= old(nodes) && m in nodes
        invariant DeadLeaves() <= old(DeadLeaves()) - {n} + {m}
        decreases |m.path|
      {
        var dead := IsDead(m);
        if !dead {
          break;
        }
        assert Continues(m);
        var leaf := m;
        m := m.parent;
        Prune(m, leaf);
      }
    }

    method IsDead(m: Particle) returns (dead: bool)
      requires Valid() && m in nodes
      ensures dead <==> m in DeadLeaves()
      ensures dead ==> m != root && m.path !in contents && m.particles == map[] && m.parent != null && m.parent in nodes
    {
      assert m.Held() == At(contents, m.path);
      assert ProperShared(m.shared);
      assert m != root ==> Continues(m);
      dead := m.IsDeadLeaf();
    }

    /** Cuts an empty leaf off its parent. */
    method Prune(parent: Particle, leaf: Particle)
      requires Valid() && leaf in nodes && leaf != root && leaf.parent == parent
      requires leaf.path !in contents && leaf.particles == map[]
      modifies `nodes, parent`particles
      ensures Valid() && nodes == old(nodes) - {leaf}
      ensures DeadLeaves() <= old(DeadLeaves()) - {leaf} + {parent}
    {
      assert Continues(leaf);
      parent.particles := parent.particles - {leaf.key};
      nodes := nodes - {leaf};
    }

    // ---------- Operations ----------

    /** Consistent(), except that what n holds may have changed. */
    ghost predicate ConsistentBut(n: Particle)
      reads `nodes, `contents, nodes`subscriptions, nodes`shared, nodes`inlineSubscriptions, nodes`retainPath
    {
      && Proper(contents) && [] !in contents
      && Covers(nodes, contents)
      && (forall m {:trigger m.Held()} | m in nodes && m != n :: m.Held() == At(contents, m.path))
    }

    /** Brings the contents up to date with what n holds now. */
    ghost method Refile(n: Particle)
      requires Linked() && UniquePaths(nodes) && n in nodes && n.path != [] && ConsistentBut(n)
               && ProperShared(n.shared)
      modifies `contents
      ensures Valid() && contents == Put(old(contents), n.path, n.Held())
      ensures DeadLeaves() <= old(DeadLeaves()) + {n}
      ensures n.Held() != Empty ==> DeadLeaves() <= old(DeadLeaves()) - {n}
    {
      contents := Put(contents, n.path, n.Held());
      PutProper(old(contents), n.path, n.Held());
      forall m | m in nodes && m != n
        ensures m.Held() == At(contents, m.path)
      {
        AtPut(old(contents), n.path, n.Held(), m.path);
      }
    }

    /** Files a subscription at a node. */
    method AddSubscription(n: Particle, client: ClientId, sub: Subscription)
      requires Valid() && n in nodes && n.path != []
      modifies `contents, n
      ensures var was := At(old(contents), n.path);
              Valid() && contents == Put(old(contents), n.path, was.(subs := was.subs[client := sub]))
      ensures DeadLeaves() <= old(DeadLeaves()) - {n}
    {
      assert n.Held() == At(contents, n.path);
      assert ProperShared(n.shared);
      n.subscriptions := n.subscriptions[client := sub];
      assert client in n.subscriptions;
      Refile(n);
    }

    /** Deletes a subscription from a node. */
    method DeleteSubscription(n: Particle, client: ClientId)
      requires Valid() && n in nodes && n.path != []
      modifies `contents, n
      ensures var was := At(old(contents), n.path);
              Valid() && contents == Put(old(contents), n.path, was.(subs := was.subs - {client}))
      ensures DeadLeaves() <= old(DeadLeaves()) + {n}
    {
      assert n.Held() == At(contents, n.path);
      assert ProperShared(n.shared);
      n.subscriptions := n.subscriptions - {client};
      Refile(n);
    }

    /** Files a shared subscription at a node. */
    method AddSharedSubscription(n: Particle, group: string, client: ClientId, sub: Subscription)
      requires Valid() && n in nodes && n.path != []
      modifies `contents, n
      ensures var was := At(old(contents), n.path);
              var now := was.(shared := AddShared(was.shared, group, client, sub));
              Valid() && contents == Put(old(contents), n.path, now)
      ensures DeadLeaves() <= old(DeadLeaves()) - {n}
    {
      assert n.Held() == At(contents, n.path);
      assert ProperShared(n.shared);
      n.AddShared(group, client, sub);
      assert group in n.shared && client in n.shared[group];
      Refile(n);
    }

    /** Deletes a shared subscription from a node. */
    method DeleteSharedSubscription(n: Particle, group: string, client: ClientId)
      requires Valid() && n in nodes && n.path != []
      modifies `contents, n
      ensures var was := At(old(contents), n.path);
              Valid() && contents == Put(old(contents), n.path, was.(shared := DeleteShared(was.shared, group, client)))
      ensures DeadLeaves() <= old(DeadLeaves()) + {n}
    {
      assert n.Held() == At(contents, n.path);
      assert ProperShared(n.shared);
      n.DeleteShared(group, client);
      Refile(n);
    }

    /** Files an inline subscription at a node. */
    method AddInline(n: Particle, id: int, sub: Subscription)
      requires Valid() && n in nodes && n.path != []
      modifies `contents, n
      ensures var was := At(old(contents), n.path);
              Valid() && contents == Put(old(contents), n.path, was.(inline := was.inline[id := sub]))
      ensures DeadLeaves() <= old(DeadLeaves()) - {n}
    {
      assert n.Held() == At(contents, n.path);
      assert ProperShared(n.shared);
      n.inlineSubscriptions := n.inlineSubscriptions[id := sub];
      assert id in n.inlineSubscriptions;
      Refile(n);
    }

    /** Deletes an inline subscription from a node. */
    method DeleteInlineAt(n: Particle, id: int)
      requires Valid() && n in nodes && n.path != []
      modifies `contents, n
      ensures var was := At(old(contents), n.path);
              Valid() && contents == Put(old(contents), n.path, was.(inline := was.inline - {id}))
      ensures DeadLeaves() <= old(DeadLeaves()) + {n}
    {
      assert n.Held() == At(contents, n.path);
      assert ProperShared(n.shared);
      n.inlineSubscriptions := n.inlineSubscriptions - {id};
      Refile(n);
    }

    /** Sets or clears the retained path of a node. */
    method SetRetain(n: Particle, retainPath: string)
      requires Valid() && n in nodes && n.path != []
      modifies `contents, n
      ensures var was := At(old(contents), n.path);
              Valid() && contents == Put(old(contents), n.path, was.(retainPath := retainPath))
      ensures DeadLeaves() <= old(DeadLeaves()) + {n}
      ensures retainPath != "" ==> DeadLeaves() <= old(DeadLeaves()) - {n}
    {
      assert n.Held() == At(contents, n.path);
      assert ProperShared(n.shared);
      n.retainPath := retainPath;
      Refile(n);
    }

    /** Adds or replaces the subscription of a client; true when it had none under this filter. */
    method Subscribe(client: ClientId, subscription: Subscription) returns (isNew: bool)
      requires Valid()
      modifies `nodes, `contents, nodes
      ensures Valid() && fresh(nodes - old(nodes))
      ensures View() == Step(old(View()), Op.Subscribe(client, subscription))
      ensures isNew <==> Lookup(old(contents), client, KeyOf(subscription.filter)).None?
      ensures DeadLeaves() <= old(DeadLeaves())
    {
      var existed;
      var prefix, _ := IsolateParticle(subscription.filter, 0);
      if IsShareWord(prefix) {
        var group, _ := IsolateParticle(subscription.filter, 1);
        existed := SubscribeShared(group, client, subscription);
      } else {
        existed := SubscribePlain(client, subscription);
      }
      isNew := !existed;
    }

    method SubscribeShared(group: string, client: ClientId, subscription: Subscription) returns (existed: bool)
      requires Valid()
      modifies `nodes, `contents, nodes
      ensures Valid() && fresh(nodes - old(nodes))
      ensures var key := Shared(group, PathFrom(subscription.filter, 2));
              && contents == SubscribeAt(old(contents), key, client, subscription)
              && (existed <==> Lookup(old(contents), client, key).Some?)
      ensures DeadLeaves() <= old(DeadLeaves())
    {
      var n := Set(subscription.filter, 2);
      assert n.Held() == At(contents, n.path);
      existed := group in n.shared && client in n.shared[group];
      AddSharedSubscription(n, group, client, subscription);
    }

    method SubscribePlain(client: ClientId, subscription: Subscription) returns (existed: bool)
      requires Valid()
      modifies `nodes, `contents, nodes
      ensures Valid() && fresh(nodes - old(nodes))
      ensures var key := Plain(PathFrom(subscription.filter, 0));
              && contents == SubscribeAt(old(contents), key, client, subscription)
              && (existed <==> Lookup(old(contents), client, key).Some?)
      ensures DeadLeaves() <= old(DeadLeaves())
    {
      var n := Set(subscription.filter, 0);
      assert n.Held() == At(contents, n.path);
      existed := client in n.subscriptions;
      AddSubscription(n, client, subscription);
    }

    /**
     Deletes the subscription of a client.  The result only says that the filter has a node: it
     is true whenever anything is held at or below the filter's path, by any client.
     */
    method Unsubscribe(filter: string, client: ClientId) returns (existed: bool)
      requires Valid()
      modifies `nodes, `contents, nodes
      ensures Valid() && nodes <= old(nodes)
      ensures View() == Step(old(View()), Op.Unsubscribe(client, filter))
      ensures DeadLeaves() <= old(DeadLeaves())
      ensures old(ShapeIsExact(KeyOf(filter).path)) ==> (existed <==> InShape(old(contents), KeyOf(filter).path))
    {
      var d := 0;
      var prefix, _ := IsolateParticle(filter, 0);
      var shareSub := IsShareWord(prefix);
      if shareSub {
        d := 2;
      }
      var n := Seek(filter, d);
      ghost var key := KeyOf(filter);
      ShapeOf(key.path);
      if n == null {
        existed := false;
        NothingAt(key);
      } else {
        if shareSub {
          var group, _ := IsolateParticle(filter, 1);
          DeleteSharedSubscription(n, group, client);
        } else {
          DeleteSubscription(n, client);
        }
        Trim(n);
        existed := true;
      }
    }

    /** Where there is no node nothing is held, and there is nothing to delete. */
    lemma NothingAt(key: FilterKey)
      requires Valid() && forall m | m in nodes :: m.path != key.path
      ensures At(contents, key.path) == Empty
      ensures forall client :: UnsubscribeAt(contents, key, client) == contents
    {
    }

    /** No dead leaf but the node of the empty topic, and not that one at this path. */
    ghost predicate ShapeIsExact(p: Path)
      reads `nodes, `contents, nodes`particles
    {
      NearlyMinimal() && (Minimal() || p != [""])
    }

    /** There is a node exactly at the root and the prefixes of paths that hold something. */
    lemma ShapeOf(p: Path)
      requires Valid()
      ensures ShapeIsExact(p) ==> ((exists n :: n in nodes && n.path == p) <==> InShape(contents, p))
    {
      if n :| ShapeIsExact(p) && n in nodes && n.path == p {
        var q := HeldBelow(n);
      }
      if InShape(contents, p) {
        if p == [] {
          assert root.path == p;
        } else {
          var q :| q in contents && p <= q;
          var n :| n in nodes && n.path == q;
          var m := Ancestor(n, |p|);
        }
      }
    }

    /** The nodes of a minimal trie are the root and the prefixes of paths that hold something. */
    lemma ShapeOfMinimal(p: Path)
      requires Valid()
      ensures Minimal() ==> ((exists n :: n in nodes && n.path == p) <==> InShape(contents, p))
    {
      ShapeOf(p);
    }

    ghost function Deeper(k: nat): set<Particle>
      reads `nodes
    {
      set m | m in nodes && |m.path| > k
    }

    /** Every node other than the root leads to something that is held, but for dead leaves. */
    lemma {:induction false} HeldBelow(n: Particle) returns (q: Path)
      requires Valid() && ShapeIsExact(n.path) && n in nodes
      ensures n != root ==> q in contents && n.path <= q
      decreases Deeper(|n.path|)
    {
      q := n.path;
      if n != root && n.path !in contents {
        assert n !in DeadLeaves();
        var k :| k in n.particles;
        var child := n.particles[k];
        assert Continues(child) by { assert root.parent == null; }
        assert child in Deeper(|n.path|) && Deeper(|child.path|) <= Deeper(|n.path|);
        q := HeldBelow(child);
      }
    }

    /** Every prefix of a node's path is the path of a node. */
    lemma {:induction false} Ancestor(n: Particle, k: nat) returns (m: Particle)
      requires Linked() && n in nodes && k <= |n.path|
      ensures m in nodes && m.path == n.path[..k]
      decreases |n.path|
    {
      if k == |n.path| {
        m := n;
      } else {
        assert Continues(n);
        m := Ancestor(n.parent, k);
      }
    }

    /** Adds or replaces an inline subscription; true when its identifier had none at this path. */
    method InlineSubscribe(subscription: Subscription) returns (isNew: bool)
      requires Valid()
      modifies `nodes, `contents, nodes
      ensures Valid() && fresh(nodes - old(nodes))
      ensures View() == Step(old(View()), Op.InlineSubscribe(subscription))
      ensures isNew <==> subscription.identifier !in At(old(contents), PathFrom(subscription.filter, 0)).inline
      ensures DeadLeaves() <= old(DeadLeaves())
    {
      var n := Set(subscription.filter, 0);
      assert n.Held() == At(contents, n.path);
      var existed := subscription.identifier in n.inlineSubscriptions;
      AddInline(n, subscription.identifier, subscription);
      isNew := !existed;
    }

    /**
     Deletes an inline subscription; prunes only when no inline subscription is left at the path.
     True when the node exists, whether or not the identifier did.
     */
    method InlineUnsubscribe(id: int, filter: string) returns (existed: bool)
      requires Valid()
      modifies `nodes, `contents, nodes
      ensures Valid() && nodes <= old(nodes)
      ensures View() == Step(old(View()), Op.InlineUnsubscribe(id, filter))
      ensures DeadLeaves() <= old(DeadLeaves())
      ensures old(ShapeIsExact(PathFrom(filter, 0))) ==> (existed <==> InShape(old(contents), PathFrom(filter, 0)))
    {
      var n := Seek(filter, 0);
      ShapeOf(PathFrom(filter, 0));
      if n == null {
        NothingAt(Plain(PathFrom(filter, 0)));
        return false;
      }
      DeleteInlineAt(n, id);
      TrimWithoutInline(n);
      existed := true;
    }

    method TrimWithoutInline(n: Particle)
      requires Valid() && n in nodes
      modifies `nodes, nodes`particles
      ensures Valid() && nodes <= old(nodes)
      ensures DeadLeaves() <= old(DeadLeaves()) - {n}
    {
      assert n.Held() == At(contents, n.path);
      if |n.inlineSubscriptions| == 0 {
        Trim(n);
      } else {
        assert n.Held() != Empty;
      }
    }

    /**
     Keeps or clears the retained message of a topic: 1 when one was kept, -1 when one was
     removed, 0 otherwise.  Keeping a message under the empty topic name is the one operation that
     can leave a dead leaf: the path of its node reads as "no retained message".
     */
    method RetainMessage(pk: Message) returns (r: int)
      requires Valid()
      modifies this, nodes
      ensures Valid() && fresh(nodes - old(nodes))
      ensures View() == Step(old(View()), Op.Retain(pk))
      ensures pk.payload != "" ==> r == 1
      ensures pk.payload == "" ==>
                r == if pk.topicName in old(retained) && old(retained)[pk.topicName].payload != ""
                        && old(retained)[pk.topicName].retain then -1 else 0
      ensures old(NearlyMinimal()) ==> NearlyMinimal()
      ensures !(pk.topicName == "" && pk.payload != "") ==> DeadLeaves() <= old(DeadLeaves())
      ensures old(Minimal()) ==>
                (Minimal() <==>
                 (pk.topicName == "" && pk.payload != "" ==> InShape(contents, PathFrom(pk.topicName, 0))))
    {
      if |pk.payload| > 0 {
        Keep(pk);
        return 1;
      }
      r := 0;
      if pk.topicName in retained && |retained[pk.topicName].payload| > 0 && retained[pk.topicName].retain {
        r := -1;
      }
      Clear(pk);
    }

    method Keep(pk: Message)
      requires Valid() && pk.payload != ""
      modifies this, nodes
      ensures Valid() && fresh(nodes - old(nodes))
      ensures View() == RetainStep(old(View()), pk)
      ensures forall n | n in DeadLeaves() && n !in old(DeadLeaves()) :: n.path == [""]
      ensures pk.topicName != "" ==> DeadLeaves() <= old(DeadLeaves())
      ensures old(Minimal()) ==>
                (Minimal() <==> (pk.topicName == "" ==> InShape(contents, PathFrom(pk.topicName, 0))))
    {
      retained := retained[pk.topicName := pk];
      KeepPath(pk.topicName);
    }

    /** Leads the path of a topic to its retained message. */
    method KeepPath(topic: string)
      requires Valid()
      modifies `nodes, `contents, nodes
      ensures Valid() && fresh(nodes - old(nodes))
      ensures contents == SetRetainPath(old(contents), PathFrom(topic, 0), topic)
      ensures forall n | n in DeadLeaves() && n !in old(DeadLeaves()) :: n.path == [""]
      ensures topic != "" ==> DeadLeaves() <= old(DeadLeaves())
      ensures old(Minimal()) ==> (Minimal() <==> (topic == "" ==> InShape(contents, PathFrom(topic, 0))))
    {
      var n := Set(topic, 0);
      SetRetain(n, topic);
      MinimalIffInShape(n);
    }

    method Clear(pk: Message)
      requires Valid() && pk.payload == ""
      modifies this, nodes
      ensures Valid() && fresh(nodes - old(nodes))
      ensures View() == RetainStep(old(View()), pk)
      ensures DeadLeaves() <= old(DeadLeaves())
    {
      var n := Set(pk.topicName, 0);
      SetRetain(n, "");
      retained := retained - {pk.topicName};
      Trim(n);
    }

    lemma MinimalIffInShape(n: Particle)
      requires Valid() && n in nodes && n != root
      ensures DeadLeaves() <= {n} ==> (Minimal() <==> InShape(contents, n.path))
    {
      ShapeOfMinimal(n.path);
      if InShape(contents, n.path) && n.path !in contents {
        var q :| q in contents && n.path <= q;
        var m :| m in nodes && m.path == q;
        HasChild(n, m);
      }
    }

    /** A node with a node below it has a child. */
    lemma HasChild(n: Particle, m: Particle)
      requires Linked() && UniquePaths(nodes) && n in nodes && m in nodes && n.path < m.path
      ensures n.particles != map[]
    {
      var below := Ancestor(m, |n.path| + 1);
      assert Continues(below);
      var up := below.parent;
      assert Parent(below.path) == n.path && Parent(up.path + [below.key]) == up.path;
      assert up == n && below.key in n.particles;
    }

    /** The expiry sweep: drops expired retained messages, in any order, and leaves the trie alone. */
    method ClearExpiredRetained(now: int, maximumExpiry: int)
      requires Valid()
      modifies `retained
      ensures Valid() && View() == Step(old(View()), Op.Sweep(now, maximumExpiry))
    {
      var todo := retained.Keys;
      while todo != {}
        invariant todo <= retained.Keys <= old(retained).Keys
        invariant forall t | t in retained :: retained[t] == old(retained)[t]
        invariant forall t | t in old(retained) ::
          t in retained <==> t in todo || !Expired(old(retained)[t], now, maximumExpiry)
      {
        var topic :| topic in todo;
        var pk := retained[topic];
        todo := todo - {topic};
        if (pk.protocolVersion == 5 && pk.expiry > 0 && pk.expiry < now)
           || (maximumExpiry > 0 && now - pk.created > maximumExpiry) {
          retained := retained - {topic};
        }
      }
    }
  }
}
