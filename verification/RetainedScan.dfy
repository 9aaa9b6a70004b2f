/**
 Retained messages for a filter (broker/topics.go, Messages and scanMessages): which nodes the
 walk considers, in an arbitrary order, and when the result is exactly the retained messages whose
 topics the filter selects.
 */
module RetainedScan {
  import opened Wrappers
  import opened Levels
  import opened Filters
  import opened IndexSpec
  import opened Gathering
  import opened TopicTrie
  import opened TopicScan

  // ---------- What the visited nodes contribute ----------

  /** What a considered node adds: a literal last level looks up even an empty retained path. */
  function Contribution(ix: Index, levels: Path, q: Path): seq<Message>
    requires levels != []
  {
    var retainPath := At(ix.contents, q).retainPath;
    if retainPath in ix.retained && (retainPath != "" || !IsWild(Last(levels))) then [ix.retained[retainPath]] else []
  }

  function Contributions(ix: Index, levels: Path, visited: seq<Path>): seq<Message>
    requires levels != []
  {
    if visited == [] then []
    else Contributions(ix, levels, visited[..|visited| - 1]) + Contribution(ix, levels, visited[|visited| - 1])
  }

  lemma {:induction false} ContributionsConcat(ix: Index, levels: Path, a: seq<Path>, b: seq<Path>)
    requires levels != []
    ensures Contributions(ix, levels, a + b) == Contributions(ix, levels, a) + Contributions(ix, levels, b)
  {
    if b == [] {
      assert a + b == a;
    } else {
      var init := b[..|b| - 1];
      assert (a + b)[..|a + b| - 1] == a + init;
      ContributionsConcat(ix, levels, a, init);
    }
  }

  lemma EnumeratesConcat(a: seq<Path>, s: set<Path>, b: seq<Path>, t: set<Path>)
    requires Enumerates(a, s) && Enumerates(b, t) && s !! t
    ensures Enumerates(a + b, s + t)
  {
    forall i, j | 0 <= i < j < |a + b|
      ensures (a + b)[i] != (a + b)[j]
    {
      if i < |a| <= j {
        assert a[i] in a && b[j - |a|] in b;
      }
    }
  }

  /** pks is what the nodes in s contribute, each once, in some order. */
  ghost predicate Yields(ix: Index, levels: Path, pks: seq<Message>, s: set<Path>)
    requires levels != []
  {
    exists visited :: Enumerates(visited, s) && pks == Contributions(ix, levels, visited)
  }

  lemma YieldsNothing(ix: Index, levels: Path)
    requires levels != []
    ensures Yields(ix, levels, [], {})
  {
    assert Enumerates<Path>([], {}) && Contributions(ix, levels, []) == [];
  }

  lemma YieldsConcat(ix: Index, levels: Path, a: seq<Message>, s: set<Path>, b: seq<Message>, t: set<Path>)
    requires levels != [] && Yields(ix, levels, a, s) && Yields(ix, levels, b, t) && s !! t
    ensures Yields(ix, levels, a + b, s + t)
  {
    var v :| Enumerates(v, s) && a == Contributions(ix, levels, v);
    var w :| Enumerates(w, t) && b == Contributions(ix, levels, w);
    EnumeratesConcat(v, s, w, t);
    ContributionsConcat(ix, levels, v, w);
  }

  lemma YieldsOne(ix: Index, levels: Path, q: Path)
    requires levels != []
    ensures Yields(ix, levels, Contribution(ix, levels, q), {q})
  {
    assert [q][..0] == [];
    assert Enumerates([q], {q}) && Contributions(ix, levels, [q]) == Contribution(ix, levels, q);
  }

  ghost function Considered(paths: set<Path>, p: Path, levels: Path, d: nat): set<Path>
    requires levels != []
  {
    set q | q in paths && p <= q && ScanMatches(levels, d, q[|p|..])
  }

  /** Those of them that go through one of the given children. */
  ghost function ConsideredVia(paths: set<Path>, p: Path, levels: Path, d: nat, keys: set<string>): set<Path>
    requires levels != []
  {
    set q | q in paths && p <= q && ScanMatches(levels, d, q[|p|..]) && q[|p|] in keys
  }

  /** Through one child: the child itself at the end of the filter, and what lies below it. */
  lemma ConsideredThroughChild(paths: set<Path>, p: Path, levels: Path, d: nat, k: string)
    requires levels != []
    ensures var key, hasNext := LevelAt(levels, d), d < |levels| - 1;
            var own := if !hasNext then {p + [k]} * paths else {};
            var below := if hasNext || key == "#" then Considered(paths, p + [k], levels, d + 1) else {};
            && own !! below
            && ConsideredVia(paths, p, levels, d, {k}) ==
               (if IsWild(key) then (if d == 0 && k == SysPrefix then {} else own + below)
                else if k == key then own + below else {})
  {
    var key, hasNext := LevelAt(levels, d), d < |levels| - 1;
    forall q
      ensures q in ConsideredVia(paths, p, levels, d, {k}) ==>
                p + [k] <= q && (IsWild(key) || k == key) && !(IsWild(key) && d == 0 && k == SysPrefix)
      ensures q in Considered(paths, p + [k], levels, d + 1) ==> q != p + [k]
      ensures p + [k] <= q ==> p <= q && q[|p|] == k && q[|p|..][1..] == q[|p + [k]|..]
      ensures p + [k] <= q ==> (|q[|p|..]| == 1 <==> q == p + [k])
    {
      Below(p, k, q);
      if p + [k] <= q {
        assert q[|p|..][1..] == q[|p| + 1..];
        assert q == (p + [k]) + q[|p| + 1..];
      }
      if p <= q && |q| > |p| {
        assert q[|p|..][0] == q[|p|];
      }
    }
  }

  lemma ConsideredMore(paths: set<Path>, p: Path, levels: Path, d: nat, keys: set<string>, k: string)
    requires levels != [] && k !in keys
    ensures ConsideredVia(paths, p, levels, d, keys + {k}) ==
            ConsideredVia(paths, p, levels, d, keys) + ConsideredVia(paths, p, levels, d, {k})
    ensures ConsideredVia(paths, p, levels, d, keys) !! ConsideredVia(paths, p, levels, d, {k})
  {
  }

  /** All considered nodes go through existing children. */
  lemma ConsideredViaAll(paths: set<Path>, p: Path, levels: Path, d: nat, keys: set<string>)
    requires levels != [] && PrefixClosed(paths)
    requires forall k | k !in keys :: p + [k] !in paths || (!IsWild(LevelAt(levels, d)) && k != LevelAt(levels, d))
    ensures ConsideredVia(paths, p, levels, d, keys) == Considered(paths, p, levels, d)
  {
    forall q | q in Considered(paths, p, levels, d)
      ensures q[|p|] in keys
    {
      var k := q[|p|];
      assert q[|p|..][0] == k;
      Below(p, k, q);
      Prefixes(paths, p + [k], q);
    }
  }

  lemma YieldsVia(ix: Index, levels: Path, d: nat, paths: set<Path>, p: Path, pks: seq<Message>, done: set<string>,
      more: seq<Message>, k: string)
    requires levels != [] && k !in done
    requires Yields(ix, levels, pks, ConsideredVia(paths, p, levels, d, done))
    requires Yields(ix, levels, more, ConsideredVia(paths, p, levels, d, {k}))
    ensures Yields(ix, levels, pks + more, ConsideredVia(paths, p, levels, d, done + {k}))
  {
    ConsideredMore(paths, p, levels, d, done, k);
    YieldsConcat(ix, levels, pks, ConsideredVia(paths, p, levels, d, done), more,
                 ConsideredVia(paths, p, levels, d, {k}));
  }

  /** The child at p + [k] itself, when the filter ends with it, and the nodes below it. */
  lemma YieldsChild(ix: Index, levels: Path, d: nat, paths: set<Path>, p: Path, k: string, pks: seq<Message>,
      more: seq<Message>)
    requires levels != [] && p + [k] in paths
    requires var key, hasNext := LevelAt(levels, d), d < |levels| - 1;
             && (IsWild(key) || k == key) && !(IsWild(key) && d == 0 && k == SysPrefix)
             && (if hasNext then pks == [] else pks == Contribution(ix, levels, p + [k]))
             && (if hasNext || key == "#" then Yields(ix, levels, more, Considered(paths, p + [k], levels, d + 1))
                 else more == [])
    ensures Yields(ix, levels, pks + more, ConsideredVia(paths, p, levels, d, {k}))
  {
    var key, hasNext := LevelAt(levels, d), d < |levels| - 1;
    ConsideredThroughChild(paths, p, levels, d, k);
    YieldsNothing(ix, levels);
    YieldsOne(ix, levels, p + [k]);
    var own := if !hasNext then {p + [k]} else {};
    var below := if hasNext || key == "#" then Considered(paths, p + [k], levels, d + 1) else {};
    assert {p + [k]} * paths == {p + [k]};
    YieldsConcat(ix, levels, pks, own, more, below);
  }

  /** A leading wildcard hides a first level of exactly "$SYS". */
  lemma HiddenChild(ix: Index, levels: Path, paths: set<Path>, p: Path)
    requires levels != [] && IsWild(levels[0])
    ensures Yields(ix, levels, [], ConsideredVia(paths, p, levels, 0, {SysPrefix}))
  {
    ConsideredThroughChild(paths, p, levels, 0, SysPrefix);
    YieldsNothing(ix, levels);
  }

  // ---------- The walk ----------

  lemma FewerDeeper(x: TopicsIndex, n: Particle, child: Particle)
    requires child in x.nodes && |child.path| == |n.path| + 1
    ensures x.Deeper(|child.path|) < x.Deeper(|n.path|)
  {
    assert child in x.Deeper(|n.path|) && x.Deeper(|child.path|) <= x.Deeper(|n.path|);
  }

  /** The wildcard walk below n from depth d, children in any order. */
  method ScanMessages(x: TopicsIndex, filter: string, d: nat, n: Particle) returns (pks: seq<Message>)
    requires x.Valid() && n in x.nodes
    ensures Yields(x.View(), Split(filter), pks, Considered(Paths(x.nodes), n.path, Split(filter), d))
    decreases x.Deeper(|n.path|), 1
  {
    ghost var levels, paths := Split(filter), Paths(x.nodes);
    var key, hasNext := IsolateParticle(filter, d);
    PathsPrefixClosed(x);
    ChildrenAreAll(x, n);
    if key == "+" || key == "#" {
      pks := ScanChildren(x, filter, d, n, key, hasNext);
      ConsideredViaAll(paths, n.path, levels, d, n.particles.Keys);
    } else if key in n.particles {
      pks := ScanChild(x, filter, d, n, key, key, hasNext);
      ConsideredViaAll(paths, n.path, levels, d, {key});
    } else {
      pks := [];
      YieldsNothing(x.View(), levels);
      ConsideredViaAll(paths, n.path, levels, d, {});
      assert ConsideredVia(paths, n.path, levels, d, {}) == {};
    }
  }

  /** A wildcard level: every child is scanned. */
  method ScanChildren(x: TopicsIndex, filter: string, d: nat, n: Particle, key: string,
      hasNext: bool) returns (pks: seq<Message>)
    requires x.Valid() && n in x.nodes
    requires key == LevelAt(Split(filter), d) && (hasNext <==> d < |Split(filter)| - 1) && IsWild(key)
    ensures Yields(x.View(), Split(filter), pks,
                   ConsideredVia(Paths(x.nodes), n.path, Split(filter), d, n.particles.Keys))
    decreases x.Deeper(|n.path|), 0, 2
  {
    ghost var levels, paths := Split(filter), Paths(x.nodes);
    pks := [];
    var todo := n.particles.Keys;
    ghost var done: set<string> := {};
    YieldsNothing(x.View(), levels);
    assert ConsideredVia(paths, n.path, levels, d, done) == {};
    while todo != {}
      invariant done + todo == n.particles.Keys && done !! todo
      invariant Yields(x.View(), levels, pks, ConsideredVia(paths, n.path, levels, d, done))
    {
      var k :| k in todo;
      todo := todo - {k};
      var more := ScanChild(x, filter, d, n, k, key, hasNext);
      YieldsVia(x.View(), levels, d, paths, n.path, pks, done, more, k);
      pks, done := pks + more, done + {k};
    }
  }

  lemma ChildrenAreAll(x: TopicsIndex, n: Particle)
    requires x.Valid() && n in x.nodes
    ensures forall k :: k in n.particles <==> n.path + [k] in Paths(x.nodes)
  {
    forall k
      ensures k in n.particles <==> n.path + [k] in Paths(x.nodes)
    {
      if k in n.particles {
        x.ChildAt(n, k, n.particles[k]);
      }
      if n.path + [k] in Paths(x.nodes) {
        var m :| m in x.nodes && m.path == n.path + [k];
        x.ChildAt(n, k, m);
      }
    }
  }

  /** One child of the walk, hidden from a leading wildcard when it is the "$SYS" level. */
  method ScanChild(x: TopicsIndex, filter: string, d: nat, n: Particle, k: string, key: string,
      hasNext: bool) returns (pks: seq<Message>)
    requires x.Valid() && n in x.nodes && k in n.particles
    requires key == LevelAt(Split(filter), d) && (hasNext <==> d < |Split(filter)| - 1)
    requires IsWild(key) || k == key
    ensures Yields(x.View(), Split(filter), pks, ConsideredVia(Paths(x.nodes), n.path, Split(filter), d, {k}))
    decreases x.Deeper(|n.path|), 0, 1
  {
    ghost var levels, paths := Split(filter), Paths(x.nodes);
    var adjacent := n.particles[k];
    x.ChildAt(n, k, adjacent);
    pks := [];
    if IsWild(key) && d == 0 && adjacent.key == SysPrefix {
      HiddenChild(x.View(), levels, paths, n.path);
      return;
    }
    pks := ScanVisible(x, filter, d, n, adjacent, key, hasNext);
  }

  /** Its own message at the end of the filter, and what lies below it. */
  method ScanVisible(x: TopicsIndex, filter: string, d: nat, n: Particle, adjacent: Particle, key: string,
      hasNext: bool) returns (pks: seq<Message>)
    requires x.Valid() && n in x.nodes && adjacent in x.nodes && adjacent.path == n.path + [adjacent.key]
    requires key == LevelAt(Split(filter), d) && (hasNext <==> d < |Split(filter)| - 1)
    requires (IsWild(key) || adjacent.key == key) && !(IsWild(key) && d == 0 && adjacent.key == SysPrefix)
    ensures Yields(x.View(), Split(filter), pks,
                   ConsideredVia(Paths(x.nodes), n.path, Split(filter), d, {adjacent.key}))
    decreases x.Deeper(|n.path|), 0, 0
  {
    pks := [];
    if !hasNext {
      pks := OwnMessage(x, filter, adjacent, key);
    }
    var more := [];
    if hasNext || key == "#" {
      FewerDeeper(x, n, adjacent);
      more := ScanMessages(x, filter, d + 1, adjacent);
    }
    YieldsChild(x.View(), Split(filter), d, Paths(x.nodes), n.path, adjacent.key, pks, more);
    pks := pks + more;
  }

  /** The retained message of a particle at the end of a filter. */
  method OwnMessage(x: TopicsIndex, ghost filter: string, adjacent: Particle, key: string) returns (pks: seq<Message>)
    requires x.Valid() && adjacent in x.nodes && key == Last(Split(filter))
    ensures pks == Contribution(x.View(), Split(filter), adjacent.path)
  {
    assert adjacent.Held() == At(x.contents, adjacent.path);
    pks := [];
    if IsWild(key) {
      if adjacent.retainPath != "" && adjacent.retainPath in x.retained {
        pks := [x.retained[adjacent.retainPath]];
      }
    } else if adjacent.retainPath in x.retained {
      pks := [x.retained[adjacent.retainPath]];
    }
  }

  // ---------- The result for a filter ----------

  /** Each retained message whose topic the filter selects, once, and nothing else. */
  ghost predicate ExactlySelected(ix: Index, filter: string, pks: seq<Message>) {
    && DistinctTopics(pks)
    && (forall m :: m in pks <==> Selected(ix, filter, m.topicName) && ix.retained[m.topicName] == m)
  }

  /**
   A message retained under the empty topic name spoils a wildcard filter: one with a wildcard last
   level cannot return it, and one with a literal last level returns it for every node it reaches
   that has no retained message.
   */
  ghost predicate EmptyTopicInterferes(ix: Index, paths: set<Path>, filter: string) {
    && "" in ix.retained && HasWildcard(filter)
    && if IsWild(Last(Split(filter))) then ScanMatches(Split(filter), 0, [""])
       else exists q :: q in paths && ScanMatches(Split(filter), 0, q) && At(ix.contents, q).retainPath == ""
  }

  lemma {:induction false} ContributionsMember(ix: Index, levels: Path, visited: seq<Path>, m: Message)
    requires levels != []
    ensures m in Contributions(ix, levels, visited) <==> exists q :: q in visited && m in Contribution(ix, levels, q)
  {
    if visited != [] {
      var init, q := visited[..|visited| - 1], visited[|visited| - 1];
      ContributionsMember(ix, levels, init, m);
      assert visited == init + [q];
    }
  }

  ghost predicate DistinctTopics(pks: seq<Message>) {
    forall i, j | 0 <= i < j < |pks| :: pks[i].topicName != pks[j].topicName
  }

  /** What a node with a non-empty retained path contributes has that path as its topic. */
  lemma ContributionTopic(ix: Index, levels: Path, q: Path, m: Message)
    requires levels != [] && RetainedFiled(ix) && At(ix.contents, q).retainPath != ""
    requires m in Contribution(ix, levels, q)
    ensures Split(m.topicName) == q && m.topicName == At(ix.contents, q).retainPath
  {
    assert q in ix.contents;
  }

  lemma {:induction false} ContributionsDistinct(ix: Index, levels: Path, visited: seq<Path>)
    requires levels != [] && RetainedFiled(ix) && Distinct(visited)
    requires forall q | q in visited && Contribution(ix, levels, q) != [] :: At(ix.contents, q).retainPath != ""
    ensures DistinctTopics(Contributions(ix, levels, visited))
  {
    if visited != [] {
      var init, q := visited[..|visited| - 1], visited[|visited| - 1];
      var before, own := Contributions(ix, levels, init), Contribution(ix, levels, q);
      assert q in visited && forall p | p in init :: p in visited && p != q;
      ContributionsDistinct(ix, levels, init);
      if own != [] {
        ContributionTopic(ix, levels, q, own[0]);
        forall i | 0 <= i < |before|
          ensures before[i].topicName != own[0].topicName
        {
          ContributionsMember(ix, levels, init, before[i]);
          var p :| p in init && before[i] in Contribution(ix, levels, p);
          ContributionTopic(ix, levels, p, before[i]);
        }
        assert before + own == before + [own[0]];
      }
    }
  }

  lemma LiteralMissesEmptyTopic(filter: string)
    requires HasWildcard(filter) && !IsWild(Last(Split(filter)))
    ensures !ScanMatches(Split(filter), 0, [""])
  {
    var levels := Split(filter);
    JoinOfSplit(filter);
    if |levels| > 1 {
      assert [""][1..] == [];
    }
  }

  lemma WalkIsExact(ix: Index, paths: set<Path>, filter: string, pks: seq<Message>)
    requires RetainedFiled(ix) && HasWildcard(filter) && forall p | p in ix.contents :: p in paths
    requires Yields(ix, Split(filter), pks, Considered(paths, [], Split(filter), 0))
    ensures ExactlySelected(ix, filter, pks) <==> !EmptyTopicInterferes(ix, paths, filter)
  {
    var levels := Split(filter);
    var visited :| Enumerates(visited, Considered(paths, [], levels, 0)) && pks == Contributions(ix, levels, visited);
    forall q
      ensures q in visited <==> q in paths && ScanMatches(levels, 0, q)
    {
      assert q[0..] == q;
    }
    if EmptyTopicInterferes(ix, paths, filter) {
      Interference(ix, paths, filter, visited);
    } else {
      forall q | q in visited && Contribution(ix, levels, q) != []
        ensures At(ix.contents, q).retainPath != ""
      {
      }
      ContributionsDistinct(ix, levels, visited);
      forall m
        ensures m in pks <==> Selected(ix, filter, m.topicName) && ix.retained[m.topicName] == m
      {
        ContributionsMember(ix, levels, visited, m);
        SelectedIsContributed(ix, paths, filter, m);
      }
    }
  }

  lemma Interference(ix: Index, paths: set<Path>, filter: string, visited: seq<Path>)
    requires RetainedFiled(ix) && EmptyTopicInterferes(ix, paths, filter)
    requires forall q :: q in visited <==> q in paths && ScanMatches(Split(filter), 0, q)
    ensures !ExactlySelected(ix, filter, Contributions(ix, Split(filter), visited))
  {
    var levels, m := Split(filter), ix.retained[""];
    assert Split("") == [""];
    ContributionsMember(ix, levels, visited, m);
    if IsWild(Last(levels)) {
      assert Selected(ix, filter, m.topicName);
      assert m !in Contributions(ix, levels, visited);
    } else {
      LiteralMissesEmptyTopic(filter);
      var q :| q in paths && ScanMatches(levels, 0, q) && At(ix.contents, q).retainPath == "";
      assert m in Contribution(ix, levels, q);
      assert !Selected(ix, filter, m.topicName);
    }
  }

  /** The smallest case: a message kept under the empty topic is missed by the filter "+". */
  lemma EmptyTopicIsMissed(pk: Message)
    requires pk.topicName == "" && pk.payload != ""
    ensures var ix := Run([Retain(pk)]);
            && EmptyTopicInterferes(ix, {[""]}, "+") && Selected(ix, "+", "")
            && Contributions(ix, ["+"], [[""]]) == []
  {
    var ix := Run([Retain(pk)]);
    assert Run([]) == NewIndex && [Retain(pk)][..0] == [];
    assert Split("+") == ["+"] && Split("") == [""];
    assert ix.retained[""] == pk && Selected(ix, "+", "");
  }

  lemma SelectedIsContributed(ix: Index, paths: set<Path>, filter: string, m: Message)
    requires RetainedFiled(ix) && HasWildcard(filter) && forall p | p in ix.contents :: p in paths
    requires !EmptyTopicInterferes(ix, paths, filter)
    ensures Selected(ix, filter, m.topicName) && ix.retained[m.topicName] == m <==>
            exists q :: q in paths && ScanMatches(Split(filter), 0, q) && m in Contribution(ix, Split(filter), q)
  {
    var levels := Split(filter);
    assert Split("") == [""];
    if !IsWild(Last(levels)) {
      LiteralMissesEmptyTopic(filter);
    }
    if Selected(ix, filter, m.topicName) && ix.retained[m.topicName] == m {
      var q := Split(m.topicName);
      assert m.topicName != "";
      assert q in ix.contents && At(ix.contents, q).retainPath == m.topicName;
      assert m in Contribution(ix, levels, q);
    }
    if q :| q in paths && ScanMatches(levels, 0, q) && m in Contribution(ix, levels, q) {
      assert At(ix.contents, q).retainPath != "";
      assert q in ix.contents && Split(At(ix.contents, q).retainPath) == q;
    }
  }

  /** The retained messages for a filter; exact unless a message is retained under the empty topic. */
  method Messages(x: TopicsIndex, filter: string) returns (pks: seq<Message>)
    requires x.Valid() && RetainedFiled(x.View())
    ensures filter == "" ==> pks == []
    ensures filter != "" ==>
              (ExactlySelected(x.View(), filter, pks) <==> !EmptyTopicInterferes(x.View(), Paths(x.nodes), filter))
  {
    pks := [];
    if |filter| == 0 || |x.retained| == 0 {
      return;
    }
    if IndexOf(filter, '#') < 0 && IndexOf(filter, '+') < 0 {
      if filter in x.retained {
        pks := [x.retained[filter]];
      }
      ShortcutIsExact(x.View(), filter, pks);
      return;
    }
    pks := ScanMessages(x, filter, 0, x.root);
    WalkIsExact(x.View(), Paths(x.nodes), filter, pks);
  }

  /** Without wildcards, looking the filter up gives what the walk would. */
  lemma ShortcutIsExact(ix: Index, filter: string, pks: seq<Message>)
    requires RetainedFiled(ix) && !HasWildcard(filter)
    requires pks == if filter in ix.retained then [ix.retained[filter]] else []
    ensures ExactlySelected(ix, filter, pks)
  {
    var levels := Split(filter);
    TopicLevelsHaveNoWildcards(filter);
    forall m
      ensures m in pks <==> Selected(ix, filter, m.topicName) && ix.retained[m.topicName] == m
    {
      ScanLiteral(levels, 0, Split(m.topicName));
      assert levels[0..] == levels;
      if Split(m.topicName) == levels {
        SplitInjective(m.topicName, filter);
      }
    }
  }
}
