/** Subscriptions and how several matching ones are merged for one client (broker/packets/packets.go). */
module Subscriptions {
  import opened Wrappers

  type ClientId = string

  datatype Subscription = Subscription(
    filter: string,
    identifier: int,
    identifiers: Option<map<string, int>>,  // absent in a subscription as decoded from the wire
    retainHandling: nat,
    qos: nat,
    retainAsPublished: bool,
    noLocal: bool,
    fwdRetainedFlag: bool)
  {
    /** Merges n into this subscription. */
    function Merge(n: Subscription): Subscription {
      var ids := match identifiers case None => map[filter := identifier] case Some(m) => m;
      this.(identifiers := Some(if n.identifier > 0 then ids[n.filter := n.identifier] else ids),
            qos := if n.qos > qos then n.qos else qos,
            noLocal := noLocal || n.noLocal)
    }
  }

  /** Subscriptions of one client as the index holds them: not merged yet, one for each filter. */
  ghost predicate Unmerged(subs: set<Subscription>) {
    && (forall s | s in subs :: s.identifiers.None?)
    && (forall s, t | s in subs && t in subs && s.filter == t.filter :: s == t)
  }

  ghost predicate QosIsMaximum(m: Subscription, subs: set<Subscription>) {
    && (forall s | s in subs :: s.qos <= m.qos)
    && (exists s | s in subs :: s.qos == m.qos)
  }

  ghost predicate NoLocalIsOr(m: Subscription, subs: set<Subscription>) {
    m.noLocal <==> exists s | s in subs :: s.noLocal
  }

  /** The merged subscription carries the identifier of a filter exactly when it is positive. */
  ghost predicate IdentifiersExact(m: Subscription, subs: set<Subscription>) {
    && m.identifiers.Some?
    && forall f, id | id > 0 ::
         (f in m.identifiers.value && m.identifiers.value[f] == id) <==> HasIdentifier(subs, f, id)
  }

  ghost predicate HasIdentifier(subs: set<Subscription>, f: string, id: int) {
    exists s | s in subs :: s.filter == f && s.identifier == id
  }

  /** Everything else (retain handling, filter, ...) is that of one of the subscriptions. */
  ghost predicate BaseAmong(m: Subscription, subs: set<Subscription>) {
    exists b | b in subs :: m == b.(qos := m.qos, noLocal := m.noLocal, identifiers := m.identifiers)
  }

  ghost predicate MergedFrom(m: Subscription, subs: set<Subscription>) {
    QosIsMaximum(m, subs) && NoLocalIsOr(m, subs) && IdentifiersExact(m, subs) && BaseAmong(m, subs)
  }

  /** The first subscription met for a client is merged with itself. */
  lemma MergeFirst(s: Subscription)
    requires s.identifiers.None?
    ensures MergedFrom(s.Merge(s), {s})
  {
    var m := s.Merge(s);
    assert s in {s} && m == s.(qos := m.qos, noLocal := m.noLocal, identifiers := m.identifiers);
    forall f, id | id > 0
      ensures (f in m.identifiers.value && m.identifiers.value[f] == id) <==> HasIdentifier({s}, f, id)
    {
      if f == s.filter && id == s.identifier {
        assert s in {s};
      }
    }
  }

  /** Merging one more subscription, in whatever order they are met, stays a merge of the set. */
  lemma MergeNext(m: Subscription, subs: set<Subscription>, n: Subscription)
    requires MergedFrom(m, subs) && Unmerged(subs + {n})
    ensures MergedFrom(m.Merge(n), subs + {n})
  {
    var r, all := m.Merge(n), subs + {n};
    MergeQosNoLocal(m, subs, n, {n});
    forall f, id | id > 0
      ensures (f in r.identifiers.value && r.identifiers.value[f] == id) <==> HasIdentifier(all, f, id)
    {
      assert HasIdentifier(all, f, id) <==> HasIdentifier(subs, f, id) || (n.filter == f && n.identifier == id);
      if f == n.filter && HasIdentifier(subs, f, id) {
        var s :| s in subs && s.filter == f && s.identifier == id;
        assert s in all && n in all;
      }
    }
    BaseStays(m, subs, n, {n});
  }

  /**
   The shared selection of a client is itself a merge.  Merging it into the client's non-shared
   subscriptions takes over its base filter's identifier only, so identifiers are complete exactly
   when no other selected filter has a positive one.  QoS and NoLocal are always those of the union.
   */
  lemma MergeOfMerged(m: Subscription, subs: set<Subscription>, n: Subscription, more: set<Subscription>)
    requires MergedFrom(m, subs) && MergedFrom(n, more) && Unmerged(subs + more) && subs !! more
    ensures var r := m.Merge(n);
            QosIsMaximum(r, subs + more) && NoLocalIsOr(r, subs + more) && BaseAmong(r, subs + more)
    ensures IdentifiersExact(m.Merge(n), subs + more) <==>
            forall s | s in more && s.identifier > 0 :: s.filter == n.filter
  {
    MergeQosNoLocal(m, subs, n, more);
    BaseStays(m, subs, n, more);
    IdentifiersOfMerged(m, subs, n, more);
  }

  lemma IdentifiersOfMerged(m: Subscription, subs: set<Subscription>, n: Subscription, more: set<Subscription>)
    requires IdentifiersExact(m, subs) && BaseAmong(n, more) && Unmerged(subs + more) && subs !! more
    ensures IdentifiersExact(m.Merge(n), subs + more) <==>
            forall s | s in more && s.identifier > 0 :: s.filter == n.filter
  {
    var r, all := m.Merge(n), subs + more;
    var b :| b in more && n == b.(qos := n.qos, noLocal := n.noLocal, identifiers := n.identifiers);
    FiltersApart(subs, more, b);
    if s :| s in more && s.identifier > 0 && s.filter != n.filter {
      FiltersApart(subs, more, s);
      assert s in all;
      assert HasIdentifier(all, s.filter, s.identifier);
      assert !HasIdentifier(subs, s.filter, s.identifier);
      assert !IdentifiersExact(r, all);
    } else {
      forall f, id | id > 0
        ensures (f in r.identifiers.value && r.identifiers.value[f] == id) <==> HasIdentifier(all, f, id)
      {
        assert HasIdentifier(all, f, id) <==> HasIdentifier(subs, f, id) || HasIdentifier(more, f, id);
        assert HasIdentifier(more, f, id) <==> f == b.filter && id == b.identifier by {
          assert forall s | s in more :: s in all;
        }
      }
    }
  }

  lemma FiltersApart(subs: set<Subscription>, more: set<Subscription>, s: Subscription)
    requires Unmerged(subs + more) && subs !! more && s in more
    ensures forall id :: !HasIdentifier(subs, s.filter, id)
  {
    var all := subs + more;
    assert s in all;
    assert forall t | t in subs :: t in all && t != s;
  }

  /** A witness: of two selected shared filters with identifiers 2 and 3, the 3 is lost. */
  lemma IdentifierLost()
    ensures var plain := Subscription("a", 1, None, 0, 0, false, false, false);
            var first := Subscription("$SHARE/g/a", 2, None, 0, 0, false, false, false);
            var second := Subscription("$SHARE/h/a", 3, None, 0, 0, false, false, false);
            var merged := plain.Merge(plain).Merge(first.Merge(first).Merge(second));
            && merged.identifiers.Some? && second.filter !in merged.identifiers.value
            && !IdentifiersExact(merged, {plain, first, second})
  {
    var plain := Subscription("a", 1, None, 0, 0, false, false, false);
    var first := Subscription("$SHARE/g/a", 2, None, 0, 0, false, false, false);
    var second := Subscription("$SHARE/h/a", 3, None, 0, 0, false, false, false);
    assert second in {plain, first, second};
    assert HasIdentifier({plain, first, second}, "$SHARE/h/a", 3);
    assert first.filter[7] == 'g' && second.filter[7] == 'h' && |plain.filter| != |second.filter|;
  }

  /** A client that was only selected through shared filters keeps all their identifiers. */
  lemma MergeWithItself(n: Subscription, more: set<Subscription>)
    requires MergedFrom(n, more) && Unmerged(more)
    ensures MergedFrom(n.Merge(n), more)
  {
    var b :| b in more && n == b.(qos := n.qos, noLocal := n.noLocal, identifiers := n.identifiers);
    var r := n.Merge(n);
    assert r == b.(qos := r.qos, noLocal := r.noLocal, identifiers := r.identifiers);
    if n.identifier > 0 {
      assert HasIdentifier(more, n.filter, n.identifier);
    }
    assert IdentifiersExact(r, more);
  }

  // ---------- The visiting order ----------

  /** Merges subscriptions in the order they are met, the first one with itself. */
  function MergeAll(order: seq<Subscription>): Subscription
    requires order != []
  {
    var init, last := order[..|order| - 1], order[|order| - 1];
    (if init == [] then last else MergeAll(init)).Merge(last)
  }

  /** Merges the non-shared subscriptions of a client, its selected ones, then the two results. */
  function MergeBoth(plain: seq<Subscription>, chosen: seq<Subscription>): Subscription
    requires plain + chosen != []
  {
    if chosen == [] then MergeAll(plain)
    else (if plain == [] then MergeAll(chosen) else MergeAll(plain)).Merge(MergeAll(chosen))
  }

  lemma InitEnumerates(order: seq<Subscription>, subs: set<Subscription>)
    requires order != [] && Enumerates(order, subs)
    ensures var (init, last) := (order[..|order| - 1], order[|order| - 1]);
            last in subs && Enumerates(init, subs - {last})
  {
    var init, last := order[..|order| - 1], order[|order| - 1];
    assert order == init + [last] && last !in init;
  }

  lemma {:induction false} MergeAllMerges(order: seq<Subscription>, subs: set<Subscription>)
    requires order != [] && Enumerates(order, subs) && Unmerged(subs)
    ensures MergedFrom(MergeAll(order), subs) && MergeAll(order).filter == order[0].filter
  {
    var init, last := order[..|order| - 1], order[|order| - 1];
    InitEnumerates(order, subs);
    assert subs == subs - {last} + {last};
    if init == [] {
      assert subs - {last} == {};
      MergeFirst(last);
    } else {
      MergeAllMerges(init, subs - {last});
      MergeNext(MergeAll(init), subs - {last}, last);
    }
  }

  /** Any of the subscriptions can be met first. */
  lemma {:induction false} OrderFrom(subs: set<Subscription>, first: Subscription) returns (order: seq<Subscription>)
    requires first in subs
    ensures Enumerates(order, subs) && order != [] && order[0] == first
    decreases subs
  {
    var rest := subs - {first};
    if next :| next in rest {
      var others := OrderFrom(rest, next);
      order := [first] + others;
      assert forall s :: s in order <==> s == first || s in others;
    } else {
      order := [first];
      assert forall s :: s in subs <==> s == first || s in rest;
    }
  }

  /** Every visiting order gives the merge of the union; the identifiers depend on who comes first. */
  lemma MergeBothMerges(p: seq<Subscription>, c: seq<Subscription>, plain: set<Subscription>, chosen: set<Subscription>)
    requires Enumerates(p, plain) && Enumerates(c, chosen) && p + c != []
    requires Unmerged(plain + chosen) && plain !! chosen
    ensures var m := MergeBoth(p, c);
            QosIsMaximum(m, plain + chosen) && NoLocalIsOr(m, plain + chosen) && BaseAmong(m, plain + chosen)
    ensures IdentifiersExact(MergeBoth(p, c), plain + chosen) <==>
            p == [] || c == [] || forall s | s in chosen && s.identifier > 0 :: s.filter == c[0].filter
  {
    assert p == [] ==> plain + chosen == chosen;
    assert c == [] ==> plain + chosen == plain;
    if p != [] {
      MergeAllMerges(p, plain);
    }
    if c != [] {
      MergeAllMerges(c, chosen);
      if p == [] {
        MergeWithItself(MergeAll(c), chosen);
      } else {
        MergeOfMerged(MergeAll(p), plain, MergeAll(c), chosen);
      }
    }
  }

  ghost predicate CompleteInOrder(p: seq<Subscription>, c: seq<Subscription>, plain: set<Subscription>,
      chosen: set<Subscription>) {
    Enumerates(p, plain) && Enumerates(c, chosen) && p + c != [] && IdentifiersExact(MergeBoth(p, c), plain + chosen)
  }

  /** What decides one order, with any of the chosen ones met first. */
  lemma CompleteFrom(plain: set<Subscription>, chosen: set<Subscription>, first: Subscription)
    returns (p: seq<Subscription>, c: seq<Subscription>)
    requires Unmerged(plain + chosen) && plain !! chosen && plain != {} && first in chosen
    ensures Enumerates(p, plain) && Enumerates(c, chosen)
    ensures CompleteInOrder(p, c, plain, chosen) <==>
            forall s | s in chosen && s.identifier > 0 :: s.filter == first.filter
  {
    var b :| b in plain;
    p := OrderFrom(plain, b);
    c := OrderFrom(chosen, first);
    MergeBothMerges(p, c, plain, chosen);
  }

  lemma DecidedByFirst(p: seq<Subscription>, c: seq<Subscription>, plain: set<Subscription>, chosen: set<Subscription>)
    requires Unmerged(plain + chosen) && plain !! chosen && plain + chosen != {}
    requires Enumerates(p, plain) && Enumerates(c, chosen)
    ensures CompleteInOrder(p, c, plain, chosen) <==>
            plain == {} || chosen == {} || forall s | s in chosen && s.identifier > 0 :: s == c[0]
  {
    var some :| some in plain + chosen;
    assert some in p || some in c;
    MergeBothMerges(p, c, plain, chosen);
    if c != [] {
      assert c[0] in chosen;
      assert forall s | s in chosen :: s in plain + chosen;
    }
    assert p == [] <==> plain == {} by {
      if p != [] { assert p[0] in plain; }
    }
  }

  /**
   Identifiers are complete in every visiting order exactly when only one kind matched, or one
   filter was chosen, or none of the chosen ones has a positive identifier.
   */
  lemma CompleteInEveryOrder(plain: set<Subscription>, chosen: set<Subscription>)
    requires Unmerged(plain + chosen) && plain !! chosen && plain + chosen != {}
    ensures (forall p, c | Enumerates(p, plain) && Enumerates(c, chosen) :: CompleteInOrder(p, c, plain, chosen)) <==>
            || plain == {} || chosen == {}
            || (forall s, t | s in chosen && t in chosen :: s == t)
            || (forall s | s in chosen :: s.identifier <= 0)
  {
    forall p, c | Enumerates(p, plain) && Enumerates(c, chosen)
      ensures CompleteInOrder(p, c, plain, chosen) <==>
              plain == {} || chosen == {} || forall s: Subscription | s in chosen && s.identifier > 0 :: s == c[0]
      ensures chosen != {} ==> c != [] && c[0] in chosen
    {
      DecidedByFirst(p, c, plain, chosen);
      if s :| s in chosen { assert s in c && c[0] in c; }
    }
    if plain != {} && exists s, t :: s in chosen && t in chosen && s != t && s.identifier > 0 {
      var s, t :| s in chosen && t in chosen && s != t && s.identifier > 0;
      var p, c := CompleteFrom(plain, chosen, t);
      assert s in plain + chosen && t in plain + chosen;
    }
  }

  /** Some order keeps them exactly when only one kind matched, or at most one chosen filter has a positive one. */
  lemma CompleteInSomeOrder(plain: set<Subscription>, chosen: set<Subscription>)
    requires Unmerged(plain + chosen) && plain !! chosen && plain + chosen != {}
    ensures (exists p, c :: CompleteInOrder(p, c, plain, chosen)) <==>
            || plain == {} || chosen == {}
            || (forall s, t | s in chosen && t in chosen && s.identifier > 0 && t.identifier > 0 :: s == t)
  {
    if p, c :| CompleteInOrder(p, c, plain, chosen) {
      DecidedByFirst(p, c, plain, chosen);
    }
    if || plain == {} || chosen == {}
       || (forall s, t | s in chosen && t in chosen && s.identifier > 0 && t.identifier > 0 :: s == t) {
      SomeOrder(plain, chosen);
    }
  }

  lemma SomeOrder(plain: set<Subscription>, chosen: set<Subscription>)
    requires Unmerged(plain + chosen) && plain !! chosen && plain + chosen != {}
    requires || plain == {} || chosen == {}
             || (forall s, t | s in chosen && t in chosen && s.identifier > 0 && t.identifier > 0 :: s == t)
    ensures exists p, c :: CompleteInOrder(p, c, plain, chosen)
  {
    var p := OrderOf(plain);
    var c := OrderOf(chosen);
    if s :| s in chosen && s.identifier > 0 {
      c := OrderFrom(chosen, s);
    }
    DecidedByFirst(p, c, plain, chosen);
  }

  lemma OrderOf(subs: set<Subscription>) returns (order: seq<Subscription>)
    ensures Enumerates(order, subs)
  {
    if s :| s in subs {
      order := OrderFrom(subs, s);
    } else {
      order := [];
    }
  }

  lemma MergeQosNoLocal(m: Subscription, subs: set<Subscription>, n: Subscription, more: set<Subscription>)
    requires QosIsMaximum(m, subs) && NoLocalIsOr(m, subs)
    requires more == {n} || (QosIsMaximum(n, more) && NoLocalIsOr(n, more))
    ensures QosIsMaximum(m.Merge(n), subs + more) && NoLocalIsOr(m.Merge(n), subs + more)
  {
    var all := subs + more;
    assert more == {n} ==> n in more;
    var s :| s in subs && s.qos == m.qos;
    var t :| t in more && t.qos == n.qos;
    assert s in all && t in all;
    if m.noLocal {
      var x :| x in subs && x.noLocal;
      assert x in all;
    }
    if n.noLocal {
      var x :| x in more && x.noLocal;
      assert x in all;
    }
  }

  lemma BaseStays(m: Subscription, subs: set<Subscription>, n: Subscription, more: set<Subscription>)
    requires BaseAmong(m, subs)
    ensures BaseAmong(m.Merge(n), subs + more)
  {
    var r := m.Merge(n);
    var b :| b in subs && m == b.(qos := m.qos, noLocal := m.noLocal, identifiers := m.identifiers);
    assert b in subs + more;
    assert r == b.(qos := r.qos, noLocal := r.noLocal, identifiers := r.identifiers);
  }
}
