/**
 The specification of the topic index: what a trie holds, without the trie.

 Contents maps each path of levels that holds anything to what it holds; the retained messages
 live beside it.  Every operation of the index is one step on this state, and `LastWrite` says
 what the state means: for each client and filter key, the last subscription written to it.
 */
module IndexSpec {
  import opened Wrappers
  import opened Levels
  import opened Filters
  import opened Subscriptions

  datatype Message = Message(
    topicName: string,
    payload: string,
    retain: bool,
    protocolVersion: nat,
    created: int,
    expiry: int)

  datatype Content = Content(
    subs: map<ClientId, Subscription>,
    shared: map<string, map<ClientId, Subscription>>,
    inline: map<int, Subscription>,
    retainPath: string)

  const Empty := Content(map[], map[], map[], "")

  type Contents = map<Path, Content>

  datatype Index = Index(contents: Contents, retained: map<string, Message>)

  const NewIndex := Index(map[], map[])

  function At(c: Contents, p: Path): Content {
    if p in c then c[p] else Empty
  }

  function Put(c: Contents, p: Path, v: Content): Contents {
    if v == Empty then c - {p} else c[p := v]
  }

  /** No entry stands for nothing: no empty content, no empty share group. */
  ghost predicate Proper(c: Contents) {
    forall p | p in c :: c[p] != Empty && ProperShared(c[p].shared)
  }

  ghost predicate ProperShared(shared: map<string, map<ClientId, Subscription>>) {
    forall g | g in shared :: shared[g] != map[]
  }

  // ---------- Steps ----------

  function AddShared(shared: map<string, map<ClientId, Subscription>>, group: string, client: ClientId,
      sub: Subscription)
    : map<string, map<ClientId, Subscription>>
  {
    shared[group := (if group in shared then shared[group] else map[])[client := sub]]
  }

  function DeleteShared(shared: map<string, map<ClientId, Subscription>>, group: string, client: ClientId)
    : map<string, map<ClientId, Subscription>>
  {
    if group !in shared || shared[group] - {client} == map[] then shared - {group}
    else shared[group := shared[group] - {client}]
  }

  function SubscribeAt(c: Contents, key: FilterKey, client: ClientId, sub: Subscription): Contents {
    var v := At(c, key.path);
    match key
    case Plain(p) => Put(c, p, v.(subs := v.subs[client := sub]))
    case Shared(g, p) => Put(c, p, v.(shared := AddShared(v.shared, g, client, sub)))
  }

  function UnsubscribeAt(c: Contents, key: FilterKey, client: ClientId): Contents {
    var v := At(c, key.path);
    match key
    case Plain(p) => Put(c, p, v.(subs := v.subs - {client}))
    case Shared(g, p) => Put(c, p, v.(shared := DeleteShared(v.shared, g, client)))
  }

  function SubscribeStep(c: Contents, client: ClientId, sub: Subscription): Contents {
    SubscribeAt(c, KeyOf(sub.filter), client, sub)
  }

  function UnsubscribeStep(c: Contents, client: ClientId, filter: string): Contents {
    UnsubscribeAt(c, KeyOf(filter), client)
  }

  function SetInline(c: Contents, p: Path, id: int, sub: Subscription): Contents {
    var v := At(c, p);
    Put(c, p, v.(inline := v.inline[id := sub]))
  }

  function DeleteInline(c: Contents, p: Path, id: int): Contents {
    var v := At(c, p);
    Put(c, p, v.(inline := v.inline - {id}))
  }

  function SetRetainPath(c: Contents, p: Path, retainPath: string): Contents {
    Put(c, p, At(c, p).(retainPath := retainPath))
  }

  /** An empty payload clears the retained message of its topic. */
  function RetainStep(ix: Index, pk: Message): Index {
    var p := PathFrom(pk.topicName, 0);
    if pk.payload != "" then
      Index(SetRetainPath(ix.contents, p, pk.topicName), ix.retained[pk.topicName := pk])
    else
      Index(SetRetainPath(ix.contents, p, ""), ix.retained - {pk.topicName})
  }

  predicate Expired(pk: Message, now: int, maximumExpiry: int) {
    || (pk.protocolVersion == 5 && 0 < pk.expiry < now)
    || (maximumExpiry > 0 && now - pk.created > maximumExpiry)
  }

  /** The expiry sweep drops messages but leaves the paths that led to them. */
  function SweepStep(ix: Index, now: int, maximumExpiry: int): Index {
    ix.(retained := map t | t in ix.retained && !Expired(ix.retained[t], now, maximumExpiry) :: ix.retained[t])
  }

  /**
   A sweep keeps exactly the messages that are not past an expiry of their own, which only version 5
   has, nor past the broker's maximum age, if there is one.
   */
  lemma SweepExactly(ix: Index, now: int, maximumExpiry: int, t: string)
    ensures var after := SweepStep(ix, now, maximumExpiry);
            && after.contents == ix.contents
            && (t in after.retained ==> t in ix.retained && after.retained[t] == ix.retained[t])
            && (t in ix.retained ==>
                  var pk := ix.retained[t];
                  t in after.retained <==>
                  (pk.protocolVersion != 5 || pk.expiry <= 0 || now <= pk.expiry)
                  && (maximumExpiry <= 0 || now <= pk.created + maximumExpiry))
  {
  }

  datatype Op =
    | Subscribe(client: ClientId, sub: Subscription)
    | Unsubscribe(client: ClientId, filter: string)
    | InlineSubscribe(sub: Subscription)
    | InlineUnsubscribe(id: int, filter: string)
    | Retain(pk: Message)
    | Sweep(now: int, maximumExpiry: int)

  function Step(ix: Index, op: Op): Index {
    match op
    case Subscribe(client, sub) => ix.(contents := SubscribeStep(ix.contents, client, sub))
    case Unsubscribe(client, filter) => ix.(contents := UnsubscribeStep(ix.contents, client, filter))
    case InlineSubscribe(sub) => ix.(contents := SetInline(ix.contents, PathFrom(sub.filter, 0), sub.identifier, sub))
    case InlineUnsubscribe(id, filter) => ix.(contents := DeleteInline(ix.contents, PathFrom(filter, 0), id))
    case Retain(pk) => RetainStep(ix, pk)
    case Sweep(now, maximumExpiry) => SweepStep(ix, now, maximumExpiry)
  }

  function Run(ops: seq<Op>): Index {
    if ops == [] then NewIndex else Step(Run(ops[..|ops| - 1]), ops[|ops| - 1])
  }

  // ---------- The flat meaning ----------

  /** The subscription the index holds for a client under a filter key. */
  function Lookup(c: Contents, client: ClientId, key: FilterKey): Option<Subscription> {
    var v := At(c, key.path);
    match key
    case Plain(_) => if client in v.subs then Some(v.subs[client]) else None
    case Shared(g, _) => if g in v.shared && client in v.shared[g] then Some(v.shared[g][client]) else None
  }

  /** The last subscription a client wrote under a key and has not deleted since. */
  function LastWrite(ops: seq<Op>, client: ClientId, key: FilterKey): Option<Subscription> {
    if ops == [] then None
    else
      var (before, op) := (ops[..|ops| - 1], ops[|ops| - 1]);
      match op
      case Subscribe(c, sub) =>
        if c == client && KeyOf(sub.filter) == key then Some(sub) else LastWrite(before, client, key)
      case Unsubscribe(c, filter) =>
        if c == client && KeyOf(filter) == key then None else LastWrite(before, client, key)
      case _ => LastWrite(before, client, key)
  }

  lemma AtPut(c: Contents, p: Path, v: Content, q: Path)
    ensures At(Put(c, p, v), q) == if q == p then v else At(c, q)
  {
  }

  /** A subscription changes what is held under its own client and key, and nothing else. */
  lemma LookupAfterSubscribe(c: Contents, key: FilterKey, client: ClientId, sub: Subscription, who: ClientId,
      k: FilterKey)
    ensures Lookup(SubscribeAt(c, key, client, sub), who, k) ==
            if who == client && k == key then Some(sub) else Lookup(c, who, k)
  {
    var v := At(c, key.path);
    match key
    case Plain(p) => AtPut(c, p, v.(subs := v.subs[client := sub]), k.path);
    case Shared(g, p) => AtPut(c, p, v.(shared := AddShared(v.shared, g, client, sub)), k.path);
  }

  /** Unsubscribing removes exactly one key of one client. */
  lemma LookupAfterUnsubscribe(c: Contents, key: FilterKey, client: ClientId, who: ClientId, k: FilterKey)
    ensures Lookup(UnsubscribeAt(c, key, client), who, k) ==
            if who == client && k == key then None else Lookup(c, who, k)
  {
    var v := At(c, key.path);
    match key
    case Plain(p) => AtPut(c, p, v.(subs := v.subs - {client}), k.path);
    case Shared(g, p) =>
      AtPut(c, p, v.(shared := DeleteShared(v.shared, g, client)), k.path);
      if g in v.shared && who != client && who in v.shared[g] {
        assert who in v.shared[g] - {client};
      }
  }

  lemma LookupAfterInline(c: Contents, p: Path, id: int, sub: Subscription, who: ClientId, k: FilterKey)
    ensures Lookup(SetInline(c, p, id, sub), who, k) == Lookup(c, who, k)
  {
    AtPut(c, p, At(c, p).(inline := At(c, p).inline[id := sub]), k.path);
  }

  lemma LookupAfterInlineDelete(c: Contents, p: Path, id: int, who: ClientId, k: FilterKey)
    ensures Lookup(DeleteInline(c, p, id), who, k) == Lookup(c, who, k)
  {
    AtPut(c, p, At(c, p).(inline := At(c, p).inline - {id}), k.path);
  }

  lemma LookupAfterRetain(c: Contents, p: Path, retainPath: string, who: ClientId, k: FilterKey)
    ensures Lookup(SetRetainPath(c, p, retainPath), who, k) == Lookup(c, who, k)
  {
    AtPut(c, p, At(c, p).(retainPath := retainPath), k.path);
  }

  /** After any run, the index holds for each client and key the last subscription written to it. */
  lemma {:induction false} LookupIsLastWrite(ops: seq<Op>, client: ClientId, key: FilterKey)
    ensures Lookup(Run(ops).contents, client, key) == LastWrite(ops, client, key)
  {
    if ops != [] {
      var before := ops[..|ops| - 1];
      LookupIsLastWrite(before, client, key);
      var c := Run(before).contents;
      match ops[|ops| - 1]
      case Subscribe(who, sub) => LookupAfterSubscribe(c, KeyOf(sub.filter), who, sub, client, key);
      case Unsubscribe(who, filter) => LookupAfterUnsubscribe(c, KeyOf(filter), who, client, key);
      case InlineSubscribe(sub) => LookupAfterInline(c, PathFrom(sub.filter, 0), sub.identifier, sub, client, key);
      case InlineUnsubscribe(id, filter) => LookupAfterInlineDelete(c, PathFrom(filter, 0), id, client, key);
      case Retain(pk) =>
        LookupAfterRetain(c, PathFrom(pk.topicName, 0), if pk.payload != "" then pk.topicName else "", client, key);
      case Sweep(_, _) =>
    }
  }

  // ---------- Inline subscriptions ----------

  /** The inline subscription held under an identifier at the levels of a filter. */
  function InlineAt(c: Contents, p: Path, id: int): Option<Subscription> {
    if id in At(c, p).inline then Some(At(c, p).inline[id]) else None
  }

  /** The last one written there and not deleted since. */
  function LastInline(ops: seq<Op>, p: Path, id: int): Option<Subscription> {
    if ops == [] then None
    else
      var (before, op) := (ops[..|ops| - 1], ops[|ops| - 1]);
      match op
      case InlineSubscribe(sub) =>
        if Split(sub.filter) == p && sub.identifier == id then Some(sub) else LastInline(before, p, id)
      case InlineUnsubscribe(i, filter) =>
        if Split(filter) == p && i == id then None else LastInline(before, p, id)
      case _ => LastInline(before, p, id)
  }

  lemma InlineKept(c: Contents, q: Path, v: Content, p: Path, id: int)
    requires v.inline == At(c, q).inline
    ensures InlineAt(Put(c, q, v), p, id) == InlineAt(c, p, id)
  {
    AtPut(c, q, v, p);
  }

  /** No operation on clients' subscriptions or retained messages touches an inline one. */
  lemma OthersKeepInline(ix: Index, op: Op, p: Path, id: int)
    requires !op.InlineSubscribe? && !op.InlineUnsubscribe?
    ensures InlineAt(Step(ix, op).contents, p, id) == InlineAt(ix.contents, p, id)
  {
    var c := ix.contents;
    match op
    case Subscribe(client, sub) =>
      var key := KeyOf(sub.filter);
      var v := At(c, key.path);
      match key {
        case Plain(q) => InlineKept(c, q, v.(subs := v.subs[client := sub]), p, id);
        case Shared(g, q) => InlineKept(c, q, v.(shared := AddShared(v.shared, g, client, sub)), p, id);
      }
    case Unsubscribe(client, filter) =>
      var key := KeyOf(filter);
      var v := At(c, key.path);
      match key {
        case Plain(q) => InlineKept(c, q, v.(subs := v.subs - {client}), p, id);
        case Shared(g, q) => InlineKept(c, q, v.(shared := DeleteShared(v.shared, g, client)), p, id);
      }
    case Retain(pk) =>
      var q := PathFrom(pk.topicName, 0);
      InlineKept(c, q, At(c, q).(retainPath := if pk.payload != "" then pk.topicName else ""), p, id);
    case Sweep(_, _) =>
  }

  /** After any run the index holds, for each filter and identifier, the last inline subscription written. */
  lemma {:induction false} InlineIsLastWrite(ops: seq<Op>, p: Path, id: int)
    ensures InlineAt(Run(ops).contents, p, id) == LastInline(ops, p, id)
  {
    if ops != [] {
      var before, op := ops[..|ops| - 1], ops[|ops| - 1];
      InlineIsLastWrite(before, p, id);
      var c := Run(before).contents;
      match op
      case InlineSubscribe(sub) =>
        var q := Split(sub.filter);
        AtPut(c, q, At(c, q).(inline := At(c, q).inline[sub.identifier := sub]), p);
      case InlineUnsubscribe(i, filter) =>
        var q := Split(filter);
        AtPut(c, q, At(c, q).(inline := At(c, q).inline - {i}), p);
      case _ => OthersKeepInline(Run(before), op, p, id);
    }
  }

  // ---------- Shared and plain filters, told from their levels ----------

  /**
   A subscription behind a share prefix, in any spelling, is held for the group, whatever stands in
   between, and offered for every topic that the rest of the filter matches.
   */
  lemma SharedIsFiled(ix: Index, client: ClientId, sub: Subscription, word: string, group: string, rest: string)
    requires Fold(word) == "$share" && '/' !in group && sub.filter == word + "/" + (group + "/" + rest)
    ensures var after := Step(ix, Subscribe(client, sub)).contents;
            && Lookup(after, client, Shared(group, Split(rest))) == Some(sub)
            && (forall topic :: MatchingShared(after, topic, sub, client) <==> Matches(Split(rest), Split(topic)))
  {
    FoldedIsLevel(word);
    SharedLevels(word, group, rest);
    KeyByLevels(sub.filter);
    assert Split(sub.filter)[2..] == Split(rest);
    LookupAfterSubscribe(ix.contents, KeyOf(sub.filter), client, sub, client, KeyOf(sub.filter));
  }

  /** It is given up with the same group and rest behind any other spelling. */
  lemma SharedIsGivenUp(ix: Index, client: ClientId, filter: string, word: string, group: string, rest: string)
    requires Fold(word) == "$share" && '/' !in group && filter == word + "/" + (group + "/" + rest)
    ensures Lookup(Step(ix, Unsubscribe(client, filter)).contents, client, Shared(group, Split(rest))) == None
  {
    FoldedIsLevel(word);
    SharedLevels(word, group, rest);
    KeyByLevels(filter);
    assert Split(filter)[2..] == Split(rest);
    LookupAfterUnsubscribe(ix.contents, KeyOf(filter), client, client, KeyOf(filter));
  }

  /** A subscription whose first level is no share prefix is the client's own, at its levels. */
  lemma PlainIsFiled(ix: Index, client: ClientId, sub: Subscription, topic: string)
    requires Fold(Split(sub.filter)[0]) != "$share" && topic != "" && Filed(ix.contents)
    ensures var after := Step(ix, Subscribe(client, sub)).contents;
            && Lookup(after, client, Plain(Split(sub.filter))) == Some(sub)
            && !MatchingShared(after, topic, sub, client)
            && (Matches(Split(sub.filter), Split(topic)) && !Excluded(topic, sub.filter) ==>
                sub in MatchingSubs(after, topic, client))
  {
    KeyByLevels(sub.filter);
    LookupAfterSubscribe(ix.contents, KeyOf(sub.filter), client, sub, client, KeyOf(sub.filter));
    var after := Step(ix, Subscribe(client, sub)).contents;
    assert Split(sub.filter) in after && client in after[Split(sub.filter)].subs;
  }

  // ---------- Subscribers of a topic ----------

  /** The subscriptions of a client that are gathered for a topic. */
  ghost function MatchingSubs(c: Contents, topic: string, client: ClientId): set<Subscription>
    requires topic != ""
  {
    set p | p in c && client in c[p].subs && Matches(p, Split(topic)) && !Excluded(topic, c[p].subs[client].filter)
      :: c[p].subs[client]
  }

  /** The subscription a client holds under a shared filter that is gathered for a topic. */
  ghost predicate MatchingShared(c: Contents, topic: string, sub: Subscription, client: ClientId) {
    && KeyOf(sub.filter).Shared?
    && Lookup(c, client, KeyOf(sub.filter)) == Some(sub)
    && Matches(KeyOf(sub.filter).path, Split(topic))
  }

  /** Each stored subscription is filed under the key of its own filter. */
  ghost predicate Filed(c: Contents) {
    forall client, key :: Lookup(c, client, key).Some? ==> KeyOf(Lookup(c, client, key).value.filter) == key
  }

  /** Subscriptions are stored as decoded, without merged identifiers. */
  ghost predicate AllUnmerged(c: Contents) {
    forall client, key :: Lookup(c, client, key).Some? ==> Lookup(c, client, key).value.identifiers.None?
  }

  ghost predicate DecodedOps(ops: seq<Op>) {
    forall op | op in ops && op.Subscribe? :: op.sub.identifiers.None?
  }

  lemma PutProper(c: Contents, p: Path, v: Content)
    requires Proper(c) && ProperShared(v.shared)
    ensures Proper(Put(c, p, v))
  {
  }

  lemma ProperStep(ix: Index, op: Op)
    requires Proper(ix.contents)
    ensures Proper(Step(ix, op).contents)
  {
    var c := ix.contents;
    match op
    case Subscribe(client, sub) => ProperSubscribe(c, KeyOf(sub.filter), client, sub);
    case Unsubscribe(client, filter) => ProperUnsubscribe(c, KeyOf(filter), client);
    case InlineSubscribe(sub) =>
      var p := PathFrom(sub.filter, 0);
      PutProper(c, p, At(c, p).(inline := At(c, p).inline[sub.identifier := sub]));
    case InlineUnsubscribe(id, filter) =>
      var p := PathFrom(filter, 0);
      PutProper(c, p, At(c, p).(inline := At(c, p).inline - {id}));
    case Retain(pk) =>
      var p := PathFrom(pk.topicName, 0);
      PutProper(c, p, At(c, p).(retainPath := if pk.payload != "" then pk.topicName else ""));
    case Sweep(_, _) =>
  }

  lemma ProperSubscribe(c: Contents, key: FilterKey, client: ClientId, sub: Subscription)
    requires Proper(c)
    ensures Proper(SubscribeAt(c, key, client, sub))
  {
    var v := At(c, key.path);
    match key
    case Plain(p) => PutProper(c, p, v.(subs := v.subs[client := sub]));
    case Shared(g, p) =>
      var m := AddShared(v.shared, g, client, sub);
      assert client in m[g];
      PutProper(c, p, v.(shared := m));
  }

  lemma ProperUnsubscribe(c: Contents, key: FilterKey, client: ClientId)
    requires Proper(c)
    ensures Proper(UnsubscribeAt(c, key, client))
  {
    var v := At(c, key.path);
    match key
    case Plain(p) => PutProper(c, p, v.(subs := v.subs - {client}));
    case Shared(g, p) => PutProper(c, p, v.(shared := DeleteShared(v.shared, g, client)));
  }

  lemma {:induction false} RunInvariant(ops: seq<Op>)
    ensures Proper(Run(ops).contents) && RetainedFiled(Run(ops))
  {
    if ops != [] {
      var before, op := ops[..|ops| - 1], ops[|ops| - 1];
      RunInvariant(before);
      ProperStep(Run(before), op);
      RetainedFiledStep(Run(before), op);
    }
  }

  lemma RunFiled(ops: seq<Op>)
    ensures Filed(Run(ops).contents)
    ensures DecodedOps(ops) ==> AllUnmerged(Run(ops).contents)
  {
    forall client, key | Lookup(Run(ops).contents, client, key).Some?
      ensures KeyOf(Lookup(Run(ops).contents, client, key).value.filter) == key
      ensures DecodedOps(ops) ==> Lookup(Run(ops).contents, client, key).value.identifiers.None?
    {
      LookupIsLastWrite(ops, client, key);
      LastWriteFromOp(ops, client, key);
    }
  }

  lemma {:induction false} LastWriteFromOp(ops: seq<Op>, client: ClientId, key: FilterKey)
    requires LastWrite(ops, client, key).Some?
    ensures var sub := LastWrite(ops, client, key).value;
            KeyOf(sub.filter) == key && Subscribe(client, sub) in ops
  {
    var before, op := ops[..|ops| - 1], ops[|ops| - 1];
    assert op in ops && forall o | o in before :: o in ops;
    if !(op.Subscribe? && op.client == client && KeyOf(op.sub.filter) == key) {
      LastWriteFromOp(before, client, key);
    }
  }

  /**
   After any run, a client is gathered for a topic with exactly those of its last written,
   not deleted, non-shared subscriptions whose filter matches.
   */
  lemma MatchingIsLastWritten(ops: seq<Op>, topic: string, client: ClientId, sub: Subscription)
    requires topic != ""
    ensures sub in MatchingSubs(Run(ops).contents, topic, client) <==>
            && KeyOf(sub.filter).Plain?
            && LastWrite(ops, client, KeyOf(sub.filter)) == Some(sub)
            && Matches(KeyOf(sub.filter).path, Split(topic))
            && !Excluded(topic, sub.filter)
  {
    RunFiled(ops);
    LookupIsLastWrite(ops, client, KeyOf(sub.filter));
    MatchingIsLookup(Run(ops).contents, topic, client, sub);
  }

  lemma MatchingIsLookup(c: Contents, topic: string, client: ClientId, sub: Subscription)
    requires topic != "" && Filed(c)
    ensures sub in MatchingSubs(c, topic, client) <==>
            && KeyOf(sub.filter).Plain?
            && Lookup(c, client, KeyOf(sub.filter)) == Some(sub)
            && Matches(KeyOf(sub.filter).path, Split(topic))
            && !Excluded(topic, sub.filter)
  {
    if sub in MatchingSubs(c, topic, client) {
      var p :| p in c && client in c[p].subs && c[p].subs[client] == sub && Matches(p, Split(topic));
      assert Lookup(c, client, Plain(p)) == Some(sub);
      assert KeyOf(sub.filter) == Plain(p);
    }
  }

  /** The same for wildcard-free topics and valid filters, against section 4.7 of the standard. */
  lemma MatchingAgainstStandard(ops: seq<Op>, topic: string, client: ClientId, sub: Subscription)
    requires topic != "" && !HasWildcard(topic)
    requires forall op | op in ops && op.Subscribe? :: IsValidFilter(op.sub.filter, false)
    ensures sub in MatchingSubs(Run(ops).contents, topic, client) <==>
            && KeyOf(sub.filter).Plain?
            && LastWrite(ops, client, KeyOf(sub.filter)) == Some(sub)
            && StdAccepts(Split(sub.filter), Split(topic))
            && !EndsPlusHashBeyond(Split(sub.filter), Split(topic))
  {
    MatchingIsLastWritten(ops, topic, client, sub);
    if LastWrite(ops, client, KeyOf(sub.filter)) == Some(sub) && KeyOf(sub.filter).Plain? {
      LastWriteFromOp(ops, client, KeyOf(sub.filter));
      PlainAcceptance(sub.filter, topic);
    }
  }

  /** Shared subscriptions: after any run, exactly the last written, not deleted ones that match. */
  lemma SharedIsLastWritten(ops: seq<Op>, topic: string, client: ClientId, sub: Subscription)
    ensures MatchingShared(Run(ops).contents, topic, sub, client) <==>
            && KeyOf(sub.filter).Shared?
            && LastWrite(ops, client, KeyOf(sub.filter)) == Some(sub)
            && Matches(KeyOf(sub.filter).path, Split(topic))
  {
    LookupIsLastWrite(ops, client, KeyOf(sub.filter));
  }

  /** The same against section 4.7, behind the share prefix and the group of a valid filter. */
  lemma SharedAgainstStandard(ops: seq<Op>, topic: string, client: ClientId, sub: Subscription)
    requires topic != "" && !HasWildcard(topic)
    requires forall op | op in ops && op.Subscribe? :: IsValidFilter(op.sub.filter, false)
    ensures MatchingShared(Run(ops).contents, topic, sub, client) <==>
            && IsSharedFilter(sub.filter)
            && LastWrite(ops, client, KeyOf(sub.filter)) == Some(sub)
            && var f, t := KeyOf(sub.filter).path, Split(topic);
               && (StdAccepts(f, t) || (StdMatches(f, t) && IsWild(f[0]) && StartsWithDollar(t)))
               && !EndsPlusHashBeyond(f, t)
  {
    SharedIsLastWritten(ops, topic, client, sub);
    if LastWrite(ops, client, KeyOf(sub.filter)) == Some(sub) && IsSharedFilter(sub.filter) {
      LastWriteFromOp(ops, client, KeyOf(sub.filter));
      ValidFilterPath(sub.filter);
      SharedAcceptance(sub.filter, topic);
    }
  }

  // ---------- Undoing ----------

  /**
   Unsubscribing what was not held before a subscription restores the contents, and with them
   the shape of the trie.
   */
  lemma UnsubscribeUndoesSubscribe(c: Contents, client: ClientId, sub: Subscription)
    requires Proper(c) && Lookup(c, client, KeyOf(sub.filter)).None?
    ensures UnsubscribeStep(SubscribeStep(c, client, sub), client, sub.filter) == c
  {
    UndoAt(c, KeyOf(sub.filter), client, sub);
  }

  lemma UndoAt(c: Contents, key: FilterKey, client: ClientId, sub: Subscription)
    requires Proper(c) && Lookup(c, client, key).None?
    ensures UnsubscribeAt(SubscribeAt(c, key, client, sub), key, client) == c
  {
    var v := At(c, key.path);
    match key
    case Plain(p) =>
      var w := v.(subs := v.subs[client := sub]);
      AtPut(c, p, w, p);
      assert w.subs - {client} == v.subs;
      PutPut(c, p, w);
    case Shared(g, p) =>
      var m := AddShared(v.shared, g, client, sub);
      var w := v.(shared := m);
      AtPut(c, p, w, p);
      assert m[g] - {client} == if g in v.shared then v.shared[g] else map[];
      assert DeleteShared(m, g, client) == v.shared;
      PutPut(c, p, w);
  }

  lemma PutPut(c: Contents, p: Path, w: Content)
    requires Proper(c)
    ensures Put(Put(c, p, w), p, At(c, p)) == c
  {
  }

  /** The nodes a minimal trie has: the root and the prefixes of paths that hold something. */
  ghost predicate InShape(c: Contents, p: Path) {
    p == [] || exists q | q in c :: p <= q
  }

  // ---------- Retained messages ----------

  /** Retained messages are filed under their topic; a path leads to at most one of them. */
  ghost predicate RetainedFiled(ix: Index) {
    && (forall t | t in ix.retained :: ix.retained[t].topicName == t && At(ix.contents, Split(t)).retainPath == t)
    && (forall p | p in ix.contents && ix.contents[p].retainPath != "" :: Split(ix.contents[p].retainPath) == p)
  }

  lemma RetainedFiledStep(ix: Index, op: Op)
    requires RetainedFiled(ix)
    ensures RetainedFiled(Step(ix, op))
  {
    var c := ix.contents;
    match op
    case Subscribe(client, sub) =>
      var key := KeyOf(sub.filter);
      var v := At(c, key.path);
      match key {
        case Plain(p) => SameRetainPath(ix, p, v.(subs := v.subs[client := sub]));
        case Shared(g, p) => SameRetainPath(ix, p, v.(shared := AddShared(v.shared, g, client, sub)));
      }
    case Unsubscribe(client, filter) =>
      var key := KeyOf(filter);
      var v := At(c, key.path);
      match key {
        case Plain(p) => SameRetainPath(ix, p, v.(subs := v.subs - {client}));
        case Shared(g, p) => SameRetainPath(ix, p, v.(shared := DeleteShared(v.shared, g, client)));
      }
    case InlineSubscribe(sub) =>
      var v := At(c, PathFrom(sub.filter, 0));
      SameRetainPath(ix, PathFrom(sub.filter, 0), v.(inline := v.inline[sub.identifier := sub]));
    case InlineUnsubscribe(id, filter) =>
      var v := At(c, PathFrom(filter, 0));
      SameRetainPath(ix, PathFrom(filter, 0), v.(inline := v.inline - {id}));
    case Retain(pk) => RetainKeepsFiled(ix, pk);
    case Sweep(_, _) =>
  }

  lemma SameRetainPath(ix: Index, p: Path, v: Content)
    requires RetainedFiled(ix) && v.retainPath == At(ix.contents, p).retainPath
    ensures RetainedFiled(Index(Put(ix.contents, p, v), ix.retained))
  {
    var c := Put(ix.contents, p, v);
    forall t | t in ix.retained
      ensures At(c, Split(t)).retainPath == t
    {
      AtPut(ix.contents, p, v, Split(t));
    }
  }

  lemma RetainKeepsFiled(ix: Index, pk: Message)
    requires RetainedFiled(ix)
    ensures RetainedFiled(RetainStep(ix, pk))
  {
    var p, after := Split(pk.topicName), RetainStep(ix, pk);
    forall t | t in after.retained
      ensures after.retained[t].topicName == t && At(after.contents, Split(t)).retainPath == t
    {
      AtPut(ix.contents, p, At(ix.contents, p).(retainPath := if pk.payload != "" then pk.topicName else ""), Split(t));
      if t != pk.topicName && Split(t) == p {
        SplitInjective(t, pk.topicName);
      }
    }
  }

  /** The retained message of a topic: the last one kept, unless it was cleared or swept since. */
  function LastRetained(ops: seq<Op>, topic: string): Option<Message> {
    if ops == [] then None
    else
      var (before, op) := (ops[..|ops| - 1], ops[|ops| - 1]);
      match op
      case Retain(pk) =>
        if pk.topicName != topic then LastRetained(before, topic)
        else if pk.payload != "" then Some(pk) else None
      case Sweep(now, max) =>
        var r := LastRetained(before, topic);
        if r.Some? && Expired(r.value, now, max) then None else r
      case _ => LastRetained(before, topic)
  }

  lemma {:induction false} RetainedIsLast(ops: seq<Op>, topic: string)
    ensures var r := Run(ops).retained;
            (if topic in r then Some(r[topic]) else None) == LastRetained(ops, topic)
  {
    if ops != [] {
      RetainedIsLast(ops[..|ops| - 1], topic);
    }
  }

  /** The retained messages a filter selects. */
  ghost predicate Selected(ix: Index, filter: string, topic: string) {
    topic in ix.retained && ScanMatches(Split(filter), 0, Split(topic))
  }

  /** Selection against section 4.7 of the standard, for valid filters. */
  lemma SelectedAgainstStandard(ix: Index, filter: string, topic: string)
    requires IsValidFilter(filter, false) && !IsSharedFilter(filter)
    ensures Selected(ix, filter, topic) <==>
            var f, t := Split(filter), Split(topic);
            && topic in ix.retained
            && StdMatches(f, t)
            && !(Last(f) == "#" && |t| == |f| - 1)
            && !((f[0] == "+" || f[0] == "#") && t[0] == "$SYS")
  {
    ValidFilterPath(filter);
    ScanVsStandard(Split(filter), 0, Split(topic));
  }
}
