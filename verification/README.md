# Verified model of the MQTT 5.0 broker core

This project models the core of the broker in Dafny and proves what it keeps. The broker's objects that change in
place are classes whose methods are proved against a specification on values; the specification's own properties are
proved over every run.

- **Topic index.** `Levels`, `Filters` and `Subscriptions` hold the string functions, the match relations and the
  merge. `IndexSpec` is the flat meaning: a map from paths to what they hold. `TopicTrie` is the heap trie with parent
  pointers and pruning, `Gathering`/`TopicScan` the subscriber scan, `RetainedScan` the scan for retained messages.
  Results: the trie refines the flat map and is always minimal; a topic's subscribers are exactly the matching ones;
  retained messages are returned once each.
- **QoS and sessions.** `QosSpec` is one session as a state machine, `QosServer` the handlers that change it in place,
  `Broker` the in-flight counter over all sessions. `SessionSpec` and `SessionServer` are session takeover over the real
  trie: in every interleaving the index holds for a client id exactly the subscriptions of the session now in Clients.
- **Wire codec.** `Wire`, `FixedHeaders`, `PropertyBlock`, `PropertyWriting`, `ControlPackets`, `FilterPackets` and
  `PacketStream`: from variable byte integers to a stream of all fifteen packet types, read back in a normal form;
  `Layouts` fixes where every field stands on the wire.
- **Priority scheduler and topic aliases.** `PriorityMessaging` and `TopicAliases`, over whole runs.

`dafny verify dfyconfig.toml` checks the whole project.

## How the model reads the source

- One method is one atomic step. The quota updates of the source are check-then-add on atomics, and a connection is
  set up in several calls; that they do not interleave within one handler is an assumption of the model.
- In `Broker` no handler of a replaced connection runs: the entries it would add belong to no session in Clients.
- A Go map is visited in any order. Time, hook answers, ACL answers, write failures and the room in a client's queue
  are arguments. A shared subscription's member is chosen arbitrarily. Hooks do not rewrite packets.
- Topics and filters of the index are sequences of code points; strings on the wire are sequences of bytes.
- Subscriptions enter the index as they are decoded, without merged identifiers.
- A struct's error causes are kept where the code branches on them; the wrapping of a decode error in a second error is not.
- The fields of `Properties` are a table from property identifier to value: a property is in the table when its
  presence flag is set or, where it has none, its field has been set.
- `Decode` reads a value by the kind its identifier calls for; the assignment per field is an update of the table.

## What the code does where its documentation or the standard says otherwise

- A filter that ends in `+/#` does not match the parent level of its `#`, and shared filters match `$` topics
  (`Filters.MatchesVsStandard`, `Filters.SharedAcceptance`).
- For retained messages `#` never returns its parent level, and a leading wildcard hides only a first level of exactly
  `$SYS` (`Filters.ScanVsStandard`). Inline subscriptions never match the parent level either.
- Long s (U+017F) folds to S, so it also spells the share prefix (`strings.EqualFold`).
- `Unsubscribe` returns true when the node exists, whether or not this client held anything there.
- The comment of the ageing loop promotes normal entries to high; the code promotes both kinds to urgent.
- A retained message under the empty topic name leaves a particle that reads as dead, and spoils some wildcard filters
  (`TopicTrie.TopicsIndex.RetainMessage`, `RetainedScan.Messages`).
- A client chosen for two shared filters beside a plain one can lose an identifier (`Subscriptions.IdentifierLost`); when
  it does, and for which visiting orders, is stated exactly (`Subscriptions.CompleteInEveryOrder`).
- A publish that is refused, dropped or held for send quota has already used up its alias. What arrives still resolves
  to its own topics if and only if every publish on a topic with an alias arrives after the one that named the alias
  (`TopicAliases.HeldRoundTrip`; `TopicAliases.NewConnectionWithLoss` for connections that hold nothing).
- Members that spell the share prefix differently share a group in the index but get a copy of each message per spelling
  (`Gathering.OneCopyExactly`).
- The scheduler keeps the arrival order of a class if and only if the high entries and the normal entries are each
  stamped in order (`PriorityMessaging.OrderKeptExactly`).
- A delivery dropped on a full queue leaves Info.Inflight one too high, a session that expires leaves it too high by what
  it still held, and a takeover leaves it too low by what it copies (`Broker.InfoInflightDrift`).
- An inbound PUBREL raises the send quota, and an outbound QoS 2 delivery raises a receive quota that was used up
  (`QosSpec.InboundQosTwoRoundTrip`, `QosSpec.OutboundQosTwoRoundTrip`). When writing the PUBREC fails, the publish is
  never forwarded (`QosSpec.QosTwoForwardedOnce`).
- Unsubscribing is not validated, session expiry does not unsubscribe, and a replaced connection whose handler still
  runs disturbs its successor (`SessionSpec.ShortFilterConfuses`, `SessionSpec.ExpiryLeaks`, `SessionSpec.StaleSubscribe`).
- Variable byte integers of more than four bytes are accepted, zero-padded or with bits past bit 31, which are lost:
  exactly those whose fifth byte has its low four bits clear (`Wire.AcceptedExactly`, `Wire.AcceptedValue`).
- A version 5 SUBSCRIBE that ends before an option byte is indexed past its end (`FilterPackets.RunsPastTheEnd`).

## Model

| member | source | states |
|---|---|---|
| Levels.IsolateParticle | broker/topics.go:679-698 | returns the level at any depth of a filter and whether another follows, as in the list of levels; past the end it repeats the last level |
| Levels.SplitOfJoin | broker/topics.go:679-698 | splitting the joined levels of a topic gives the levels back |
| Levels.JoinOfSplit | broker/topics.go:679-698 | joining the levels of a topic gives the topic back |
| Levels.SplitInjective | broker/topics.go:679-698 | two topics with the same levels are the same topic |
| Levels.IsolateAlongPath | broker/topics.go:479-513 | the levels that `set` and `seek` ask for one by one are the path from their depth |
| Filters.KeyOfInjective | broker/topics.go:401-448 | valid filters are filed under the same key exactly when they differ in the spelling of the share prefix at most |
| Filters.ValidFilterPath | broker/topics.go:707-745 | in a valid filter `#` stands only in the last level, and the key's path is the filter without its share prefix and group |
| Filters.ShareWordIsFolded | broker/topics.go:700-704 | a word is the share prefix exactly when it folds to `$share`, character by character |
| Filters.KeyByLevels | broker/topics.go:401-448 | told from the levels: behind a share prefix a filter is filed under its second level at the levels behind it, any other filter at its levels |
| Filters.ValidFilterExactly | broker/topics.go:707-745 | a filter can be subscribed to if and only if it is not empty, `#` is at most its last character, and behind a share prefix there are a group without wildcards and one more level |
| Filters.ValidTopicExactly | broker/topics.go:707-745 | a topic can be published to if and only if it has no wildcards, does not start with `$SYS` in any case, and behind a share prefix there are a group and one more level |
| Filters.MatchesVsStandard | broker/topics.go:593-628 | for wildcard-free topics subscription matching is section 4.7.1 of MQTT 5.0 except for exactly the filters that end in `+/#` one level below the topic |
| Filters.MatchesInlineVsStandard | broker/topics.go:607-617 | inline matching is section 4.7.1 except that a trailing `#` never reaches its parent level |
| Filters.PlainAcceptance | broker/topics.go:631-648 | a valid non-shared filter is gathered exactly when sections 4.7.1 and 4.7.2 say so, but for the `+/#` family |
| Filters.SharedAcceptance | broker/topics.go:651-665 | a valid shared filter is gathered as the standard says, but for the `+/#` family and the missing `$` exclusion |
| Filters.ScanPastEnd | broker/topics.go:530-579 | once the depth has run past the end of a filter that ends in `#`, every node below is considered |
| Filters.ScanVsStandard | broker/topics.go:530-579 | retained-message matching is section 4.7 except that `#` never returns its parent level and a leading wildcard hides only a first level of exactly `$SYS` |
| Filters.ScanLiteral | broker/topics.go:530-579 | a walk with a wildcard-free filter considers exactly that topic |
| Subscriptions.MergeFirst | broker/packets/packets.go:254-274 | merging a subscription with itself gives its QoS, NoLocal and positive identifier |
| Subscriptions.MergeNext | broker/packets/packets.go:254-274 | adding one more subscription in any order keeps maximum QoS, OR of NoLocal and exactly the positive identifiers |
| Subscriptions.MergeOfMerged | broker/packets/packets.go:254-274 | merging an already merged subscription keeps QoS and NoLocal, and all identifiers exactly when no other merged filter had a positive one |
| Subscriptions.IdentifierLost | broker/topics.go:338-347 | a concrete client with one plain and two selected shared filters loses the identifier of the second |
| Subscriptions.MergeWithItself | broker/topics.go:338-347 | a client selected through shared filters only keeps all their identifiers |
| Subscriptions.MergeBothMerges | broker/topics.go:320-347 | in any visiting order a client gets maximum QoS and OR of NoLocal of all its subscriptions; the identifiers are complete exactly when no chosen filter but the first one met has a positive one |
| Subscriptions.CompleteInEveryOrder | broker/topics.go:320-347 | whatever the visiting order, identifiers are complete if and only if only one kind matched, or one filter was chosen, or no chosen one has a positive identifier |
| Subscriptions.CompleteInSomeOrder | broker/topics.go:320-347 | some visiting order keeps them if and only if only one kind matched or at most one chosen filter has a positive identifier |
| IndexSpec.LookupAfterSubscribe | broker/topics.go:401-419 | subscribing changes what is held under its own client and key and nothing else |
| IndexSpec.LookupAfterUnsubscribe | broker/topics.go:423-448 | unsubscribing removes exactly one key of one client |
| IndexSpec.LookupIsLastWrite | broker/topics.go:401-448 | after any run of index operations the index holds, for each client and key, the last subscription written and not deleted since |
| IndexSpec.RunInvariant | broker/topics.go:401-476 | in every run nothing empty is held, and retained messages and retained paths name each other |
| IndexSpec.RunFiled | broker/topics.go:401-448 | in every run each held subscription is filed under the key of its own filter |
| IndexSpec.SharedIsFiled | broker/topics.go:401-419 | a subscription behind the share prefix in any spelling is held for its group and offered for exactly the topics that the rest of the filter matches |
| IndexSpec.SharedIsGivenUp | broker/topics.go:423-448 | it is given up with the same group and rest behind any spelling of the prefix |
| IndexSpec.PlainIsFiled | broker/topics.go:401-419 | a subscription whose first level is no share prefix is held at its levels, and gathered for every topic they match that does not exclude it |
| IndexSpec.InlineIsLastWrite | broker/topics.go:368-397 | after any run the index holds, for each filter and identifier, the last inline subscription written and not deleted since |
| IndexSpec.MatchingIsLastWritten | broker/topics.go:583-648 | after any run a client is gathered for a topic with exactly its last written, not deleted, matching, non-excluded subscriptions |
| IndexSpec.MatchingAgainstStandard | broker/topics.go:583-648 | the same for valid filters and wildcard-free topics, in terms of section 4.7 of MQTT 5.0 |
| IndexSpec.SharedIsLastWritten | broker/topics.go:651-665 | after any run a shared filter offers exactly the clients whose last written, not deleted, subscription to it matches the topic |
| IndexSpec.SharedAgainstStandard | broker/topics.go:651-665 | the same for valid filters and wildcard-free topics, in terms of section 4.7 of MQTT 5.0 with both departures |
| IndexSpec.UnsubscribeUndoesSubscribe | broker/topics.go:401-448 | unsubscribing what was not held before a subscription restores the contents, and with them the shape of the trie |
| IndexSpec.RetainedIsLast | broker/topics.go:453-476 | after any run the retained message of a topic is the last one kept, unless cleared or swept since |
| IndexSpec.SweepExactly | broker/server.go:1727-1741 | a sweep keeps exactly the messages past neither an expiry of their own, which only version 5 has, nor the broker's maximum age |
| IndexSpec.RetainedFiledStep | broker/topics.go:453-476 | every operation keeps retained messages and retained paths in agreement |
| IndexSpec.SelectedAgainstStandard | broker/topics.go:525-579 | the retained messages a valid filter selects, in terms of section 4.7 of MQTT 5.0 |
| TopicTrie.TopicsIndex.constructor | broker/topics.go:356-364 | a new index is a valid, minimal trie that holds nothing |
| TopicTrie.Particle.AddShared | broker/topics.go:122-129 | adds one member to one share group |
| TopicTrie.Particle.DeleteShared | broker/topics.go:132-139 | removes one member, and the group with its last member |
| TopicTrie.Particle.SharedLen | broker/topics.go:162-170 | returns the number of shared subscriptions of the particle: the members of all its groups, whatever the order they are visited in |
| TopicTrie.Particle.IsDeadLeaf | broker/topics.go:516-518 | the condition of `trim` holds exactly for a non-root particle that holds nothing and has no child |
| TopicTrie.TopicsIndex.Set | broker/topics.go:479-496 | finds or creates the node at the end of a path; links, paths and contents stay right and only that node may become a dead leaf |
| TopicTrie.TopicsIndex.Seek | broker/topics.go:499-513 | returns the node at the end of a path, and nothing exactly when there is none |
| TopicTrie.TopicsIndex.Trim | broker/topics.go:516-522 | terminates, drops only particles that hold nothing and have no child, adds no dead leaf, and n is none afterwards |
| TopicTrie.TopicsIndex.Subscribe | broker/topics.go:401-419 | takes the step of the flat index, is new exactly when nothing was held under the key, and adds no dead leaf, so a minimal trie stays minimal |
| TopicTrie.TopicsIndex.Unsubscribe | broker/topics.go:423-448 | takes the step of the flat index, adds no dead leaf, and returns true exactly when a node was there, held by this client or not |
| TopicTrie.TopicsIndex.InlineSubscribe | broker/topics.go:368-378 | takes the step of the flat index, is new exactly when the identifier was free at the path, and adds no dead leaf |
| TopicTrie.TopicsIndex.InlineUnsubscribe | broker/topics.go:382-397 | takes the step of the flat index, returns true exactly when the node exists, and adds no dead leaf though it trims only when no inline subscription is left |
| TopicTrie.TopicsIndex.RetainMessage | broker/topics.go:453-476 | takes the step of the flat index, returns 1, -1 or 0 as documented, keeps every node but the root and that of the empty topic held or with a child, and keeps the trie minimal unless a message is kept under the empty topic name where nothing else is |
| TopicTrie.TopicsIndex.ClearExpiredRetained | broker/server.go:1727-1741 | drops exactly the expired retained messages, in any order, and leaves the trie alone |
| TopicTrie.TopicsIndex.ShapeOf | broker/topics.go:516-522 | a trie whose only dead leaf may be the node of the empty topic has, away from that path, exactly the root and the prefixes of paths that hold something |
| TopicTrie.TopicsIndex.ShapeOfMinimal | broker/topics.go:516-522 | a minimal trie has exactly the root and the prefixes of paths that hold something |
| TopicTrie.TopicsIndex.MinimalIffInShape | broker/topics.go:516-522 | a trie that may have one dead leaf is minimal exactly when that leaf is on the way to something held |
| Gathering.ReachedByBranches | broker/topics.go:593-628 | the paths a scan reaches are the union over its branches: literal level, `+`, parent level of `#`, and `#` |
| Gathering.PlainOfTopic | broker/topics.go:631-648 | what is gathered at the reached paths is what the topic's matching non-shared filters hold |
| Gathering.SharedOfTopic | broker/topics.go:651-665 | what is gathered at the reached paths is exactly the matching (shared filter, client) pairs |
| Gathering.MergeSelected | broker/topics.go:338-347 | merging the selected subscribers gives each client maximum QoS, OR of NoLocal, and all identifiers exactly when one selected filter carries them |
| Gathering.KindsApart | broker/topics.go:631-665 | a client's gathered shared and non-shared subscriptions never have the same filter |
| Gathering.SharedCopies | broker/topics.go:656-663 | a share group gets as many copies of a message as its matching members have spellings of the share prefix, each for a member that spelled it so |
| Gathering.OneCopyExactly | broker/topics.go:656-663 | exactly one copy, as section 4.8.2 of MQTT 5.0 asks, if and only if the matching members of the group all spell the prefix alike |
| TopicScan.Subscribers.SelectShared | broker/topics.go:320-333 | chooses exactly one member of each matched shared filter, and merges the choices of a client |
| TopicScan.Subscribers.MergeSharedSelected | broker/topics.go:338-347 | adds every selected client to the subscriptions, merged with what it had |
| TopicScan.GatherSubscriptions | broker/topics.go:631-648 | adds the node's non-excluded subscriptions of every client to its merge, in any order |
| TopicScan.GatherSharedSubscriptions | broker/topics.go:651-665 | adds exactly the node's shared subscriptions, in any order |
| TopicScan.ScanSubscribers | broker/topics.go:593-628 | the recursion terminates and gathers exactly the nodes that match from its depth |
| TopicScan.SubscribersOf | broker/topics.go:583-590 | for any non-empty topic and any valid trie: each client's merge of exactly its matching non-shared subscriptions, exactly the matching (shared filter, client) pairs, and nothing for the empty topic |
| TopicScan.Recipients | broker/server.go:1011-1018 | each client appears once, with its matching non-shared subscriptions and those shared ones it was chosen for; each matching shared filter chooses exactly one of its members |
| RetainedScan.ScanMessages | broker/topics.go:530-579 | the walk terminates by the height of the trie and yields each considered node's message once |
| RetainedScan.WalkIsExact | broker/topics.go:530-579 | the walk returns each selected retained message once and nothing else, if and only if no message kept under the empty topic interferes |
| RetainedScan.Interference | broker/topics.go:453-476 | a message kept under the empty topic makes some wildcard filters miss it or return it for other nodes |
| RetainedScan.EmptyTopicIsMissed | broker/topics.go:453-476 | the smallest case: a message kept under the empty topic is missed by the filter `+` |
| RetainedScan.Messages | broker/topics.go:525-544 | returns exactly the selected retained messages, once each, if and only if no message kept under the empty topic interferes; nothing for the empty filter |
| RetainedScan.ShortcutIsExact | broker/topics.go:539-544 | without wildcards the direct lookup returns exactly what the filter selects |
| RetainedScan.ContributionsDistinct | broker/topics.go:530-579 | no topic is returned twice by a walk over distinct nodes |
| TopicAliases.InboundTopicAliases.Set | broker/topics.go:50-64 | stores a named alias, resolves an unnamed one, and does neither when aliases are off |
| TopicAliases.OutboundTopicAliases.Set | broker/topics.go:84-105 | gives a topic its alias, a new one while the maximum allows, and says whether it was known |
| TopicAliases.OutboundStaysValid | broker/topics.go:84-105 | aliases stay injective and within 1..maximum, and the cursor stays the size of the table |
| TopicAliases.AliasesRoundTrip | broker/server.go:1063-1072 | delivered in order without loss, every publish resolves to its own topic, for any topics and any maximum |
| TopicAliases.NewConnectionRoundTrip | broker/server.go:906-908 | the same from a new connection |
| TopicAliases.LossyRoundTrip | broker/server.go:1063-1090 | with losses but nothing held, over any sequence of attempts on non-empty topics and from any state of both ends: what arrives is exactly what was delivered if and only if no delivered publish is on a topic whose alias-carrying publish was lost |
| TopicAliases.NewConnectionWithLoss | broker/server.go:1063-1090 | from a new connection that holds nothing, the same in closed form: every delivered publish resolves to its own topic if and only if no dropped publish was the first on its topic, with an alias left for it, while a later one on that topic was delivered |
| TopicAliases.IntactFrom | broker/server.go:1063-1124 | the step by step condition and the closed one agree from any point of a connection's attempts on |
| TopicAliases.LostAliasResolvesToNothing | broker/server.go:1063-1072 | the smallest losing case, for any topic: the publish that carries a new alias is dropped, and the next one on the topic resolves to the empty topic |
| TopicAliases.AliasIsLastNamed | broker/topics.go:50-64 | after any peer's publishes an alias stands for the last topic named with it |
| TopicAliases.ResolvesExactly | broker/topics.go:50-64 | whatever arrives on a connection, in any order and from wherever it was sent: it resolves to the topics that are meant if and only if every publish without its topic comes after one that named its alias, and the last one that did named that topic |
| TopicAliases.SentFrom | broker/server.go:1063-1072 | what a connection makes of its publishes is told by their topics alone: the first on a topic names the next alias while there is one, later ones carry only the alias |
| TopicAliases.ArrivalRoundTrip | broker/server.go:1063-1072 | the publishes of a connection arrive in any order, some late, some never, some twice: they resolve to their own topics if and only if every arrival on a topic with an alias comes after the arrival of the publish that named it, or is that arrival |
| TopicAliases.WireIsPicked | broker/server.go:1092-1124 | over any run of publishes sent at once, held or lost, and of releases, what is written are the publishes as they were made, in their order of arrival |
| TopicAliases.HeldRoundTrip | broker/server.go:1063-1124 | over any such run, what arrives resolves to its own topics if and only if every arrival on a topic with an alias comes after the arrival of the publish that named it, or is that arrival |
| TopicAliases.HeldIsOvertaken | broker/server.go:1099-1103 | the smallest case without a loss, for any topic: the publish that names the alias is held, the next one on the topic overtakes it and resolves to the empty topic |
| PriorityMessaging.PriorityMessagingHook.OnPublish | broker/modules/routing/priority_messaging.go:152-183 | takes a publish over and puts it at the end of the queue its priority names, unless it carries the mark of a processed one; then it leaves the queues alone |
| PriorityMessaging.AcceptedByPriority | broker/modules/routing/priority_messaging.go:152-183 | a publish goes to the end of the queue that its last `priority` property names: `Urgent`, `High`, or else normal |
| PriorityMessaging.AcceptedAsNormal | broker/modules/routing/priority_messaging.go:152-183 | without such a property it goes to the end of the normal queue |
| PriorityMessaging.PriorityMessagingHook.TakeNext | broker/modules/routing/priority_messaging.go:206-225 | takes the first entry of the first non-empty queue |
| PriorityMessaging.PriorityMessagingHook.Deliver | broker/modules/routing/priority_messaging.go:206-225 | hands on the first entry of the first non-empty queue, with the mark appended to its user properties |
| PriorityMessaging.PriorityMessagingHook.Age | broker/modules/routing/priority_messaging.go:231-271 | moves exactly the starved entries of both queues to the end of the urgent queue |
| PriorityMessaging.AgeingPartitions | broker/modules/routing/priority_messaging.go:243-262 | ageing splits a queue into starved and kept entries without loss |
| PriorityMessaging.StarvedIsFront | broker/modules/routing/priority_messaging.go:243-262 | in a queue stamped in order the starved entries are its front |
| PriorityMessaging.FrontExactly | broker/modules/routing/priority_messaging.go:243-262 | every tick takes the front of a queue if and only if the queue is stamped in order |
| PriorityMessaging.DeliveredPassesThrough | broker/modules/routing/priority_messaging.go:152-183 | whatever was handed on with its mark, OnPublish lets it through and leaves the queues alone, should it come back |
| PriorityMessaging.DeliveredInArrivalOrder | broker/modules/routing/priority_messaging.go:164-271 | when the high entries are stamped in order among themselves and the normal ones too, in every run and class: delivered followed by queued is exactly what arrived, in arrival order; urgent entries and entries of different classes may be stamped in any order |
| PriorityMessaging.MonotoneClockKeepsOrder | broker/modules/routing/priority_messaging.go:164-271 | so it is under one monotone clock |
| PriorityMessaging.OrderKeptExactly | broker/modules/routing/priority_messaging.go:164-271 | for any arrivals: every run delivers every class in arrival order if and only if the high entries are stamped in order among themselves and the normal ones too |
| PriorityMessaging.ReversedClockReorders | broker/modules/routing/priority_messaging.go:243-262 | two entries stamped in reverse order are delivered in reverse by one tick |
| PriorityMessaging.NothingLostOrDuplicated | broker/modules/routing/priority_messaging.go:164-271 | in every run the multiset that arrived is what was delivered plus what is queued |
| PriorityMessaging.TakenByPriority | broker/modules/routing/priority_messaging.go:206-225 | a dequeue takes a high entry only when no urgent one waits, and a normal one only when neither does |
| PriorityMessaging.HighProgress | broker/modules/routing/priority_messaging.go:206-225 | over any run in which nothing becomes urgent, what was high is delivered first, in order, one entry for each dequeue, and till then no normal entry leaves |
| PriorityMessaging.HighDeliveredAtItsIndex | broker/modules/routing/priority_messaging.go:206-225 | in such a run an entry at index k of the high queue is delivered by exactly the (k+1)-th dequeue, after the k entries before it and nothing else |
| PriorityMessaging.TickLeavesNoneStarved | broker/modules/routing/priority_messaging.go:231-271 | a tick keeps in their queues exactly the entries short of their threshold, and makes urgent exactly those at or past it |
| PriorityMessaging.PromotedInTurn | broker/modules/routing/priority_messaging.go:243-262 | the promoted normal entries come before the promoted high ones |
| PriorityMessaging.UrgentProgress | broker/modules/routing/priority_messaging.go:206-225 | over any run, what was urgent is delivered first, in order, one entry for each dequeue |
| PriorityMessaging.UrgentDeliveredAtItsIndex | broker/modules/routing/priority_messaging.go:206-225 | an entry at index k of the urgent queue is delivered by exactly the (k+1)-th later dequeue, not before, whatever arrives or is promoted meanwhile |
| PriorityMessaging.StarvedDeliveredInTime | broker/modules/routing/priority_messaging.go:206-271 | bounded waiting: over every run an entry at or past its threshold when a tick comes is delivered within as many later dequeues as the urgent queue then holds |
| QosSpec.NextIdExists | broker/clients.go:276-301 | an id is found exactly when not all of 1..maximum are in use; it is in range and free |
| QosSpec.FreeIdWhenNotFull | broker/clients.go:276-301 | with fewer entries than ids one is free |
| QosSpec.NextIdIsFirst | broker/clients.go:276-301 | the id found is the first free one after the cursor, or else the first free one from 1 on |
| QosSpec.DeliveryAddsOneOrNothing | broker/server.go:1074-1124 | a QoS delivery adds exactly one entry at a fresh id or leaves the flight unchanged; a full queue restores map and send quota exactly |
| QosSpec.DeliveryFindsId | broker/server.go:1074-1090 | with the maximum id 65535 a delivery is refused exactly when the in-flight limit is reached, never for want of an id |
| QosSpec.DeliveryExactly | broker/server.go:1034-1124 | when a delivery is answered as skipped, over quota, held, disconnected, queued or dropped, and what each answer leaves in flight and of the send quota |
| QosSpec.ForwardedExactly | broker/server.go:859-970 | a publish is forwarded if and only if it passes topic, access, quota and id checks, the hook neither stops it nor takes it over, and, for a network client above QoS 0, its acknowledgement was written; it is retained if and only if it passes the same up to the hook, asks for it, and the broker retains |
| QosSpec.InFlightAfterPublish | broker/server.go:896-963 | what a publish leaves in flight: nothing new unless a QoS 2 handshake begins or the acknowledgement of QoS 1 was not written, and only these take receive quota |
| QosSpec.PubackExactly | broker/server.go:1171-1183 | a PUBACK frees its id and gives send quota, if the id is in use |
| QosSpec.PubrecExactly | broker/server.go:1186-1203 | a PUBREC is followed by PUBREL for codes 0x00 and 0x10; any other code ends the handshake without giving quota back |
| QosSpec.PubrelExactly | broker/server.go:1206-1235 | a PUBREL gives both quotas back for code 0x00 only, and its PUBCOMP stays in flight when it is not written |
| QosSpec.ReleaseExactly | broker/server.go:720-729 | a message goes out if and only if it is held and there is send quota, of which it takes one |
| QosSpec.ResendExactly | broker/clients.go:304-329 | resending is done with exactly the PUBACK and PUBCOMP entries that were written |
| QosSpec.ExpireExactly | broker/clients.go:342-361 | a sweep keeps exactly the entries past neither their own expiry nor the broker's maximum age |
| QosSpec.StepKeepsValid | broker/inflight.go:119-156 | every event keeps both quotas within 0..maximum and the map well filed |
| QosSpec.StepConservesInfo | broker/server.go:720-729 | every event moves Info.Inflight as the size of the map, but for a delivery rolled back on a full queue, which counts one more |
| QosSpec.PubrecSurvivesStep | broker/server.go:894-970 | no event short of an acknowledgement for p, a clear or a sweep changes an open PUBREC entry for p, forwards p, or allocates p |
| QosSpec.OpenHandshakeForwardsNothing | broker/server.go:894-970 | over every run that leaves the handshake of p open, no publish with id p is forwarded or retained and no delivery takes p |
| QosSpec.QosTwoForwardedOnce | broker/server.go:894-970 | a QoS 2 publish is forwarded exactly once per handshake, at once if its PUBREC was written and no hook took it over, never otherwise |
| QosSpec.QuotaStep | broker/inflight.go:119-130 | an event keeps missing receive quota covered by open handshakes if it is compliant, and where the cover is tight only then |
| QosSpec.ReceiveMaximumNeedsOpenHandshakes | broker/server.go:864-866 | over every compliant run a used-up receive quota means that many PUBREC and PUBREL entries are in flight |
| QosSpec.OutboundQosOneRoundTrip | broker/server.go:1171-1183 | a queued and acknowledged QoS 1 delivery leaves no trace |
| QosSpec.OutboundQosTwoRoundTrip | broker/server.go:1186-1248 | a completed QoS 2 delivery leaves no trace if and only if the receive quota was not used up |
| QosSpec.InboundQosTwoRoundTrip | broker/server.go:1206-1235 | a completed inbound QoS 2 publish restores everything but the send quota, which it raises |
| QosServer.Inflight.Set | broker/inflight.go:33-40 | adds or replaces one entry and says whether its id was free |
| QosServer.Inflight.Delete | broker/inflight.go:108-116 | removes one entry and says whether there was one |
| QosServer.Inflight.Clone | broker/inflight.go:63-71 | copies the entries and none of the quotas |
| QosServer.Inflight.NextImmediate | broker/inflight.go:95-105 | returns a held entry whose creation time, cut off to sixteen bits, is least among them, exactly when there is one |
| QosServer.Inflight.DecreaseReceiveQuota | broker/inflight.go:119-123 | takes one unless there is none |
| QosServer.Inflight.IncreaseSendQuota | broker/inflight.go:146-150 | gives one unless at the maximum |
| QosServer.Client.NextPacketID | broker/clients.go:276-301 | terminates and returns the cyclically next free id, or none, moving the cursor only to a returned id |
| QosServer.Server.ProcessPublish | broker/server.go:859-970 | the handler does to the flight and to Info.Inflight what the step says, and retains and forwards as the step says |
| QosServer.Server.ProcessPuback | broker/server.go:1171-1183 | the handler takes the PUBACK step |
| QosServer.Server.ProcessPubrec | broker/server.go:1186-1203 | the handler takes the PUBREC step |
| QosServer.Server.ProcessPubrel | broker/server.go:1206-1235 | the handler takes the PUBREL step, a failed write included |
| QosServer.Server.ProcessPubcomp | broker/server.go:1238-1248 | the handler takes the PUBCOMP step, for unknown ids too |
| QosServer.Server.ReleaseNext | broker/server.go:720-729 | with send quota left, sends and forgets the held entry of least sixteen-bit creation time exactly when there is one |
| QosServer.Server.PublishToClient | broker/server.go:1034-1124 | the delivery takes the step: quota refusal, held, disconnected, queued, or dropped and rolled back |
| QosServer.Server.ResendInflightMessages | broker/clients.go:304-329 | resends in any order until a write fails and is done with exactly the written PUBACK and PUBCOMP entries |
| QosServer.Server.ClearInflights | broker/clients.go:332-339 | deletes everything and counts it down |
| QosServer.Server.ClearExpiredInflights | broker/clients.go:342-361 | deletes exactly the expired entries and returns their ids |
| QosServer.Server.InheritInflights | broker/server.go:574-593 | the new connection gets a copy of the entries, send quota at the client's maximum and receive quota at the server's, unless the session starts clean; the old entries are deleted and counted down either way |
| Broker.StepConserves | broker/server.go:574-593 | one event moves Info.Inflight away from the number of entries by exactly a rollback, the entries a takeover copies, or the entries of a session that expires |
| Broker.TakeOverConserves | broker/server.go:574-593 | a takeover shifts Info.Inflight by the size of the copied flight |
| Broker.SuccessorExactly | broker/server.go:573-593 | after a takeover the send quota is the client's maximum and the receive quota the server's, with the old entries unless it is clean |
| Broker.RemovalConserves | broker/server.go:1707-1724 | the end of a session counts its entries down, its expiry leaves them counted |
| Broker.InfoInflightDrift | broker/server.go:720-729 | over every run of handlers, releases, clears, sweeps, takeovers, ends and expiries Info.Inflight differs from the entries in flight by exactly the rollbacks and the entries of expired sessions, less the copied entries |
| Broker.HandshakeSurvivesStep | broker/server.go:574-593 | no event of the broker short of one that ends the handshake or its session, a takeover that is not clean included, changes an open PUBREC entry, forwards its id or gives it to a delivery |
| Broker.OpenHandshakeOutlivesConnections | broker/server.go:574-593 | while a PUBREC for p is in flight at a client, no run of the whole broker forwards or retains a publish of that client with id p, or gives p to a delivery, through any number of takeovers that are not clean |
| Broker.ForwardedOnceAcrossConnections | broker/server.go:894-970 | a QoS 2 publish is forwarded exactly once per handshake however often the client reconnects and repeats it: at once if its PUBREC was written and no hook took it over, never otherwise |
| SessionSpec.ConnectAgrees | broker/server.go:563-605 | a connection leaves the index in agreement with all sessions; it starts with nothing, in the index or of its own, if it asks for a clean start or the old session was a clean one of a version before 5, and otherwise has the old session's subscriptions |
| SessionSpec.SubscribeKeeps | broker/server.go:1251-1323 | an accepted subscription keeps agreement if and only if no other filter of the session has its key |
| SessionSpec.SubscribeExactly | broker/server.go:1260-1283 | a filter is subscribed to if and only if it is valid, granted, and not both shared and asked without the client's own messages; otherwise nothing changes |
| SessionSpec.UnsubscribeKeeps | broker/server.go:1326-1367 | an unsubscription keeps agreement if and only if no other filter of the session has its key |
| SessionSpec.TeardownAgrees | broker/server.go:486-493 | the end of a connection keeps agreement, whether it ends its session or not |
| SessionSpec.TeardownExactly | broker/server.go:486-493 | a connection ends its session if and only if it was not taken over and its version is 5 with expiry interval zero, or before 5 and clean; then nothing of the client is left, otherwise nothing of it is touched |
| SessionSpec.TeardownOfTakenOver | broker/server.go:486-493 | the end of a taken over connection touches neither the index, nor Clients, nor any other connection, nor any session |
| SessionSpec.StepWellFormed | broker/server.go:563-605 | sessions in Clients are live and under their own id; every other connection is taken over or ended |
| SessionSpec.IndexFollowsSessions | broker/server.go:563-605 | over every interleaving of connects, takeovers, clean starts, subscriptions, unsubscriptions and teardowns the index holds for every client id exactly the subscriptions of the session now in Clients |
| SessionSpec.FreshIndexFollowsSessions | broker/server.go:563-605 | the same from a broker that has just started, written out for each client, filter and key |
| SessionSpec.DeliveryFollowsSessions | broker/server.go:1011-1025 | in every reachable state a message is gathered for a client id with exactly the matching non-shared subscriptions of the session now in Clients |
| SessionSpec.SharedFollowsSessions | broker/server.go:1011-1025 | in every reachable state a shared filter is offered exactly the sessions now in Clients that hold it and match |
| SessionSpec.FreshDelivery | broker/server.go:1011-1025 | from a fresh broker, over any orderly run: a message is gathered, shared or not, for exactly the sessions now in Clients whose subscriptions match |
| SessionSpec.CopyIsSession | broker/server.go:582-588 | the subscriptions carried over are exactly those of the old session, in any visiting order |
| SessionSpec.UnsubscribeAllAgrees | broker/server.go:1370-1390 | unsubscribing a client from all its filters leaves it nothing and nobody else notices |
| SessionSpec.StaleSubscribe | broker/server.go:1251-1323 | a connection that still subscribes after it was replaced breaks agreement, unless its successor holds that very subscription |
| SessionSpec.StaleUnsubscribe | broker/server.go:1326-1367 | a stale unsubscription breaks agreement exactly when the successor holds that key |
| SessionSpec.ExpiryLeaks | broker/server.go:1707-1724 | session expiry keeps agreement if and only if the expired session had no subscriptions |
| SessionSpec.ConfusedIsRespelled | broker/topics.go:401-448 | among valid filters only another spelling of the share prefix takes the same key |
| SessionSpec.ShortFilterConfuses | broker/server.go:1326-1367 | unsubscribing from the invalid filter `$share/g` takes the key of `$share/g/g` away |
| SessionServer.Server.Establish | broker/server.go:458-459 | session inheritance and registration take the step, over the heap trie, in some visiting order; a session is present exactly when there was one and neither side asked for a clean start, and only then the old subscriptions are kept |
| SessionServer.Server.RetireClean | broker/server.go:566-571 | the old session is unsubscribed before its connection is marked taken over |
| SessionServer.Server.RetireInto | broker/server.go:573-593 | the old connection is marked first, so that clearing it does not unsubscribe its successor |
| SessionServer.Server.InheritSubscriptions | broker/server.go:582-588 | files every subscription of the old session again and gives it to the new connection |
| SessionServer.Server.UnsubscribeClient | broker/server.go:1370-1390 | forgets all filters, and takes them out of the index unless the connection was taken over |
| SessionServer.Server.ProcessSubscribe | broker/server.go:1251-1323 | each filter of a packet takes its step and is answered with its reason code, in order |
| SessionServer.Server.ProcessUnsubscribe | broker/server.go:1326-1367 | each filter of a packet takes its step and is answered, in order |
| SessionServer.Server.Teardown | broker/server.go:486-493 | the end of a connection takes the step; only an expiring, not taken over session is dropped |
| SessionServer.SubackIsHonest | broker/server.go:1258-1290 | a reason code below 0x80 is answered exactly when the subscription was made, and grants the lesser of asked and maximum QoS |
| SessionServer.SubackSays | broker/server.go:1258-1290 | each reason code of a version 5 SUBACK is answered for exactly one cause: id in use, invalid filter, shared without local messages, not authorized |
| Wire.EncodeLength | broker/packets/codec.go:130-144 | the loop writes the variable byte integer |
| Wire.DecodeLength | broker/packets/codec.go:146-172 | the loop reads a length off the buffer as the specification says, overlong and truncated input included |
| Wire.LengthRoundTrip | broker/packets/codec.go:130-172 | a length survives encoding and decoding if and only if it is at most 268435455, and then takes at most four bytes |
| Wire.EncodingIsShortest | broker/packets/codec.go:130-172 | whatever is decoded, the encoder never needs more bytes for it |
| Wire.AcceptedExactly | broker/packets/codec.go:146-172 | an encoding that ends at any index is accepted if and only if it ends among the first four bytes or the low four bits of its fifth byte are clear; its value is what the first four bytes spell |
| Wire.AcceptedHasEnd | broker/packets/codec.go:146-172 | nothing without an end is accepted, so the condition above decides every byte string |
| Wire.WithinFourBytes | broker/packets/codec.go:146-172 | an accepted encoding keeps to the four bytes of section 1.5.5 of MQTT 5.0 exactly when one of its first four bytes has no continuation bit |
| Wire.AcceptedValue | broker/packets/codec.go:146-172 | the accepted value is the spelled number modulo 2^32, and equals it exactly when no set bit lies past bit 31 |
| Wire.CanonicalExactly | broker/packets/codec.go:130-172 | an accepted encoding is the one the encoder writes exactly when it takes at most four bytes and does not end in a padding zero |
| Wire.OverlongAccepted | broker/packets/codec.go:146-172 | a witness of the first departure: a zero-padded six-byte encoding of 1 is accepted |
| Wire.HighBitsLost | broker/packets/codec.go:146-172 | a witness of the second: five bytes that spell 2^32 + 1 are accepted as 1 |
| Wire.LongBytesAreLost | broker/packets/codec.go:59-104 | binary data is read back if and only if its length fits sixteen bits |
| Wire.BytesReadBack | broker/packets/codec.go:59-104 | the same anywhere in a buffer |
| Wire.StringReadsBack | broker/packets/codec.go:40-56 | a valid UTF-8 string of at most 65535 bytes is read back anywhere in a buffer |
| Wire.StringExactly | broker/packets/codec.go:40-56 | a string is accepted if and only if it is the UTF-8 encoding of some text of Unicode scalar values without the null character |
| Wire.HighByteFirst | broker/packets/codec.go:22-37 | integers are written with the high byte first |
| Wire.Uint16ReadsBack | broker/packets/codec.go:22-28 | sixteen-bit integers are read back |
| Wire.Uint32ReadsBack | broker/packets/codec.go:31-37 | thirty-two-bit integers are read back |
| FixedHeaders.HeaderRoundTrip | broker/packets/fixedheader.go:21-63 | a first byte decodes to the header it was written from if and only if the header is valid |
| FixedHeaders.FirstBytesExactly | broker/packets/fixedheader.go:27-63 | the list of the first bytes that are accepted |
| FixedHeaders.HeaderBytesAreUnique | broker/packets/fixedheader.go:27-63 | every accepted first byte is the one its header is written with |
| PropertyBlock.Decode | broker/packets/properties.go:366-481 | the loop reads a block as the specification says, reading past a malformed length included |
| PropertyBlock.AllowedExactly | broker/packets/properties.go:46-74 | the table of the source, which goes by property, is that of section 2.2.2.2 of MQTT 5.0, which goes by packet type |
| PropertyBlock.KindExactly | broker/packets/properties.go:381-478 | each property is read as the type section 2.2.2.2 gives it |
| PropertyBlock.ItemsReadBack | broker/packets/properties.go:381-478 | a list of properties allowed in the packet is read back one by one |
| PropertyWriting.Encode | broker/packets/properties.go:199-363 | writes the length and exactly the chosen properties, in the fixed order |
| PropertyWriting.WriteUser | broker/packets/properties.go:327-341 | writes all user properties in order |
| PropertyWriting.WriteIdentifiers | broker/packets/properties.go:232-239 | writes the positive subscription identifiers in order |
| PropertyWriting.PropertiesRoundTrip | broker/packets/properties.go:199-481 | for every packet type and any modifiers, a written block followed by anything is read back as its normal form and exactly its bytes are consumed |
| PropertyWriting.ArrivesExactly | broker/packets/properties.go:199-481 | exactly what a reader gets, told from the table of the standard and the receiver's wishes: which properties, identifiers and user properties arrive |
| PropertyWriting.NothingLostExactly | broker/packets/properties.go:199-481 | a block is read back as the properties it was written from if and only if each of them may stand in the packet and none is withheld |
| PropertyWriting.NothingLost | broker/packets/properties.go:199-481 | for a receiver that wants everything and sets no limit, nothing that may stand in the packet is lost |
| PropertyWriting.EveryPropertyIsWritten | broker/packets/properties.go:199-363 | every property of the standard has its place in the order of writing |
| PropertyWriting.NormalIsStable | broker/packets/properties.go:199-363 | what was read is already in normal form |
| ControlPackets.ConnectReadsBack | broker/packets/packets.go:302-441 | CONNECT is read back with nothing behind a flag that is not set |
| ControlPackets.FlagBits | broker/packets/packets.go:302-316 | the connect flags can be told apart in their byte |
| ControlPackets.ConnackReadsBack | broker/packets/packets.go:500-543 | CONNACK is read back, with properties only in version 5 |
| ControlPackets.DisconnectReadsBack | broker/packets/packets.go:546-585 | DISCONNECT is read back, and carries nothing before version 5 |
| ControlPackets.AuthReadsBack | broker/packets/packets.go:1124-1156 | AUTH is read back, with properties in any version |
| ControlPackets.PublishReadsBack | broker/packets/packets.go:610-667 | PUBLISH is read back, with an id only above QoS 0 and the payload as the rest |
| ControlPackets.AckReadsBack | broker/packets/packets.go:703-751 | PUBACK, PUBREC, PUBREL and PUBCOMP are read back, but for the reason codes that are not written |
| ControlPackets.BlockIsEmpty | broker/packets/packets.go:713-720 | a block is longer than one byte exactly when there are properties in its normal form |
| ControlPackets.SubackReadsBack | broker/packets/packets.go:846-888 | SUBACK is read back with its reason codes |
| ControlPackets.UnsubackReadsBack | broker/packets/packets.go:1003-1045 | UNSUBACK is read back, with reason codes only in version 5 |
| FilterPackets.WriteFilters | broker/packets/packets.go:902-909 | the loop writes every filter with its option byte |
| FilterPackets.ReadFilters | broker/packets/packets.go:945-978 | the loop reads filters to the end of the packet; an option byte of version 5 is indexed without a check |
| FilterPackets.RunsPastTheEnd | broker/packets/packets.go:958-960 | reading runs past the end of the buffer exactly when a version 5 packet ends right behind the name of one of its filters |
| FilterPackets.OptionReadsBack | broker/packets/packets.go:277-299 | subscription options are read back, of an earlier version only the QoS |
| FilterPackets.FiltersReadBack | broker/packets/packets.go:891-981 | a list of filters is read back filter by filter |
| FilterPackets.FiltersPacketReadsBack | broker/packets/packets.go:891-1108 | SUBSCRIBE and UNSUBSCRIBE are read back, every filter with the first identifier of the packet |
| FilterPackets.FiltersArrive | broker/packets/packets.go:891-1108 | what arrives of each filter: in version 5 all its options and the identifier of the packet, before it the QoS, of an UNSUBSCRIBE the name |
| PacketStream.PacketRoundTrip | broker/clients.go:435-523 | a well-formed packet is read back in normal form whatever follows it, and Remaining is the length of its body |
| PacketStream.SentExactly | broker/clients.go:526-606 | a packet can be sent if and only if its type is not the reserved one, it has an id where it needs one, and it fits what the receiver takes |
| PacketStream.OversizeIsRefused | broker/clients.go:435-462 | a packet over the maximum size is refused before its body is read |
| PacketStream.StreamRoundTrip | broker/clients.go:365-523 | any list of well-formed packets, encoded and concatenated, is read back as the same list in normal form |
| PacketStream.StreamsTellApart | broker/clients.go:365-523 | lists that look the same on the wire have the same normal form |
| PacketStream.AckReasonSurvives | broker/packets/packets.go:703-725 | a version 5 reason code below 0x80 is read back exactly when properties come with it |
| PacketStream.ReadPackets | broker/clients.go:365-390 | the reading loop reads a stream packet by packet in the version the CONNECT set |
| PacketStream.WritePackets | broker/clients.go:559-600 | writes encodings one after the other up to the first packet that cannot be sent |
| Layouts.FirstByte | broker/packets/fixedheader.go:21-24 | type, DUP, QoS and RETAIN stand in the first byte as section 2.1 of MQTT 5.0 says |
| Layouts.TypeNumbers | broker/packets/packets.go:19-36 | the packet types have the numbers of section 2.1.2 |
| Layouts.BodyByType | broker/clients.go:470-515 | which body belongs to which packet type, by its number |
| Layouts.Frame | broker/packets/fixedheader.go:21-24 | a packet is its first byte, the length of its body as a variable byte integer, and its body |
| Layouts.PropertiesByType | broker/packets/properties.go:199-210 | the properties of a packet are written for its own type, in version 5 only |
| Layouts.ConnectFlags | broker/packets/packets.go:302-316 | the connect flags stand at the bits section 3.1.2.3 gives them |
| Layouts.ConnectLayout | broker/packets/packets.go:302-354 | the fields of CONNECT in the order of section 3.1, strings behind two bytes of length |
| Layouts.WillLayout | broker/packets/packets.go:331-347 | properties of their own type, topic and payload of a will in the order of section 3.1.3 |
| Layouts.ConnackLayout | broker/packets/packets.go:500-520 | the fields of CONNACK in the order of section 3.2 |
| Layouts.PublishLayout | broker/packets/packets.go:610-636 | the fields of PUBLISH in the order of section 3.3, with the id only above QoS 0 |
| Layouts.AckLayout | broker/packets/packets.go:703-725 | the fields of the four acknowledgements, as far as they are needed |
| Layouts.SubscriptionOptions | broker/packets/packets.go:277-299 | subscription options stand at the bits section 3.8.3.1 gives them |
| Layouts.FiltersLayout | broker/packets/packets.go:891-920 | the fields of SUBSCRIBE and UNSUBSCRIBE in the order of sections 3.8 and 3.10 |
| Layouts.SubackLayout | broker/packets/packets.go:846-862 | the fields of SUBACK in the order of section 3.9 |
| Layouts.UnsubackLayout | broker/packets/packets.go:1003-1020 | the fields of UNSUBACK in the order of section 3.11, before version 5 the id alone |
| Layouts.DisconnectLayout | broker/packets/packets.go:546-562 | the fields of DISCONNECT, before version 5 none |
| Layouts.AuthLayout | broker/packets/packets.go:1124-1136 | the fields of AUTH |
| Layouts.ValueLayout | broker/packets/properties.go:199-363 | the value of a property on the wire, by its type |
| Layouts.ConnectArrives | broker/packets/packets.go:357-441 | what arrives of CONNECT: every field, and behind a flag that is not set nothing |
| Layouts.FieldsArrive | broker/clients.go:435-523 | what arrives of every packet type, field by field |
| Layouts.IdentifierArrives | broker/packets/packets.go:969-971 | the identifier of all filters of a packet is the first in its properties |

## Left out

- QosSpec.QuotaStep: where the cover is not tight a non-compliant event may keep it, so the converse is stated for a tight cover only; no exact balance of the send quota is stated, because a released message is deleted before its acknowledgement arrives.
- SessionSpec.IndexFollowsSessions: assumes no handler of a replaced connection runs and no session expires, which the passive-disconnect option, a packet already read, or the expiry loop can break; what each of them does to the index is stated exactly by SessionSpec.StaleSubscribe, SessionSpec.StaleUnsubscribe and SessionSpec.ExpiryLeaks.
- SessionServer.Server.Establish: joins session inheritance and Clients.Add into one step; two connections of one id that are set up at the same time are not modelled.
- TopicAliases.HeldRoundTrip: speaks of the publishes of one connection; that entries in flight keep their alias when they are resent or released on a later connection is covered by TopicAliases.ResolvesExactly, and by TopicAliases.ArrivalRoundTrip for the resent ones among themselves.
- SessionServer.Server.ProcessUnsubscribe: the session server retains no messages, so its trie is minimal; with a message kept under the empty topic name the answer for the empty filter can differ.
- Wire.DecodeLength: models the shift counter as unbounded; it would wrap after 613 million continuation bytes.
- FixedHeaders.HeaderRoundTrip: the type is four bits and the QoS two, though the source stores both in bytes.
- PropertyWriting.Encode: the conditions of each property are in one table function instead of in each branch.
- PropertyBlock.Decode: keeps properties in a table instead of the struct's fields; a received zero in a field without a presence flag stays in the table, where the struct cannot tell it from absent, and is not written again either way.
- PacketStream.PacketRoundTrip: the encoders without loops write their parts as one expression, not buffer by buffer; in-place buffer reuse is not captured.
- PacketStream.StreamRoundTrip: ends at the end of the bytes; a packet whose bytes have not all arrived is an error of the model, where a connection would wait.
- QosServer.Inflight.NextImmediate: among held entries with the same sixteen-bit creation time any one is returned, as the sort of the source is not stable.
- Validation of decoded packets (ConnectValidate, PublishValidate, ReasonCodeValid and the like): single-branch checks.
- Copies of packets and properties, which only drop fields.
- Inline subscriptions in the delivery theorem: what is gathered for them is stated, but they are not merged with clients' subscriptions.
- Hooks that select shared subscribers, modify packets or store sessions, and restoring sessions from a store.
- Info.Subscriptions, which is not conserved: Unsubscribe does not say whether the client held the filter.
- The network, TLS, listeners, deadlines, delayed wills, $SYS statistics, authentication, and configuration.
- Races between two handlers inside one method.
