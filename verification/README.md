# A verified model of the relation, event, clustering, retention and path kernels

This project models five parts of an astrophotography library manager and proves what they promise.

**Relations** (`crates/targeting/src/relations.rs`). Mosaic panels and their adjacencies form an undirected
graph, supersessions of panels form a directed multigraph. `Graphs` says what walks, reachability and cycles
are. `Lineage`, `Mosaic` and `Bridges` hold the three searches as loops over maps and queues and prove each
against walks; `Fingerprint` proves that the canonical text behind a proposal's fingerprint can be read back;
`Reviews` combines the validators as a manual review does.

**Events** (`crates/audit/src/bus.rs`, `crates/audit/src/stale_propagator.rs`). `EventBus` and
`StalePropagator` hold the two objects and their methods. `Delivery` is a transition system over their steps:
publishers write rows and broadcast envelopes in two separate steps, the pruner deletes any rows at any time,
the broadcast ring drops its oldest message, a query may fail, and the subscriber receives, lags, fetches
pages and handles rows one at a time. Its theorems hold in every reachable state; `Dispatches` says
exactly what reaches the hooks, and `Draining` lets the subscriber run on by itself.

**Framings** (`crates/sessions/src/clustering.rs`). `Framings` gives one clustering pass as functions over
values, `Clustering` gives the loops and the accumulator objects and ties them to those functions, and
`FramingLaws` and `FramingTheorems` prove what the result means. `Placements` states the rule over the sessions'
own readings, without accumulators, and proves that every pass is a run by that rule.

**Retention** (`crates/audit/src/pruner.rs`). `Calendar` proves the closed-form date conversion against
the Gregorian "next day" rule (section 5.7 and Appendix C of RFC 3339); `Cutoff` proves the text form and
what comparing such texts deletes.

**Destination paths** (`crates/patterns`, `crates/safe-filename`). `SafeFilename` is the sanitizer pipeline,
`Patterns` the two resolvers and the token scanner with their loops, `PatternLaws` and `ResolverAgreement`
how these fit together. `Spelling` says which text each piece of a pattern shows.

`Options`, `Orders`, `Decimals` and `Texts` are the supporting theory of optional values, sorting, decimal text
and splitting.

Things outside the model enter as parameters: the UUID hash, whitespace trimming, NFC, case and script tables,
the sky geometry (separation, axial distance, circular mean, tolerance), and whether a database call or a
serialisation succeeds. Laws about them are assumed only where a lemma's `requires` says so.

## What the model shows about the code

- The two bridge tests agree on exact connectivity classes. When a panel without any accepted edge is also
  listed as a component, they differ for exactly the edges that join such a panel to another listed one
  (`Bridges.BridgeTestsAgree`, `Bridges.SingletonPanelsSplitTheTests`).
- A row stamped with a fraction of a second inside the cutoff second is deleted although it is younger
  than the retention, because its text sorts below the whole second. Through the year 9999 this is the only
  case in which the comment at `crates/audit/src/pruner.rs:89-90` does not hold (`Cutoff.PruneAndFractions`).
- `days_to_ymd` follows the calendar until its 32-bit year wraps, and from that day on never
  (`Calendar.DaysToYmdIsCalendar`).
- The comment at `crates/audit/src/stale_propagator.rs:110-111` says that `replay_since` returns the incoming
  cursor on an error. It returns the last row handled before the error; the incoming cursor comes back if and
  only if the first query is the one that fails (`StalePropagator.IncomingCursorOnError`,
  `StalePropagator.CursorMovesBeforeTheError`). That no row is replayed twice depends on it
  (`Delivery.DispatchedAtMostTwice`).
- `derive_clustering` panics when two sessions share an id, and only then (`Clustering.DeriveClustering`,
  `FramingLaws.NewFramingIndexIsSafe`).
- The comment at `crates/patterns/src/resolver.rs:65` says that a resolved path never starts with a slash. That
  holds of every path resolved from a pattern string (`PatternLaws.PatternPathHasNoOuterSlash`); a path resolved
  from a part list starts with one if and only if the list does (`PatternLaws.PartsPathStartsWithSlash`).
- The two resolvers differ whenever a list has a leading, trailing or doubled slash, except when the sanitizer
  refuses one of its values or a level names a device before any is over the byte cap
  (`ResolverAgreement.ResolversAgreeExactly`).

## Model

| member | source | states |
|---|---|---|
| Lineage.ValidateAcyclicLineage | crates/targeting/src/relations.rs:283-312 | accepts a snapshot if and only if its directed multigraph has no cycle; an accepted one comes with a topological order of all its nodes, a rejected one with a concrete cycle |
| Lineage.PendingDrops | crates/targeting/src/relations.rs:297-307 | finishing a node lowers each successor's count of open predecessor edges by exactly the number of parallel edges, so no counter underflows |
| Graphs.PredecessorsGiveCycle | crates/targeting/src/relations.rs:308-311 | if every leftover node has a leftover predecessor, the leftover nodes hold a cycle |
| Graphs.TopologicalIsAcyclic | crates/targeting/src/relations.rs:308-311 | an order of all nodes in which every arc goes forward rules out cycles |
| Mosaic.ValidateMosaicConnectivity | crates/targeting/src/relations.rs:191-223 | the verdict, including which error, is the one stated with walks: two panels at least, proper edges between members, every two members joined by a walk |
| Mosaic.MosaicVerdictMeans | crates/targeting/src/relations.rs:191-223 | each verdict has its own reason: fewer than two panels, an edge that does not join two of them, two panels that no walk joins |
| Mosaic.VerdictDependsOnLinks | crates/targeting/src/relations.rs:191-223 | edge order, direction, repetition, ids and evidence never change the verdict or its error |
| Mosaic.AcceptedNeedsEdges | crates/targeting/src/relations.rs:191-223 | an accepted mosaic of n panels has at least n - 1 edges |
| Mosaic.UnionAccepted | crates/targeting/src/relations.rs:191-223 | two accepted mosaics and one proper edge between them make an accepted mosaic |
| Bridges.Reachable | crates/targeting/src/relations.rs:253-276 | found if and only if a walk of at least one edge joins the two revisions |
| Bridges.EdgeBridgesComponents | crates/targeting/src/relations.rs:227-238 | a bridge joins two distinct known endpoints that no walk joins |
| Bridges.BridgeTestsAgree | crates/targeting/src/relations.rs:227-251 | on a listing of whole connectivity classes the two bridge tests agree if and only if the edge does not join two listed panels one of which has no accepted edge |
| Bridges.BridgeTestsAgreeOnExactClasses | crates/targeting/src/relations.rs:227-251 | when the listed components are exactly the classes of the accepted edges' endpoints, the two tests agree on every edge |
| Bridges.SingletonPanelsSplitTheTests | crates/targeting/src/relations.rs:227-251 | with two listed panels and no accepted edge, the membership test sees a bridge and the edge test none |
| Bridges.NewEdgeMergesClasses | crates/targeting/src/relations.rs:253-276 | an added edge joins the classes of its endpoints and changes no other connection |
| Bridges.BridgeIffReachabilityChanges | crates/targeting/src/relations.rs:227-238 | between distinct known endpoints an edge is no bridge if and only if adding it leaves all reachability as it was |
| Bridges.NoBridgeInsideAccepted | crates/targeting/src/relations.rs:191-238 | no edge between two members bridges an accepted mosaic's own edges |
| Bridges.BridgeJoinsAccepted | crates/targeting/src/relations.rs:191-238 | an edge between two disjoint accepted mosaics is a bridge, joins them into an accepted one, and is then no bridge any more |
| Fingerprint.CanonicalIsUniquelyDecodable | crates/targeting/src/relations.rs:438-472 | two canonical texts are equal if and only if kind, scope, the id sets, the set of normalised edge records, the multiset of directed lineage pairs and both revisions are equal |
| Fingerprint.EdgePresentationDoesNotShow | crates/targeting/src/relations.rs:174-181 | flipping, repeating and reordering edges leaves the text as it is |
| Fingerprint.LineageDirectionShows | crates/targeting/src/relations.rs:1018-1031 | turning an acyclic, non-empty lineage around always changes the text |
| Fingerprint.FieldCancels | crates/targeting/src/relations.rs:515-517 | a length-prefixed field can be cut off the front of a text in one way only, whatever characters it holds |
| Fingerprint.SetCancels | crates/targeting/src/relations.rs:507-513 | so can a counted, sorted list of fields, with the whole set recovered |
| Fingerprint.FingerprintOf | crates/targeting/src/relations.rs:438-472 | the text appended step by step is the canonical text, and it is what gets hashed |
| Fingerprint.SmallCanonicalText | crates/targeting/src/relations.rs:438-472 | the text of a small basis, field by field, with every heading and the order of the parts |
| Fingerprint.TextsMean | crates/targeting/src/relations.rs:507-517 | a field is its length as a decimal numeral, a colon, the value and a semicolon; a set is its size and its fields in brackets |
| Fingerprint.SortedIdsAscend | crates/targeting/src/relations.rs:507-513 | sets are listed in ascending order, each member once |
| Fingerprint.KindNames | crates/targeting/src/relations.rs:476-487 | the name hashed for each kind |
| Fingerprint.CanonicalBuffer.PushField | crates/targeting/src/relations.rs:515-517 | appends one field and nothing else |
| Fingerprint.CanonicalBuffer.PushSortedStrings | crates/targeting/src/relations.rs:507-513 | appends the count and the members in ascending order |
| Fingerprint.CanonicalBuffer.PushTargetScope | crates/targeting/src/relations.rs:490-505 | appends the scope's name and contents |
| Reviews.ValidateCurrentPanelMembership | crates/targeting/src/relations.rs:84-103 | accepts if and only if no head is faulty, and otherwise reports the fault of the first faulty head |
| Reviews.AcceptedHeadsAreSound | crates/targeting/src/relations.rs:84-103 | accepted heads hold their representative, share no session, and none holds a session beside the one that replaced it |
| Reviews.HeadFaultMeans | crates/targeting/src/relations.rs:51-103 | each fault of a head has its own reason, and a head without one is not empty, holds its representative, shares no session with an earlier head and keeps no superseded session beside its successor |
| Reviews.ValidateReview | crates/targeting/src/relations.rs:356-410 | the review's verdict is that of the first failing rule, with connectivity and acyclicity decided by walks and cycles |
| Reviews.AcceptedReviewMeans | crates/targeting/src/relations.rs:356-410 | a review is accepted if and only if it is well formed, brings what its kind asks for, and has no cycle |
| Reviews.MalformedReviewMeans | crates/targeting/src/relations.rs:357-371 | a review that is not well formed is rejected for the first thing it misses |
| Reviews.RejectedReviewMeans | crates/targeting/src/relations.rs:372-410 | a well-formed review is rejected for a wrong shape, a bad edge or a cycle, in this order |
| Reviews.MergeReviewAccepts | crates/targeting/src/relations.rs:356-410 | merging two accepted mosaics over a bridging edge, with both as predecessors of a new one, is acceptable under every valid target scope |
| Reviews.ReviewIgnoresPresentation | crates/targeting/src/relations.rs:356-410 | except for single-edge reviews, edge and lineage order, direction of edges and repetition never change the verdict or its error |
| EventBus.EventBus.Publish | crates/audit/src/bus.rs:79-109 | the effects of a call are the row's write and then its envelope's send, in this order; a failure has no effect at all |
| EventBus.EventBus.PublishBatch | crates/audit/src/bus.rs:121-163 | reaches the state of publishing the events one by one, with all writes before all sends; a payload that cannot be serialised or a failed commit has no effect |
| EventBus.BatchIsEach | crates/audit/src/bus.rs:121-163 | all rows in one commit and then all envelopes give the rows, messages and order of one publish per event |
| EventBus.EventBus.WriteAudit | crates/audit/src/bus.rs:200-221 | the audit entry, the row and the envelope take effect in this order; the audit write alone decides the answer, and a failing event is not reported |
| EventBus.EventBus.BroadcastOnly | crates/audit/src/bus.rs:231-234 | sends a signal and leaves the table alone |
| EventBus.EventBus.Replay | crates/audit/src/bus.rs:261-286 | gives one envelope for each selected row, in id order, with the row's topic and payload and source restore, or an error if and only if one of the rows does not parse |
| EventBus.RestoredMeans | crates/audit/src/bus.rs:277-284 | the restore envelopes of rows announce exactly those that parse, one by one, with their topics, payloads and ids |
| EventBus.ParsingMeans | crates/audit/src/stale_propagator.rs:139-145 | the rows that parse are picked out in order, and no other |
| EventBus.SelectedMeans | crates/audit/src/bus.rs:261-276 | a replay selects each row above the cursor with the wanted topic, once, in id order |
| EventBus.ListSinceMeans | crates/persistence/lifecycle/src/repositories/events.rs:125-165 | the query returns exactly the rows of the topic above the cursor, ascending |
| StalePropagator.StalePropagator.Dispatch | crates/audit/src/stale_propagator.rs:54-56 | every hook is called once, in order of registration, whatever earlier hooks answered; the result is the error texts of exactly the failing hooks, in order |
| StalePropagator.RegisteredHookAnswersLast | crates/audit/src/stale_propagator.rs:46-56 | a hook registered last answers last, and the answers of all earlier hooks stay as they were |
| StalePropagator.StalePropagator.DispatchPage | crates/audit/src/stale_propagator.rs:139-150 | dispatches one restore envelope with the row's topic and payload for each row that parses, in order, and moves the cursor over all rows |
| StalePropagator.StalePropagator.ReplaySince | crates/audit/src/stale_propagator.rs:116-158 | page by page dispatches a prefix of the unpaged selection, in order, with the rows' topics and payloads; it fails if and only if one of the queries it needs fails, and otherwise the prefix is the whole selection; on an error the incoming cursor comes back if and only if the first query failed |
| StalePropagator.ReplayFailsExactly | crates/audit/src/stale_propagator.rs:120-157 | a replay needs one query for each full page and one more, and fails if and only if one of these fails |
| StalePropagator.IncomingCursorOnError | crates/audit/src/stale_propagator.rs:108-158 | on an error the incoming cursor comes back if and only if the very first query failed |
| StalePropagator.CursorMovesBeforeTheError | crates/audit/src/stale_propagator.rs:108-158 | for every page size, with a full page of rows and a second query that fails, the cursor comes back on the last row of the first page |
| StalePropagator.StalePropagator.ReplayAll | crates/audit/src/stale_propagator.rs:116-158 | without failures dispatches exactly the unpaged selection and leaves nothing above the cursor |
| StalePropagator.ListSinceResumes | crates/audit/src/stale_propagator.rs:120-157 | asking again after the first n rows gives exactly the others |
| Delivery.NothingLostBelowCursor | crates/audit/src/stale_propagator.rs:76-158 | in every reachable state each unpruned lifecycle row that parses and is not above the cursor was dispatched |
| Delivery.EveryEventAccountedFor | crates/audit/src/stale_propagator.rs:76-158 | in every reachable state each lifecycle event broadcast since the subscription was dispatched live, is yet to be reached by the receiver, or was jumped by a lag and then replayed or pruned; only an event jumped by a lag whose replay has not run to its end can lie above the cursor undelivered |
| Dispatches.LiveDispatchIsExact | crates/audit/src/stale_propagator.rs:76-104 | in every reachable state the messages dispatched live are exactly the received lifecycle ones that no lag jumped, and a lag jumps only messages the ring dropped |
| Dispatches.ReplayDispatchIsExact | crates/audit/src/stale_propagator.rs:116-158 | in every reachable state the unpruned rows dispatched by a replay are exactly the parsing lifecycle rows not above the cursor |
| Delivery.DrainedSubscriberMissesNothing | crates/audit/src/stale_propagator.rs:76-158 | a subscriber that has read everything and whose latest lag was replayed to the end has dispatched every unpruned event |
| Delivery.DrainedAloneIsNotEnough | crates/audit/src/stale_propagator.rs:92-134 | without a replay that ran to its end this fails: on a ring for one message, two events, a lag and a failing query leave a drained subscriber that missed the first event |
| Delivery.NoFailureStaysSynced | crates/audit/src/stale_propagator.rs:116-158 | without failing queries every lag is replayed to the end before receiving goes on |
| Delivery.DispatchedAtMostTwice | crates/audit/src/stale_propagator.rs:76-158 | over any run each row is replayed at most once and each message dispatched live at most once |
| Delivery.RowsPrecedeMessages | crates/audit/src/bus.rs:97-108 | in every reachable state, batches included, each message announces a row written before it, and the row, if not pruned, holds the same topic and payload |
| Delivery.StepKeepsInv | crates/audit/src/stale_propagator.rs:76-158 | every step of publishers, pruner, database and subscriber keeps the protocol invariant |
| Delivery.SubscriberNeverStuck | crates/audit/src/stale_propagator.rs:76-104 | a subscriber that has not read everything can take a step |
| Delivery.PublishIsWriteThenBroadcast | crates/audit/src/bus.rs:79-109 | the two steps of the transition system compose to the `publish` of the bus |
| Delivery.BatchIsWritesThenBroadcasts | crates/audit/src/bus.rs:121-163 | a batch is a run of the transition system: all its write steps, then all its broadcast steps, ending in the state of one publish per event |
| Draining.UninterruptedReplay | crates/audit/src/stale_propagator.rs:120-157 | in the transition system a replay without interleaved steps terminates, having dispatched the unpaged selection in order, cursor on its highest id |
| Draining.SubscriberCatchesUp | crates/audit/src/stale_propagator.rs:76-158 | from every reachable state the subscriber can catch up by its own steps, and if no query failed every broadcast lifecycle event is then dispatched or pruned |
| Draining.OwnStepIsDetermined | crates/audit/src/stale_propagator.rs:76-158 | in any state at most one of the subscriber's own steps is enabled, and none once it has read everything |
| Draining.CatchingUpIsInevitable | crates/audit/src/stale_propagator.rs:76-158 | from every reachable state all runs of own steps with successful queries go along one finite run to one state in which everything is read |
| Clustering.DeriveClustering | crates/sessions/src/clustering.rs:203-251 | panics if and only if two sessions share an id, with every index subtraction on the way checked; otherwise one assignment per session in input order, and the new framings |
| Clustering.Sift | crates/sessions/src/clustering.rs:284-364 | known members and exclusions are decided, usable geometry recorded, the rest kept as candidates |
| Clustering.Partition | crates/sessions/src/clustering.rs:351-363 | groups the sorted candidates by target and optic train, keeping their order |
| Clustering.ClusterPartition | crates/sessions/src/clustering.rs:369-455 | the loops over accumulators and the shared output vector compute the specified partition step |
| FramingLaws.NewFramingIndexIsSafe | crates/sessions/src/clustering.rs:406-434 | whatever the ids, each member joins a candidate's group or one behind all candidates, so the subtraction of the candidate count never underflows |
| Clustering.GroupAccumulator.Push | crates/sessions/src/clustering.rs:541-556 | updates ids, running sums and first field of view together |
| Framings.Nearest | crates/sessions/src/clustering.rs:469-503 | the chosen group is in tolerance and nearest, the lowest index on ties; none is chosen only if none is in tolerance |
| Placements.ChosenGoes | crates/sessions/src/clustering.rs:394-508 | the group chosen among the accumulators is the one the rule names over the sessions' own means: the nearest that fits in both tolerances, ties to the lowest index, else the first existing framing declared empty and still empty, else a new one |
| Placements.PartitionIsARun | crates/sessions/src/clustering.rs:369-455 | a pass over one partition starts from the declared members, places one session after the other by the rule, assigns each to the framing it went to, and emits the groups behind the existing framings with means computed from scratch |
| Placements.DerivationIsByTheRule | crates/sessions/src/clustering.rs:203-251 | the whole pass is such a run for each partition, one after the other, from the assignments decided beforehand |
| Placements.PartitionsInOrder | crates/sessions/src/clustering.rs:354-362 | partitions are visited in ascending order of target and optic train, each once |
| Placements.PartitionHoldsItsSessions | crates/sessions/src/clustering.rs:300-362 | the members of a partition are the undeclared sessions of its target and optic train with finite readings, in ascending order of ids |
| Placements.CandidatesAreSuggested | crates/sessions/src/clustering.rs:379-387 | the framings a partition may join are the suggested ones of its target and optic train, in the order given |
| Placements.MembersFitTheirFraming | crates/sessions/src/clustering.rs:469-503 | in each new framing every session but the first was within the pointing and the rotation tolerance of those listed before it |
| Placements.FittingMemberOpensNothing | crates/sessions/src/clustering.rs:416-426 | a session that fits some group joins one it fits and opens no new group |
| Placements.JoinedFramingIsItsOwn | crates/sessions/src/clustering.rs:379-387 | an undeclared session joins only a suggested framing of its own target and optic train |
| Placements.UnassignedForItsReason | crates/sessions/src/clustering.rs:308-343 | a session stays unassigned if and only if no framing declares it and it lacks something, and the reason is the first thing it lacks |
| Placements.GeometryIsMeasured | crates/sessions/src/clustering.rs:262-303 | the geometry a pass works with is exactly the readings of each session that has a target, an optic train and only finite readings |
| Placements.LastDeclarationWins | crates/sessions/src/clustering.rs:218-221 | a declared session joins the last framing that declares it |
| FramingTheorems.InputOrderDoesNotMatter | crates/sessions/src/clustering.rs:351-363 | permuting sessions with distinct ids changes neither the new framings nor any assignment |
| FramingTheorems.EverySessionIsResolved | crates/sessions/src/clustering.rs:239-248 | every input session has an assignment before the final lookup |
| FramingTheorems.NewFramingListsItsSessions | crates/sessions/src/clustering.rs:379-454 | a session is assigned to new framing i if and only if framing i lists it, and target and optic train are then its own |
| FramingTheorems.NewFramingsAreInhabited | crates/sessions/src/clustering.rs:436-454 | no new framing is empty, and all list input sessions only |
| FramingTheorems.UserAdjustedMembershipIsKept | crates/sessions/src/clustering.rs:203-251 | the input sessions joined to a user-adjusted framing are exactly those its membership claims, given distinct framing ids and disjoint memberships |
| FramingTheorems.DerivingAgainMovesNothing | crates/sessions/src/clustering.rs:208-222 | once every session is a declared member of some framing, a pass opens no new framing and joins each session to a framing that declares it |
| FramingTheorems.RepresentativesAreExact | crates/sessions/src/clustering.rs:541-580 | every emitted representative equals the batch computation over the framing's own sessions |
| Calendar.CivilStep | crates/audit/src/pruner.rs:116-136 | the closed form gives a valid date and moves to the calendar's next day |
| Calendar.CivilCounts | crates/audit/src/pruner.rs:116-136 | for every day count the closed form is that many calendar days after 1970-01-01 |
| Calendar.DaysToYmdIsCalendar | crates/audit/src/pruner.rs:116-136 | the conversion is right if and only if the year fits 32 bits |
| Calendar.WideYearWraps | crates/audit/src/pruner.rs:133-135 | on the first day whose year needs 33 bits the result is January 1st of the year 0 |
| Calendar.DaysToYmdRoundTrip | crates/audit/src/pruner.rs:116-136 | while the year fits 32 bits the date is valid and counting its days gives the input back |
| Calendar.DayNumberRoundTrip | crates/audit/src/pruner.rs:116-136 | every valid date from 1970 on whose year fits 32 bits is reached from its day number |
| Calendar.DaysToYmdIncreases | crates/audit/src/pruner.rs:116-136 | while the year fits 32 bits, earlier days have earlier dates, and conversely |
| Cutoff.InstantTextLength | crates/audit/src/pruner.rs:99-110 | until the year wraps at 32 bits, the text has 20 characters if and only if the instant lies before the year 10000 |
| Cutoff.InstantTextShape | crates/audit/src/pruner.rs:109-110 | through the year 9999 the dashes, the T, the colons and the Z stand where section 5.6 of RFC 3339 puts them |
| Cutoff.InstantTextRoundTrip | crates/audit/src/pruner.rs:99-110 | through the year 9999, reading the text gives the same second |
| Cutoff.TextOrderIsTimeOrder | crates/audit/src/pruner.rs:88-110 | through the year 9999 the order of the texts is the order of the instants |
| Cutoff.PruneDeletesOldRows | crates/audit/src/pruner.rs:46-52 | comparing texts deletes a whole-second row if and only if it is older than the retention |
| Cutoff.PruneAndFractions | crates/audit/src/pruner.rs:88-97 | a row with a fractional second is judged by its age if and only if it was not emitted in the cutoff second |
| Cutoff.HalfSecondYoungRowIsDeleted | crates/audit/src/pruner.rs:88-97 | a row emitted half a second after the cutoff is deleted |
| SafeFilename.SanitizedIsOneSegment | crates/safe-filename/src/lib.rs:213-228 | a sanitized value is a non-empty trimmed segment without reserved characters, no traversal, no device name, not confusable |
| SafeFilename.SanitizeMeans | crates/safe-filename/src/lib.rs:213-228 | the answer case by case: traversal, nothing left, device name before the first dot, mixed scripts, else the cleaned value |
| SafeFilename.SanitizedNamesNoDevice | crates/safe-filename/src/lib.rs:159-166 | what stands before the first dot of a sanitized value is no device name in any case |
| SafeFilename.DeviceNamesAreRefused | crates/safe-filename/src/lib.rs:159-166 | a clean ASCII value with a device name before its first dot is refused |
| SafeFilename.NamesDeviceMeans | crates/safe-filename/src/lib.rs:160-164 | the reserved-name test looks at exactly what stands before the first dot |
| SafeFilename.StripDrops | crates/safe-filename/src/lib.rs:94-97 | step 1 drops the disallowed characters and keeps all others in order |
| SafeFilename.SubstituteReservedMeans | crates/safe-filename/src/lib.rs:116-122 | step 2 puts an underscore for each reserved character, cuts off dots and whitespace at both ends, and changes nothing else |
| SafeFilename.SubstituteReservedIdempotent | crates/safe-filename/src/lib.rs:116-122 | step 2 is idempotent |
| SafeFilename.AsciiResultIsFixed | crates/safe-filename/src/lib.rs:213-228 | sanitizing an ASCII result again changes nothing |
| Patterns.ResolveOneToken | crates/patterns/src/resolver.rs:341-373 | value or fallback, the errors, and the token reported missing exactly once |
| Patterns.ResolveSegment | crates/patterns/src/resolver.rs:292-337 | the loop yields the segment's text or first error, the missing tokens and the lookups in order |
| Patterns.CheckAssembledPath | crates/patterns/src/resolver.rs:258-285 | reports the fault of the first faulty level, else the total length |
| Patterns.ResolvePatternStr | crates/patterns/src/resolver.rs:220-247 | the loop over levels skips empty ones and stops at the first error |
| Patterns.Resolve | crates/patterns/src/resolver.rs:118-162 | the loop over parts stops at the first error |
| Spelling.PatternPathIsSpelled | crates/patterns/src/resolver.rs:220-373 | a path from a pattern string is, level by level, the sanitized literals and token values of its segment, a token showing its fallback when nothing of its value is left; an error comes from a blank pattern, the first piece that fails, or the check of the path so spelled |
| Spelling.PartsPathIsSpelled | crates/patterns/src/resolver.rs:118-162 | a path from a part list is its separators and the shown texts of its tokens, one after the other; an error comes from an empty list, a part that is not allowed, the first token that fails, or the check of the path |
| Spelling.SegmentSpells | crates/patterns/src/resolver.rs:292-337 | a segment is cut into literals and tokens, a stray or unterminated brace being literal text, and its walk is the texts they show or the first failure |
| Spelling.LexingIsUnique | crates/patterns/src/resolver.rs:301-333 | a text can be cut into pieces in one way only |
| Spelling.PartsFaultMeans | crates/patterns/src/validator.rs:82-117 | the part list is refused up front if and only if a part is no registered token and none of the four separators, with the error of the first such part |
| Spelling.WarningsMean | crates/patterns/src/validator.rs:119-149 | each warning is given for its own reason |
| Spelling.AbsentShowsFallback | crates/patterns/src/resolver.rs:351-360 | with the shipped registry a token without a value shows as its fallback, as it stands |
| Patterns.ScanTokens | crates/patterns/src/per_type.rs:216-230 | collects the names between braces in order |
| Patterns.ValidatePatternStr | crates/patterns/src/per_type.rs:175-185 | rejects blank patterns and reports the first unregistered token |
| PatternLaws.PatternFaultMeans | crates/patterns/src/per_type.rs:175-185 | a pattern is rejected if and only if it is whitespace only or scans to an unregistered token, the first of which is reported |
| PatternLaws.ScanBySegments | crates/patterns/src/per_type.rs:216-230 | when no scanned token holds a slash, scanning whole is scanning level by level |
| PatternLaws.ValidatedPatternsResolveKnownTokens | crates/patterns/src/resolver.rs:220-337 | a validated pattern looks its tokens up as a prefix of the validator's scan, all of it on success, so an unknown token never arises |
| PatternLaws.ResolvedLevelsAreSafe | crates/patterns/src/resolver.rs:220-285 | a resolved path has one level per non-empty segment, each safe and within the caps |
| PatternLaws.SamePathSameLevels | crates/patterns/src/resolver.rs:849-863 | two bundles that resolve one pattern to the same path resolve each of its levels to the same text, so no value can imitate another level |
| PatternLaws.PatternPathHasNoOuterSlash | crates/patterns/src/resolver.rs:195-197 | a path resolved from a pattern string neither starts nor ends with a slash |
| PatternLaws.PartsPathStartsWithSlash | crates/patterns/src/resolver.rs:65 | a path resolved from parts starts with a slash if and only if the first part is one |
| PatternLaws.PatternMissingTokens | crates/patterns/src/resolver.rs:204-205 | the missing tokens of a validated pattern are exactly its tokens, in order, whose value is absent, empty or sanitized away |
| PatternLaws.PartsMissingTokens | crates/patterns/src/resolver.rs:118-162 | the missing tokens of a part list are exactly its tokens, in order, whose value is absent, empty or sanitized away |
| PatternLaws.AssembledPathNeverTraverses | crates/patterns/src/resolver.rs:258-270 | the traversal branch is unreachable from the pattern-string resolver |
| PatternLaws.AssembledPathAccepted | crates/patterns/src/resolver.rs:258-285 | the check passes if and only if every level is no traversal, no device name and within the byte cap, and the path within the character cap |
| PatternLaws.AssembledFaultMeans | crates/patterns/src/resolver.rs:258-285 | the fault reported is that of the first refused level, and the total length only when no level is refused |
| PatternLaws.ResolvedLevelsNameNoDevice | crates/patterns/src/resolver.rs:258-285 | no level of a path that either resolver lets through has a device name before its first dot |
| Texts.Utf8LengthCounts | crates/patterns/src/resolver.rs:266-272 | the byte length of a level counts the UTF-8 bytes of its characters |
| ResolverAgreement.ResolversAgree | crates/patterns/src/resolver.rs:118-337 | on tokens and slash, dash and underscore separators without an empty level both resolvers give the same path and missing tokens, or the same error |
| ResolverAgreement.ResolversAgreeExactly | crates/patterns/src/resolver.rs:118-337 | for all lists of tokens and slash, dash and underscore separators: the resolvers agree if and only if the list is empty, or has no leading, trailing or doubled slash, or one of its token values is refused by the sanitizer, or one of the levels it spells names a device with no level over the byte cap before it |
| ResolverAgreement.LoneSlashSplitsTheResolvers | crates/patterns/src/resolver.rs:756-763 | a lone slash resolves to `/` as a part and to the empty path as a pattern string |
| ResolverAgreement.ShippedRegistryIsLawful | crates/patterns/src/registry.rs:73-132 | the shipped names and fallbacks meet what the pattern laws ask |
| ResolverAgreement.EffectivePatternResolves | crates/patterns/src/per_type.rs:193-198 | whatever override is stored, the pattern in effect validates and resolving it never meets an unknown token |
| ResolverAgreement.EffectivePatternIsTheOverride | crates/patterns/src/per_type.rs:193-198 | a stored override is in effect if and only if it validates |

## Left out

- Strings in `relations.rs` are byte sequences here: one character stands for one UTF-8 byte, so lengths and order are those of the source. Elsewhere a character is a code point.
- UUIDv5 is a function parameter; nothing is claimed about collisions of the hash.
- `RelationProposal`, `RememberedRejections`, the singleton panel group, the blank checks of `MosaicEdge::new` and object coverage: single-branch checks.
- `HashMap`/`HashSet` iteration order is arbitrary in the model; `BTreeSet`/`BTreeMap` iteration and the library sorts are functions that list or sort.
- Floats are reals with one extra reading for non-finite input; rounding, and the trigonometry of separations and means, are not modelled. Session ids are integers in the order of their UUIDs.
- Rows carry id, topic and payload; the source and `emitted_at` columns, SQL and transactions inside SQLite are not modelled. A failing insert inside a batch is a failing commit.
- The table of `Delivery` starts with any history; ids are never reused, as AUTOINCREMENT has it. A closed channel, and the rounding of the ring's capacity to a power of two, are not modelled.
- StalePropagator.StalePropagator.ReplaySince: the table does not change while the method runs; `Delivery` has the interleavings of inserts and prunes between its pages and rows.
- The receive loop of `StalePropagator::spawn` never ends, so it is the `Receive` and `DetectLag` steps of `Delivery` and not a method. Hooks are functions from an envelope to an optional error; what they write is not modelled.
- Cutoff.TextOrderIsTimeOrder: whole-second texts only, through the year 9999; for longer years the text has another length.
- Calendar.DaysToYmdIsCalendar: the sum `days + 719468` is not wrapped at 64 bits, because the caller divides a 64-bit second count by 86400.
- The pruner's daily timer and the clock: the current second is a parameter.
- ResolverAgreement.ResolversAgree: excludes the space separator, because a level that is a lone space is an error for the pattern string and text for the part list; the warnings of the part-list validator are not compared.
- SafeFilename.AsciiResultIsFixed: states idempotence for ASCII results only, because stripping comes after NFC and may leave text that NFC would change again.
- NFC, case mapping and the script test of the sanitizer are parameters; what they do on ASCII text is assumed where `AsciiLaws` is required.
- Token names in pattern laws are assumed to hold no braces or slashes, and fallbacks to be trimmed; the shipped registry is shown to comply.
- The conversion of database rows to sessions and framings, event payload types, frame-type tables, the log forwarder and the desktop front end.
