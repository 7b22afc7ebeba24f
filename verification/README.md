# Formal model of a Kafka-compatible in-memory broker

The broker keeps consumer groups, partition logs and a schema registry in memory, speaks the Kafka
wire format to producers and consumers, and promises them what Kafka promises. This project models
the parts where those promises are decided and proves them for every input and every run:

* **Consumer groups** (`GroupModel`, `ProtocolChoice`, `GroupInvariant`, `GroupDeadlines`,
  `GroupStanding`, `GroupRuns`, `GroupMembership`, `GroupHistory`, `GroupReplies`, `GroupSilence`,
  `GroupSaturation`, `GroupContracts`, `GroupFields`, `GroupRules`, `GroupAnswers`; in place:
  `ProtocolElection`, `GroupCoordinator`).
  A group is a value and every block that holds its lock is one function on it: submitting a join,
  polling it, a sync pass, heartbeat, leave, commit, describe, the deadline driver. A blocking join
  is a submit followed by polls. A run is any interleaving of these with a clock that does not go
  back. The joint invariant `Sound` is kept by every step, and the theorems about replies,
  assignments, offsets, timers and the driver are about whole runs. What every event answers, and
  what it leaves every field of a group and of a member, is also said outright, of the group it
  finds and of the request, as one rule each. The class `Group` updates its fields as the
  coordinator does and is proved equal to the functions, step by step.
* **Record batches** (`Octets`, `Varints`, `RecordFormat`, `RecordRoundTrip`, `RecordLayout`; in
  place: `RecordBuffers`): version 2 of the format (Record Batch and Record, sections 5.3.1 and
  5.3.2 of the Apache Kafka documentation), encoder and decoder, with the wrapping of 32- and
  64-bit numbers, and the position of every field.
* **Partition logs** (`PartitionModel`, `PartitionSafety`, `PartitionRuns`, `PartitionRetries`,
  `PartitionContracts`, `PartitionFetch`; in place: `PartitionLog`): validation, offset assignment,
  sequences modulo 2^31, the five-entry retry window, fetching.
* **From producer to consumer** (`ProduceFetch`): encoder, append, fetch and decoder composed.
* **Readers** (`FetchBudget`, `FetchContracts`, `TopicPages`): the byte budget of a fetch over many
  partitions, and cursor pagination of the topic listing.
* **Schema registry** (`SchemaModel`; in place: `SchemaRegistry`).

Where code works by changing things step by step, a class or a loop follows it, and its contract
equates the result with a function; what that function promises is proved as lemmas.

## Conventions

* The counters add with saturation. What needs no bound on them is proved without one
  (`Standing`, `ReachableStands`). Where a bound is needed, a run is counted up to a point if it has
  completed no rebalance at the maximal generation by then, and a generation is settled if it is
  below the maximum or the run is counted. `OnlyGenerationRunsOut` shows that the epoch cannot run
  out first, `SaturatedGroupNeverEmpties` is a run beyond the bound that breaks a promise, and
  `CompletionAwaitsAll` says exactly when a completion keeps it.
* A silent continuation of a run consists of driver firings, polls, and later rounds of syncs that
  an earlier event left waiting.
* `Externals` holds what comes from elsewhere as arbitrary functions: the CRC-32C of bytes, the
  validity of UTF-8, and decompression.
* `mayAdd` stands for the outcome of the member-id handshake that precedes a join.
* An encoder never writes the log-append time stamp, so a list that carries one comes back as
  Creation-stamped: `EncodedListRoundTrips` states exactly when the round trip is the identity.
* Fetched bytes need not pass validation as one record set: validation wants one producer, and a
  log may hold several. `FetchedRevalidates` is the exact condition, `MixedProducersAreRefused` a
  run that shows it, and `FetchedSplits` what holds always.
* No result of a registration stands for the panic on exhausted ids.

## Model

| member | source | states |
|---|---|---|
| `ProtocolChoice.SelectSucceedsIffShared` | src/broker/groups.rs:1015-1056 | a protocol is selected if and only if there are members and they share one; the choice is elected (most first-common votes, ties to the smallest name) and common to all |
| `ProtocolChoice.SelectIsTheElected` | src/broker/groups.rs:1037-1056 | whatever is elected is what is selected, so the order in which the map yields members cannot matter |
| `ProtocolChoice.SelectSurvivesRemoval` | src/broker/groups.rs:1015-1056 | removing any members short of all of them keeps selection successful |
| `ProtocolChoice.ListIsComplete` | src/broker/groups.rs:1058-1075 | under a common protocol the leader's list drops nobody and carries each member's metadata for that protocol |
| `Text.LeIsLexicographic` | src/broker/groups.rs:927-949 | ids compare by the first character that differs, a prefix first |
| `Text.SortIds` | src/broker/groups.rs:1058-1075 | sorting the member ids yields the strictly sorted listing of exactly those ids |
| `ProtocolElection.CountVotes` | src/broker/groups.rs:1015-1045 | the counting loop fails exactly when some member has no common protocol, and otherwise counts every name's voters |
| `ProtocolElection.MostVoted` | src/broker/groups.rs:1047-1055 | the maximum over the counted votes, ties to the smaller name, is the elected protocol in whatever order the votes are visited |
| `ProtocolElection.ChooseProtocol` | src/broker/groups.rs:1015-1056 | the whole loop computes the selection of the specification, failure included |
| `GroupInvariant.RemovalIsSound` | src/broker/groups.rs:927-949 | removing any non-empty set of members and transitioning keeps the joint group invariant, unless it saturates a counter |
| `GroupInvariant.ExpiryIsSound` | src/broker/groups.rs:876-925 | the expiry sweep keeps the joint group invariant, unless it saturates a counter |
| `GroupInvariant.CompletionIsSound` | src/broker/groups.rs:791-857 | completing a rebalance keeps the joint group invariant, unless it saturates a counter |
| `GroupInvariant.EnrollIsSound` | src/broker/groups.rs:342-377 | enrolling a joining member that leaves a shared protocol keeps the joint group invariant, unless it saturates a counter |
| `GroupInvariant.SubmitJoinIsSound` | src/broker/groups.rs:296-388 | submitting any join keeps the joint group invariant and never lowers a counter, unless it saturates a counter |
| `GroupInvariant.PollJoinIsSound` | src/broker/groups.rs:396-421 | a poll of a blocked join keeps the joint group invariant and never lowers a counter, unless it saturates a counter |
| `GroupInvariant.LeaderSyncIsSound` | src/broker/groups.rs:482-528 | the leader's sync, accepted or refused, keeps the joint group invariant |
| `GroupInvariant.SyncIsSound` | src/broker/groups.rs:445-538 | every sync pass keeps the joint group invariant and never lowers a counter, unless it saturates a counter |
| `GroupInvariant.HeartbeatIsSound` | src/broker/groups.rs:549-581 | a heartbeat keeps the joint group invariant, unless it saturates a counter |
| `GroupInvariant.LeaveIsSound` | src/broker/groups.rs:583-604 | a leave keeps the joint group invariant, unless it saturates a counter |
| `GroupInvariant.CommitIsSound` | src/broker/groups.rs:606-633 | an offset commit keeps the joint group invariant, unless it saturates a counter |
| `GroupInvariant.DriverIsSound` | src/broker/groups.rs:733-757 | the driver body keeps the joint group invariant, unless it saturates a counter |
| `GroupDeadlines.TimerAgreesWithSweep` | src/broker/groups.rs:981-1013 | for every group, instant and exempt member the sweep removes somebody if and only if the timer is set and due |
| `GroupDeadlines.SubmitJoinIsHeard` | src/broker/groups.rs:296-388 | a join wakes the waiters, or leaves the timer no earlier and nothing newly ready to complete |
| `GroupDeadlines.SyncIsHeard` | src/broker/groups.rs:445-538 | the same for every sync pass |
| `GroupDeadlines.HeartbeatIsHeard` | src/broker/groups.rs:549-581 | the same for a heartbeat |
| `GroupDeadlines.CommitIsHeard` | src/broker/groups.rs:606-633 | the same for a commit |
| `GroupDeadlines.RemainingStepsAreHeard` | src/broker/groups.rs:876-949 | the same for polls, leaves, sweeps and the driver |
| `GroupDeadlines.WaitingJoinHasTimer` | src/broker/groups.rs:396-428 | a join that waits waits for somebody else, in a preparing group whose timer is set |
| `GroupDeadlines.WaitingSyncHasTimer` | src/broker/groups.rs:530-546 | a sync that waits is a follower's, the leader has not synced, and the timer is set |
| `GroupStanding.CompletionStands` | src/broker/groups.rs:791-857 | completing keeps membership, timers, heartbeats, assignments and cached join replies sound, whatever the counters |
| `GroupStanding.SubmitStands` | src/broker/groups.rs:296-388 | so does every join |
| `GroupStanding.SyncStands` | src/broker/groups.rs:445-538 | so does every sync pass |
| `GroupStanding.LeaveStands` | src/broker/groups.rs:583-604 | so does every leave |
| `GroupStanding.StandingCompletes` | src/broker/groups.rs:791-802 | with membership sound, completing cannot fail and leaves nothing ready |
| `GroupRuns.ReachableStands` | src/broker/groups.rs:254-757 | at every point of every run, with no bound on the counters, membership, timers and heartbeats are sound, assignments are empty outside a stable group and keyed by its members in one, everybody in a completing or stable group holds its join reply, and a stable group's leader has synced |
| `GroupRuns.OnlyGenerationRunsOut` | src/broker/groups.rs:777-805 | in a counted run the epoch is at most twice the generation plus one, so the generation is the only counter that can run out |
| `GroupRuns.BelowMaxNeverSaturates` | src/broker/groups.rs:803-805 | a run whose generation is below its maximum is counted |
| `GroupRuns.ReachableIsSound` | src/broker/groups.rs:254-757 | every state of every counted run, with any interleaving of joins, polls, syncs, heartbeats, leaves, commits, describes and driver firings, satisfies the joint invariant |
| `GroupRuns.CompletionNeverFailsInRuns` | src/broker/groups.rs:356-421 | in no run does completing fail: a refused join leaves the group as it was or as its sweep leaves it, no poll or leave reports an inconsistent protocol, and a firing leaves nothing ready |
| `GroupRuns.FailedJoinChangesNothing` | src/broker/groups.rs:296-368 | a join that is refused changes nothing beyond the expiry sweep |
| `GroupRuns.PollNeverInconsistent` | src/broker/groups.rs:396-421 | a poll never reports an inconsistent protocol |
| `GroupRuns.LeaveNeverInconsistent` | src/broker/groups.rs:583-604 | a leave succeeds or names an unknown member, nothing else |
| `GroupRuns.DriverNeverOversleeps` | src/broker/groups.rs:733-757 | at any later point of any run the sleeping driver has been notified, or the timer it sleeps on is early enough and nothing is ready to complete |
| `GroupMembership.MembershipIsTraced` | src/broker/groups.rs:876-949 | in every run a member goes only by its own leave or because it is overdue, and comes only by its own join with an id it may use |
| `GroupMembership.RepliesTakeEffect` | src/broker/groups.rs:254-604 | an accepted leave removes the member, a join that is not refused enrols it, an accepted heartbeat counts from its instant |
| `GroupMembership.HeartbeatKeepsMember` | src/broker/groups.rs:549-581 | after an accepted heartbeat a synced member of a group that stays stable is not overdue before its session timeout has passed |
| `GroupMembership.StableUnlessProvoked` | src/broker/groups.rs:876-925 | a step that is neither join nor leave, with nobody overdue, leaves a stable group's members, leader, counters and assignments alone |
| `GroupMembership.HealthyGroupStays` | src/broker/groups.rs:733-757 | a stable group without joins, leaves and overdue members stays as it is over any run |
| `GroupSilence.CompletionAwaitsAll` | src/broker/groups.rs:791-837 | completing a ready group leaves every member awaited if and only if nobody has already synced in the generation it completes to |
| `GroupSilence.ReadyFiring` | src/broker/groups.rs:733-757 | the same for a firing of the driver |
| `GroupSilence.RoundWindsDown` | src/broker/groups.rs:396-413 | a sweep and completion, with or without an exempt member, never raises the number of firings left, and the driver's, if due or ready, lowers it |
| `GroupSilence.SyncWindsDown` | src/broker/groups.rs:445-538 | neither does a later round of a blocked sync |
| `GroupSilence.WaiterStaysRecorded` | src/broker/groups.rs:530-534 | a blocked sync stays recorded for as long as its generation completes |
| `GroupSilence.SilenceEmptiesTheGroup` | src/broker/groups.rs:733-757 | from any reachable state below the maximal generation: once there are only driver firings and rounds of joins and syncs already blocked, in any order, two due or ready firings leave the group empty |
| `GroupSilence.SilentGroupIsDriven` | src/broker/groups.rs:733-757 | until then the driver always has a timer or a rebalance that is ready |
| `GroupSaturation.ReachGeneration` | src/broker/groups.rs:803-805 | every generation up to the maximum is reached by a run |
| `GroupSaturation.SaturatedGroupNeverEmpties` | src/broker/groups.rs:803-805 | a run to a group at the maximal generation that has a member, no timer, and is left alone by every later firing: the bound on the generation is needed |
| `GroupHistory.StepTraced` | src/broker/groups.rs:777-867 | every step moves epoch and generation by the discipline and caches only the join results of a completion that counts up, unless it saturates a counter |
| `GroupHistory.StepKeepsCaches` | src/broker/groups.rs:777-867 | whatever the counters, a step caches only the join results of a completion it makes |
| `GroupHistory.RepliesAreCached` | src/broker/groups.rs:314-345 | a joined reply is always the one the member's cache then holds |
| `GroupReplies.CompletionsAdvance` | src/broker/groups.rs:777-805 | in every run two completions that count up have strictly increasing epochs and generations, so each epoch completes at most once |
| `GroupReplies.JoinedReplyIsOwn` | src/broker/groups.rs:816-836 | in every run a joined reply names its own member, and only the leader's lists members |
| `GroupReplies.JoinedRepliesAgree` | src/broker/groups.rs:314-345 | any two joined replies of the same settled generation, fresh or cached, agree on leader, protocol and type |
| `GroupReplies.LeaderIsToldTheMembers` | src/broker/groups.rs:809-837 | in every run the leader's reply lists exactly the members at the completion it comes from, in sorted order |
| `GroupReplies.LeaderListIsTheCohort` | src/broker/groups.rs:1058-1075 | while a generation is completing or stable the list its leader was given is still the sorted membership, whatever the counters |
| `GroupReplies.ListedAssignmentIsAccepted` | src/broker/groups.rs:482-496 | in a settled generation a leader that assigns each listed id exactly once is never told that its assignment is invalid |
| `GroupReplies.RejectedIffUncovered` | src/broker/groups.rs:450-496 | an assignment is called invalid exactly when the leader of the completing generation, with nobody due, gives one that does not cover the members, and then nothing but the leader's heartbeat changes |
| `GroupReplies.OneAssignmentPerGeneration` | src/broker/groups.rs:497-528 | a settled generation is stabilized by one sync only |
| `GroupReplies.OnlyLeaderStabilizes` | src/broker/groups.rs:482-528 | no step but the leader's sync of the current generation makes a completing group stable, and it installs exactly its assignments |
| `GroupReplies.SyncReturnsTheLeadersBytes` | src/broker/groups.rs:445-538 | in every run every successful sync returns exactly the bytes that a sync of the leader, which made that generation stable, gave that member |
| `GroupReplies.OffsetsAreLastAccepted` | src/broker/groups.rs:606-633 | over any run a stored offset is that of the last accepted commit for its key |
| `GroupReplies.OnlyCommitsStore` | src/broker/groups.rs:606-633 | no step but an accepted commit alters stored offsets |
| `GroupReplies.AcceptedCommitIsCurrent` | src/broker/groups.rs:1077-1089 | an accepted commit comes from a member of the then current stable generation and changes offsets only |
| `GroupReplies.WaiterStaysJoined` | src/broker/groups.rs:370-388 | the member of a blocked join stays joined to its target epoch as long as the group has that epoch |
| `GroupReplies.BlockedJoinHasTimer` | src/broker/groups.rs:396-428 | in every run a join that keeps waiting waits for another member and has a timer set |
| `GroupReplies.BlockedSyncHasTimer` | src/broker/groups.rs:530-546 | a sync that keeps waiting in a settled generation waits for the leader and has a timer set |
| `GroupReplies.BlockedJoinIsAnswered` | src/broker/groups.rs:396-428 | in every run the round that a blocked join's timer wakes has joined if member and epoch are still there, and is refused otherwise |
| `GroupReplies.BlockedSyncIsAnswered` | src/broker/groups.rs:445-480 | in every run the round that a blocked sync's timer wakes is answered with an error |
| `GroupContracts.SweepIsExact` | src/broker/groups.rs:876-949 | a sweep removes exactly the late: those that missed the rebalance deadline they are awaited by, and in a stable group those whose session has run out; the rest are untouched, and the group is empty or prepares if anybody was late |
| `GroupContracts.HeartbeatIsExact` | src/broker/groups.rs:549-581 | in every run a heartbeat is answered by the group it finds: unknown member, wrong generation, rebalance in progress and accepted, each if and only if |
| `GroupContracts.LeaveIsExact` | src/broker/groups.rs:583-604 | in every run a leave succeeds exactly for a member that is not late, and leaves exactly the others that are not late |
| `GroupContracts.CommitIsExact` | src/broker/groups.rs:606-633 | in every run a commit is answered by the group it finds: the four outcomes, each if and only if |
| `GroupContracts.CoverNamesEachOnce` | src/broker/groups.rs:482-496 | the count and containment test for assignments holds exactly if they name every member once and nobody else |
| `GroupContracts.SyncIsExact` | src/broker/groups.rs:445-538 | in every run a round of sync is answered by the group it finds and the request: the member's assignment in a stable group, the leader's own entry of a complete assignment, waiting for a follower, and each error in its own case |
| `GroupFields.MemberFieldsAreExact` | src/broker/groups.rs:296-581 | in every run, after every event: a joiner has exactly the request's client, timeouts and protocols and the instant as heartbeat; any other member's heartbeat, sync and joined epoch change by its own requests, or by the leader's sync if it has synced, and by nothing else |
| `GroupFields.MembersRecordTheirJoin` | src/broker/groups.rs:342-355 | at every point of every run a member has the client, timeouts and protocols of its last join that was not refused |
| `GroupRules.LongestTimeout` | src/broker/groups.rs:961-969 | the rebalance timeout bounds every member's and is one of theirs, or nothing if all are negative |
| `GroupRules.GroupFieldsAreExact` | src/broker/groups.rs:254-949 | in every run, after every event: who is a member, the state, the leader, both counters, the deadline and the protocol type are those that the group before, the request and the late members determine; idle requests change nothing |
| `GroupRules.WaitersAreWoken` | src/broker/groups.rs:777-949 | in every run those who wait are notified exactly by the events that concern them: a rebalance that starts or completes, a member that goes, an assignment that is given |
| `GroupAnswers.ElectionIsExact` | src/broker/groups.rs:1015-1056 | the selected protocol is, of those that all offer, the one that most members have first, of equals the smallest; none is selected exactly without a common one |
| `GroupAnswers.LeaderListIsExact` | src/broker/groups.rs:1058-1075 | the leader's list has every member once, in order of ids, with the metadata of the first protocol of that name |
| `GroupAnswers.MembersAreInformed` | src/broker/groups.rs:791-837 | at every point of every run, in a completing or stable group every member holds a reply with the group's generation, type, protocol and leader, its own id, and the list for the leader only; the protocol is the one that wins |
| `GroupAnswers.HeldRepliesAreExact` | src/broker/groups.rs:809-837 | in every run a completing rebalance gives every member that reply, and no other event changes the reply a member holds |
| `GroupAnswers.JoinIsExact` | src/broker/groups.rs:254-388 | in every run a join is answered by the group it finds and the request: inconsistent, unknown, the reply already held with nothing but the heartbeat changed, or waiting for the epoch it joined |
| `GroupAnswers.MembersShareTheType` | src/broker/groups.rs:300-315 | at every point of every run every member asked for the group's type when it last joined |
| `GroupAnswers.RepeatedJoinIsAnswered` | src/broker/groups.rs:314-330 | in every run a join equal to the member's last one, in a completing group or in a stable one it does not lead, with nobody late, is answered with the reply already published and changes nothing but the heartbeat |
| `GroupAnswers.PollIsExact` | src/broker/groups.rs:396-421 | in every run a waiting round is answered by the group it finds and leaves: the reply held for its epoch, unknown, rebalance in progress, the reply of the rebalance it completes, or waiting on |
| `GroupAnswers.AssignedIff` | src/broker/groups.rs:462-528 | in every run a sync returns bytes if and only if nobody is late, its member and generation are the group's, and they are the member's assignment in a stable group or the leader's own entry of an assignment that names everybody once |
| `GroupAnswers.AssignmentsAreDelivered` | src/broker/groups.rs:462-475 | in every run, once a generation is stable and while it stays so with nobody late, every sync of every member returns exactly the bytes that the leader gave it |
| `GroupAnswers.FetchedIsLastAccepted` | src/broker/groups.rs:652-683 | at every point of every run what is fetched for a key is the offset and metadata of its last accepted commit, and neither if there is none |
| `GroupCoordinator.Group.BeginRebalance` | src/broker/groups.rs:777-789 | the new state is that of the specification: next epoch, preparing, assignments cleared, deadline set, waiters notified |
| `GroupCoordinator.Group.TransitionAfterRemoval` | src/broker/groups.rs:927-949 | the new state is the specified one: emptied, led by the smallest id, or rebalanced |
| `GroupCoordinator.Group.ExpireStaleMembers` | src/broker/groups.rs:876-925 | exactly the stale members are removed, with the specified transition |
| `GroupCoordinator.Group.CompleteRebalanceIfReady` | src/broker/groups.rs:791-857 | the loop over members publishes the specified join results, and fails exactly when the specification does |
| `GroupCoordinator.Group.PublishJoins` | src/broker/groups.rs:809-837 | the loop caches each member's join result, with the list for the leader only |
| `GroupCoordinator.Group.MembersForLeader` | src/broker/groups.rs:1058-1075 | the sorted listing of the members with their metadata |
| `GroupCoordinator.Group.SubmitJoin` | src/broker/groups.rs:296-388 | state and reply are those of the specified submit step |
| `GroupCoordinator.Group.EnrollMember` | src/broker/groups.rs:342-377 | the member, leader, type, epoch and deadline after a join that goes ahead |
| `GroupCoordinator.Group.PollJoin` | src/broker/groups.rs:396-421 | state and reply are those of the specified poll step |
| `GroupCoordinator.Group.SyncPass` | src/broker/groups.rs:445-538 | state and reply are those of the specified sync pass, first or later |
| `GroupCoordinator.Group.AcceptAssignments` | src/broker/groups.rs:482-528 | the loops over assignments and members install the specified assignment or refuse it |
| `GroupCoordinator.Group.CollectAssignments` | src/broker/groups.rs:502-505 | the table built by the loop gives each id its last assignment |
| `GroupCoordinator.Group.RefreshSyncedMembers` | src/broker/groups.rs:506-512 | the loop refreshes the heartbeat of exactly the synced members |
| `GroupCoordinator.Group.Heartbeat` | src/broker/groups.rs:549-581 | state and reply are those of the specified heartbeat |
| `GroupCoordinator.Group.Leave` | src/broker/groups.rs:583-604 | state and reply are those of the specified leave |
| `GroupCoordinator.Group.CommitOffsets` | src/broker/groups.rs:606-633 | the commit loop stores the specified offsets or refuses |
| `GroupCoordinator.Group.FetchOffsets` | src/broker/groups.rs:635-683 | the fetched offsets are ordered by key and are, as a multiset, one answer per requested key, or per stored key |
| `GroupCoordinator.Group.DriveDeadlines` | src/broker/groups.rs:733-757 | sweep, then complete, then the timer to sleep on |
| `GroupCoordinator.Group.NextExpiryDeadline` | src/broker/groups.rs:981-1013 | the loop over members finds the specified earliest deadline |
| `GroupCoordinator.Group.LongestTimeout` | src/broker/groups.rs:961-969 | the loop over members finds the longest rebalance timeout |
| `Varints.UnsignedRoundTrip` | crates/kafka-protocol/src/protocol/types.rs:96-181 | decoding an encoded unsigned number gives it back and leaves what follows |
| `Varints.VarIntRoundTrip` | crates/kafka-protocol/src/protocol/types.rs:185-207 | every 32-bit integer survives zigzag and base 128 |
| `Varints.VarLongRoundTrip` | crates/kafka-protocol/src/protocol/types.rs:211-233 | every 64-bit integer survives zigzag and base 128 |
| `Varints.SizeIsLength` | crates/kafka-protocol/src/protocol/types.rs:108-118 | the size read off the value's range is the number of bytes written |
| `RecordRoundTrip.SequenceUndone` | crates/kafka-protocol/src/records.rs:308-310 | base sequence plus offset delta gives the sequence back, wrapping included, because offset minus sequence is constant in a run |
| `RecordRoundTrip.OptionalRoundTrip` | crates/kafka-protocol/src/records.rs:869-888 | a length-prefixed optional value is read back, absence included |
| `RecordRoundTrip.HeadersRoundTrip` | crates/kafka-protocol/src/records.rs:889-920 | headers with distinct keys are read back in order |
| `RecordRoundTrip.BodyRoundTrip` | crates/kafka-protocol/src/records.rs:854-937 | the body of a record is read back field by field |
| `RecordRoundTrip.RecordRoundTrip` | crates/kafka-protocol/src/records.rs:671-758 | a record decoded against the header of its run is the record, Creation-stamped |
| `RecordRoundTrip.RecordsRoundTrip` | crates/kafka-protocol/src/records.rs:511-522 | the records of a run are read back from their concatenation |
| `RecordRoundTrip.HeaderRoundTrip` | crates/kafka-protocol/src/records.rs:524-619 | the header of an encoded batch decodes to the description of its run and exactly its record bytes |
| `RecordRoundTrip.BatchRoundTrip` | crates/kafka-protocol/src/records.rs:249-417 | an encoded batch decodes to its run and leaves what follows |
| `RecordRoundTrip.RunsAreMaximal` | crates/kafka-protocol/src/records.rs:419-433 | the batches cut the records into maximal runs of equal producer identity and constant offset minus sequence |
| `RecordRoundTrip.DecodeAllOfEncode` | crates/kafka-protocol/src/records.rs:459-465 | whenever encoding succeeds, decoding all gives one record set per maximal run, in order |
| `RecordRoundTrip.EncodedListRoundTrips` | crates/kafka-protocol/src/records.rs:419-465 | the decoded records are the encoded ones if and only if those are all Creation-stamped |
| `RecordLayout.WordIsBigEndian` | crates/kafka-protocol/src/protocol/types.rs:84-92 | four bytes are read big-endian, unsigned or in two's complement |
| `RecordLayout.LongIsBigEndian` | crates/kafka-protocol/src/protocol/types.rs:84-92 | eight bytes are read big-endian in two's complement |
| `RecordLayout.ShortIsBigEndian` | crates/kafka-protocol/src/protocol/types.rs:84-92 | two bytes are read big-endian in two's complement |
| `RecordLayout.FixedWidthValues` | crates/kafka-protocol/src/protocol/types.rs:84-92 | particular numbers of every width have particular bytes |
| `RecordLayout.UnsignedIsDigits` | crates/kafka-protocol/src/protocol/types.rs:100-108 | an unsigned number is written in digits of seven bits, low ones first, all but the last marked |
| `RecordLayout.ZigzagValues` | crates/kafka-protocol/src/protocol/types.rs:189-195 | particular signed numbers have particular bytes: 0, -1, 1, -2 and so on alternate |
| `RecordLayout.BatchIsLaidOut` | crates/kafka-protocol/src/records.rs:283-417 | every encoded batch has every field at its position: least offset, length, leader epoch, version, checksum of the rest, attribute bits, offset span, least and greatest timestamp, producer, base sequence, count; then its records |
| `RecordLayout.RecordsAreLaidOut` | crates/kafka-protocol/src/records.rs:671-758 | every encoded record, read from the front, is its size, a zero byte, timestamp delta, offset delta, key, value, header count, and each header's key before its value |
| `RecordLayout.BodyIsRead` | crates/kafka-protocol/src/records.rs:843-937 | whatever bytes have these fields in that order are read as exactly them, with the batch's producer, epochs, flags and stamp |
| `RecordLayout.ReadIsLaidOut` | crates/kafka-protocol/src/records.rs:843-937 | a record is read only from bytes that have these fields |
| `RecordLayout.OptionalIffComplete` | crates/kafka-protocol/src/records.rs:869-888 | an optional value is read if and only if its length is at least -1 and so many bytes are there; -1 is absence |
| `RecordLayout.LaidOutIsRead` | crates/kafka-protocol/src/records.rs:889-920 | headers are read as they are laid out, if and only if every key is UTF-8 |
| `RecordLayout.ReadHeadersAreLaidOut` | crates/kafka-protocol/src/records.rs:889-920 | headers are read only from bytes that hold so many with UTF-8 keys |
| `RecordLayout.PutReplaces` | crates/kafka-protocol/src/records.rs:918-920 | a repeated header key keeps the place of its first header and takes the value of its last |
| `RecordLayout.HeaderIsRead` | crates/kafka-protocol/src/records.rs:524-619 | a header is read only from a whole batch of version 2 with the right checksum; every field is that of its position and every flag its bit |
| `RecordLayout.SharesBatchIff` | crates/kafka-protocol/src/records.rs:268-281 | records share a batch if and only if the fields a batch holds once are equal and offset minus sequence is, modulo 2^32 |
| `RecordLayout.RecordsEncodeIff` | crates/kafka-protocol/src/records.rs:671-758 | records are encoded if and only if every offset delta and every length, each body's included, fits 32 bits |
| `RecordLayout.BatchEncodesIff` | crates/kafka-protocol/src/records.rs:358-412 | a batch is encoded if and only if its records are and its count and length fit 32 bits |
| `RecordLayout.CompressedIsPlain` | crates/kafka-protocol/src/records.rs:621-667 | a compressed batch holds the records of the plain batch that it inflates to, and fails if it does not inflate |
| `RecordLayout.SampleIsLaidOut` | crates/kafka-protocol/src/records.rs:671-758 | one particular record has particular bytes |
| `RecordLayout.SampleIsRead` | crates/kafka-protocol/src/records.rs:843-937 | those bytes are read as that key, value and header |
| `RecordBuffers.Buffer.PutVarInt` | crates/kafka-protocol/src/protocol/types.rs:187-192 | appends the zigzag base-128 form |
| `RecordBuffers.Buffer.PutOptional` | crates/kafka-protocol/src/records.rs:703-713 | appends the length-prefixed value, or fails exactly when its length does not fit, having written nothing |
| `RecordBuffers.Buffer.PutHeaders` | crates/kafka-protocol/src/records.rs:725-757 | the header loop appends count and headers, and fails exactly when one does not fit |
| `RecordBuffers.Buffer.PutContentHeader` | crates/kafka-protocol/src/records.rs:329-364 | appends the header fields that the checksum covers |
| `RecordBuffers.Buffer.PutRecord` | crates/kafka-protocol/src/records.rs:671-758 | appends exactly the specified record, or fails exactly when the specification does, having written nothing |
| `RecordBuffers.Buffer.PutBatch` | crates/kafka-protocol/src/records.rs:249-417 | takes the maximal run, writes gaps and fills in size and checksum, and appends exactly the specified batch; a failure keeps the old contents in front |
| `RecordBuffers.Buffer.PutAll` | crates/kafka-protocol/src/records.rs:419-433 | the batch loop appends exactly the specified encoding of the list; a failure keeps the old contents in front |
| `RecordBuffers.CountRun` | crates/kafka-protocol/src/records.rs:268-281 | the counting loop finds the length of the maximal run |
| `RecordBuffers.ComputeSize` | crates/kafka-protocol/src/records.rs:760-841 | the accumulated size is the number of bytes written after the size prefix, and fails on the same records |
| `RecordBuffers.Cursor.GetVarInt` | crates/kafka-protocol/src/protocol/types.rs:200-205 | reads a number as specified and moves past exactly its bytes |
| `RecordBuffers.Cursor.GetOptional` | crates/kafka-protocol/src/records.rs:869-878 | reads an optional value as specified and moves past exactly its bytes |
| `RecordBuffers.Cursor.GetHeaders` | crates/kafka-protocol/src/records.rs:889-920 | the header loop reads what the specification reads, later duplicates replacing earlier ones in place |
| `RecordBuffers.Cursor.GetRecord` | crates/kafka-protocol/src/records.rs:843-937 | reads one record as specified and moves past exactly its bytes |
| `RecordBuffers.Cursor.GetRecords` | crates/kafka-protocol/src/records.rs:511-522 | the loop reads as many records as the header announces |
| `RecordBuffers.Cursor.GetHeader` | crates/kafka-protocol/src/records.rs:524-619 | accepts and refuses the same headers as the specification, and moves past exactly one batch |
| `RecordBuffers.Cursor.GetContent` | crates/kafka-protocol/src/records.rs:541-619 | the fields after the batch length, read one after the other, accept and describe exactly what the header specification does |
| `RecordBuffers.Cursor.GetBatch` | crates/kafka-protocol/src/records.rs:621-668 | reads one batch as specified and moves past exactly its bytes |
| `RecordBuffers.Cursor.GetAll` | crates/kafka-protocol/src/records.rs:459-465 | the loop decodes the whole buffer as specified |
| `PartitionSafety.SplitConcatenates` | src/broker/partition.rs:320-414 | the validated batches of a record set concatenate back to it |
| `PartitionSafety.SplitStep` | src/broker/partition.rs:325-405 | a framed batch in front of anything is split off exactly |
| `PartitionSafety.RewriteKeepsMetadata` | src/broker/partition.rs:193-204 | rewriting the eight base-offset bytes keeps validity and all extracted metadata, in both directions |
| `PartitionSafety.TiledAppend` | src/broker/partition.rs:185-212 | ranges of offsets that meet tile their union |
| `PartitionSafety.StampIsSound` | src/broker/partition.rs:190-204 | the stored batches tile the assigned range, each valid, with the metadata it came with and its offset in its bytes |
| `PartitionSafety.StampIsSequenced` | src/broker/partition.rs:293-305 | a set that passes the sequence check advances its producer's sequence by its record count modulo 2^31 |
| `PartitionSafety.SequencesAreTotals` | src/broker/partition.rs:316-318 | sequenced batches start at the producer's record total before them modulo 2^31, and the next sequence is the whole total |
| `PartitionSafety.OthersAreSkipped` | src/broker/partition.rs:215-234 | batches of other producers leave a producer's sequence alone |
| `PartitionRuns.StoreKeepsSound` | src/broker/partition.rs:185-237 | storing an admitted set keeps the whole log invariant: tiling, valid bytes, sequences, epochs and retry windows |
| `PartitionRuns.AppendStoresOrLeaves` | src/broker/partition.rs:130-237 | an append stores its set at the end and names exactly its offsets, or changes nothing, whatever it answers |
| `PartitionRuns.AppendKeepsSound` | src/broker/partition.rs:130-237 | every append keeps the log invariant |
| `PartitionRuns.LogAfter` | src/broker/partition.rs:130-237 | after every run of appends the log invariant holds |
| `PartitionRuns.RunIsTiledAndSequenced` | src/broker/partition.rs:130-237 | after every run the batches tile [0, next offset), their bytes carry their offsets, every producer's base sequences start at 0 and advance by record counts modulo 2^31, and its next sequence is its stored total modulo 2^31 |
| `PartitionRuns.LogOnlyGrows` | src/broker/partition.rs:213-214 | what a run has stored stays stored |
| `PartitionRuns.StoredWhereReplied` | src/broker/partition.rs:206-214 | an accepted set is in the log, at the offsets its reply named, for the rest of the run |
| `PartitionRetries.WindowIsLastFive` | src/broker/partition.rs:215-234 | over any run a producer's window is exactly its last five accepted sets, and its next sequence the number of records accepted |
| `PartitionRetries.AcceptedInSequence` | src/broker/partition.rs:293-318 | every accepted set starts at the number of records accepted before it, modulo 2^31 |
| `PartitionRetries.StoredAtMostOnce` | src/broker/partition.rs:157-183 | no set is stored twice while its producer has stored no more than 2^31 records |
| `PartitionRetries.ResendIsRecognised` | src/broker/partition.rs:161-174 | while the window holds fewer than 2^31 records, resending any of the last five accepted sets returns its original offsets and changes nothing |
| `PartitionRetries.EntriesAreDistinct` | src/broker/partition.rs:163-168 | below 2^31 records the entries of a window start at different sequences |
| `PartitionRetries.RetryIffSameBytes` | src/broker/partition.rs:163-168 | a set is taken for a retry if and only if a retained set has the same bytes |
| `PartitionRetries.SwallowedOnlyAtWrap` | src/broker/partition.rs:163-174 | a set at the expected sequence is taken for a retry only when the window holds a positive multiple of 2^31 records from the equal entry on |
| `PartitionRetries.ExpectedIsNotSwallowed` | src/broker/partition.rs:157-183 | below 2^31 retained records a set that starts at the expected sequence is never answered as a retry |
| `PartitionRetries.MismatchIsClassified` | src/broker/partition.rs:293-314 | any other set from a known producer is a duplicate if and only if it starts 1 to 2^30 behind, out of order if and only if 1 to 2^30 - 1 ahead, across the wrap, and changes nothing |
| `PartitionContracts.BatchIsExact` | src/broker/partition.rs:352-405 | a batch is admitted exactly by its bytes: version, checksum, codec, flags, producer identity and counts at their positions, with the error of the first that fails |
| `PartitionContracts.SetIsExact` | src/broker/partition.rs:320-414 | a record set is admitted as given batches if and only if its bytes are those batches, each admitted, of one producer and epoch |
| `PartitionContracts.SetFails` | src/broker/partition.rs:320-414 | a set that is not admitted has the error of the first batch that is not whole or not admitted, or mixes producers |
| `PartitionContracts.SequencesAreExact` | src/broker/partition.rs:293-318 | the sequence check passes if and only if every batch starts at the expected sequence plus the records before it modulo 2^31; otherwise its error is that of the first stray batch, by its distance |
| `PartitionContracts.RetryIsExact` | src/broker/partition.rs:161-174 | the entry found for a retry is the first of the window with the very bytes of the set, and there is none exactly if no entry has them |
| `PartitionContracts.AppendIsExact` | src/broker/partition.rs:130-237 | for every log and set: the set's own error, overflow of the count, the refusal of an identified producer (epoch, retry, unknown start, first stray batch), overflow of the offset, or storage at the end of the log |
| `PartitionContracts.StoredIff` | src/broker/partition.rs:130-237 | a set is stored, at [next offset, next offset + count), if and only if it is admitted, count and end offset fit, and it is nobody's or continues its producer's sequence in its epoch without being retained |
| `PartitionContracts.StoredIsExact` | src/broker/partition.rs:185-237 | a stored set extends the log by its batches one after the other, each with its offset in its first eight bytes and its other bytes unchanged, and its producer by the records, the epoch and the window entry |
| `PartitionFetch.SkipFinds` | src/broker/partition.rs:249-253 | skipping leaves the batches from the one that contains the offset on, none exactly at the end |
| `PartitionFetch.TakeIsMaximal` | src/broker/partition.rs:254-267 | the batches taken are a prefix, within the limit unless one batch, stopped only by the limit |
| `PartitionFetch.FetchIsSlice` | src/broker/partition.rs:239-273 | a fetch in range returns a maximal slice of the log that starts at the batch containing the offset, within the limit unless it is a single batch, and the end offset |
| `PartitionFetch.PollAdvances` | src/broker/partition.rs:239-273 | a fetch below the high watermark moves the consumer on, and at it returns nothing |
| `PartitionFetch.ConsumerReceivesInOrder` | src/broker/partition.rs:239-273 | with any limits, while the log grows, a consumer has received exactly the batches from the one containing its start up to its position, once each and in order |
| `PartitionFetch.RunIsConsumedInOrder` | src/broker/partition.rs:130-273 | the same for every run of appends with polls at any points of it |
| `PartitionFetch.DrainIsComplete` | src/broker/partition.rs:239-273 | over a fixed log, fetching until nothing comes back ends having received every batch from the one containing the start on |
| `PartitionFetch.FetchedSplits` | src/broker/partition.rs:320-414 | fetched bytes split into exactly the stored batches they came from, each with its assigned base offset in its bytes |
| `PartitionFetch.FetchedRevalidates` | src/broker/partition.rs:406-414 | fetched bytes pass validation again if and only if they are not empty and of one producer and epoch; otherwise they are malformed |
| `PartitionLog.ValidateRecords` | src/broker/partition.rs:320-414 | the loop over positions computes the specified split, with the same error for the same input |
| `PartitionLog.CheckedTotal` | src/broker/partition.rs:132-136 | the checked sum is the total, and overflows exactly when the total leaves 32 bits |
| `PartitionLog.CheckSequences` | src/broker/partition.rs:293-305 | the loop finds the specified first mismatch |
| `PartitionLog.FindRetry` | src/broker/partition.rs:163-168 | the search finds the first matching entry |
| `PartitionLog.StampAll` | src/broker/partition.rs:190-204 | the loop assigns consecutive offsets and rewrites each batch's first eight bytes |
| `PartitionLog.PushRecent` | src/broker/partition.rs:225-233 | the window after a push is the last five entries |
| `PartitionLog.Log.Append` | src/broker/partition.rs:130-237 | new state and reply are those of the specified append, and the log invariant is kept |
| `PartitionLog.Log.Fetch` | src/broker/partition.rs:239-273 | the two loops return the specified bytes and high watermark, or refuse an offset out of range |
| `ProduceFetch.EncodedIsValidated` | src/broker/partition.rs:352-405 | a batch from the encoder is admitted exactly when it is neither transactional nor control, its identity is admitted and its offsets span its record count, and which error it gets otherwise |
| `ProduceFetch.RewrittenDecodes` | src/broker/partition.rs:193-204 | a batch rewritten to another base offset decodes to the same records, moved |
| `ProduceFetch.AdmittedSpan` | src/broker/partition.rs:370-388 | the offsets of an admitted run span exactly its record count, wrapping excluded |
| `ProduceFetch.RunOffsets` | src/broker/partition.rs:193-204 | a run's offsets are read moved to the assigned range, all of it if and only if they were distinct |
| `ProduceFetch.ProducedIsFetched` | src/broker/partition.rs:130-273 | what is encoded, appended, fetched with any limits and decoded is the same records run by run, at offsets of the range the append replied, each of them once if and only if no run repeats an offset |
| `ProduceFetch.MixedProducersAreRefused` | src/broker/partition.rs:406-414 | two producers' sets fetched together are refused when offered back as one set, for a concrete run |
| `FetchBudget.AnswerIsSlice` | src/kafka/fetch.rs:109-131 | a partition's answer has records exactly when the partition has data at the offset: a slice from the batch containing it, within the limit unless one batch |
| `FetchBudget.AnswersLineUp` | src/kafka/fetch.rs:58-107 | answers line up with the requested partitions; the budget never changes an error code; each carries a slice of its log within its own limit, one batch, or nothing |
| `FetchBudget.SpentStaysWithin` | src/kafka/fetch.rs:78-89 | once something is spent the request limit is kept, and once it is exceeded everything later is empty |
| `FetchBudget.OverrunIsOneBatch` | src/kafka/fetch.rs:58-107 | the total exceeds the request limit only if all records of the reply are one batch |
| `FetchBudget.DataIsReturned` | src/kafka/fetch.rs:58-107 | the reply carries records whenever some requested partition has data at its offset |
| `FetchBudget.Snapshot` | src/kafka/fetch.rs:58-107 | the nested loops, each lookup in the catalogue of its own instant, give the budgeted answers in the request's shape; the counter is the bytes returned and the valid partitions are counted |
| `FetchBudget.RepeatedPartitionAgrees` | src/kafka/fetch.rs:64-94 | a partition requested twice at one offset, while its log may grow in between: the later answer is valid if the earlier is, and the records of one are the front of the other's |
| `FetchContracts.ReplyIsExact` | src/kafka/fetch.rs:58-131 | for every requested partition of every request: unknown, out of range, or the high watermark of the partition of that topic and index, and the longest slice of its batches from the offset on that the limits allow, dropped only if it exceeds what the request has left |
| `FetchContracts.OverrunIsOneBatchOf` | src/kafka/fetch.rs:58-107 | a reply exceeds the request's limit, negative ones included, only if all its records are one batch of one requested partition |
| `TopicPages.NameLimits` | src/broker/topics.rs:212-226 | the characters and lengths at the limits of what a topic may be called |
| `TopicPages.SelectNames` | src/kafka/describe_topic_partitions.rs:23-66 | the names at or after the cursor, sorted |
| `TopicPages.FillPage` | src/kafka/describe_topic_partitions.rs:81-127 | the paging loop computes the specified page and cursor |
| `TopicPages.Response` | src/kafka/describe_topic_partitions.rs:68-132 | refusals included, the reply is the specified one |
| `TopicPages.PageCovers` | src/kafka/describe_topic_partitions.rs:81-127 | a page is the front of the listing, has at most the limit's partitions, exactly that many if it is cut, and its cursor is later and starts exactly the rest |
| `TopicPages.ResponseCovers` | src/kafka/describe_topic_partitions.rs:23-132 | the cursor a page returns is accepted with the same topics and selects exactly the rest of the names |
| `TopicPages.PageProgresses` | src/kafka/describe_topic_partitions.rs:81-127 | a page has at most the limit's partitions, or one for a limit below 1, and exactly so many if it returns a cursor; a returned cursor is accepted and leaves strictly less of the listing, so following cursors with any limits terminates |
| `TopicPages.PagesKeepLimits` | src/kafka/describe_topic_partitions.rs:81-127 | no page reached by following cursors exceeds its limit, or one partition for a limit below 1 |
| `TopicPages.RefusedIsExact` | src/kafka/describe_topic_partitions.rs:68-79 | a request is refused exactly if its cursor has a negative partition or, topics being named, another topic; then every named topic is told so and there is no cursor |
| `TopicPages.PagesAreTheListing` | src/kafka/describe_topic_partitions.rs:81-127 | from any accepted cursor the pages together are the unpaged listing |
| `TopicPages.PagingIsComplete` | src/kafka/describe_topic_partitions.rs:23-127 | the collected pages list every partition of every known name and every unknown or invalid name, once each, in order, and nothing else |
| `SchemaModel.StoreAfter` | src/schema_registry.rs:64-98 | after every run of registrations text to id and id to text are inverse bijections onto 1 to next id - 1, and every subject has versions 1 to n with distinct texts and the global ids |
| `SchemaModel.RegisterKeepsSound` | src/schema_registry.rs:64-98 | one registration keeps these four indexes consistent |
| `SchemaModel.RegisterExtendsOrFinds` | src/schema_registry.rs:64-98 | a registration finds the subject's version with that text and changes nothing, or appends one version with the next number and the text's one id, keeping all ids given out |
| `SchemaModel.FailsOnlyWithoutIds` | src/schema_registry.rs:73-88 | a registration fails exactly when a new text finds no id left, and then nothing has changed; versions never run out first |
| `SchemaModel.RunsRetain` | src/schema_registry.rs:64-98 | ids, texts and versions given out are never taken back or changed |
| `SchemaModel.ReregisteringChangesNothing` | src/schema_registry.rs:66-72 | however a run goes on, registering the same again returns the same reply and changes nothing |
| `SchemaModel.SameIdIffSameText` | src/schema_registry.rs:74-86 | two registrations of a run get the same id if and only if they are of the same text |
| `SchemaModel.ReplyIsHeld` | src/schema_registry.rs:87-98 | the reply to a registration stays that subject's version of that number and that text's id for the rest of the run |
| `SchemaModel.KnownIdIsListed` | src/schema_registry.rs:168-182 | the listing of an id fails exactly for ids not given out, and otherwise is non-empty and exactly its registered versions, at most one per subject, by subject |
| `SchemaRegistry.Registry.Register` | src/schema_registry.rs:64-98 | new state and reply are those of the specified registration, and when it fails |
| `SchemaRegistry.Registry.Subjects` | src/schema_registry.rs:100-102 | the subjects' names, sorted, each once |
| `SchemaRegistry.Registry.Versions` | src/schema_registry.rs:104-112 | a known subject's version numbers are 1 to their count, an unknown subject is an error |
| `SchemaRegistry.Registry.Lookup` | src/schema_registry.rs:114-128 | the one version with the text, or which of the two is missing |
| `SchemaRegistry.Registry.Version` | src/schema_registry.rs:130-144 | version numbers index a subject's history from 1 |
| `SchemaRegistry.Registry.Latest` | src/schema_registry.rs:146-156 | a known subject always has a latest version, the one with the highest number |
| `SchemaRegistry.Registry.SchemaById` | src/schema_registry.rs:158-166 | exactly the ids given out have a text, and its id is that id |
| `SchemaRegistry.Registry.SchemaVersionsById` | src/schema_registry.rs:168-182 | the loops compute the specified listing |

## Left out

- Allocating member ids and the pending-id handshake of a join, and its first look at the group
  before taking the lock for the submit step: their outcome is the parameter `mayAdd`.
- Notification and sleeping: `notify_waiters` is a counter, and a step reads one clock value where
  the code reads the clock more than once.
- Several groups: each is behind its own lock, and the map from group ids to groups adds nothing.
- Rendering of group lists and descriptions; describing is modelled by the sweep it performs.
- Compression codecs, the CRC-32C polynomial and UTF-8: parameters of the model. Encoding covers
  the path without compression.
- Record formats before version 2: decoding refuses them.
- Arithmetic is that of a release build, which wraps, and sizes are unbounded naturals: overflow of
  a machine-size length is not modelled.
- RecordBuffers.Buffer.PutBatch: what a failing batch leaves behind the old contents of the buffer is
  not stated, because callers drop the buffer on an error.
- The wait loop around a fetch snapshot: it returns one of the snapshots modelled here.
- Partition counts above the 32-bit range of partition indexes, on which a listing panics.
- The topic catalogue and the producer-id allocator beyond the map that the readers use.
- Sockets, framing, dispatch, configuration, logging, HTTP routes and the per-request response
  builders.
