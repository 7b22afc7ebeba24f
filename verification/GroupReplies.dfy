/** Theorems about the replies of whole runs: joins agree, assignments are delivered, commits are kept. */
module GroupReplies {
  import opened Text
  import opened GroupModel
  import opened ProtocolChoice
  import opened GroupInvariant
  import opened GroupStanding
  import opened GroupDeadlines
  import opened GroupRuns
  import opened GroupHistory

  lemma EventIsTraced(run: Run, i: nat)
    requires ValidRun(run) && i < |run| && NeverSaturates(run, i + 1)
    ensures Linked(run, i) && Traced(run[i].before, run[i].after)
  {
    hide Apply, Traced;
    assert Linked(run, i);
    OnlyGenerationRunsOut(run, i + 1);
    StepTraced(run[i].before, run[i].at, run[i].step);
  }

  // Up to event `n` nothing has been completed twice under the number `generation`: it is below the
  // maximum, or nothing has been completed at the maximum.
  ghost predicate Settled(run: Run, n: nat, generation: int)
    requires n <= |run|
  {
    generation < MAX_GENERATION || NeverSaturates(run, n)
  }

  // ----- Each epoch and each generation completes once

  lemma {:induction false} EpochIsPast(run: Run, k: nat, n: nat)
    requires ValidRun(run) && CompletesAt(run, k) && k < n <= |run| && NeverSaturates(run, n)
    ensures run[k].after.epoch <= StateAt(run, n).epoch
    ensures StateAt(run, n).state == PreparingRebalance ==> run[k].after.epoch < StateAt(run, n).epoch
    decreases n
  {
    hide Apply, CachesTraced;
    if n > k + 1 {
      EpochIsPast(run, k, n - 1);
      EventIsTraced(run, n - 1);
    }
  }

  // A completion that counts up finds every earlier one below the maximum.
  lemma CompletesBelowMax(run: Run, k: nat)
    requires ValidRun(run) && CompletesAt(run, k)
    ensures NeverSaturates(run, k + 1)
  {
    hide Apply;
    assert Linked(run, k);
    GenerationIsBounded(run, k + 1);
    forall i | 0 <= i < k + 1 ensures BelowMax(run[i].before, run[i].after) {
      assert Linked(run, i);
      RunGrows(run, i, k);
    }
  }

  lemma {:induction false} GenerationIsBounded(run: Run, n: nat)
    requires ValidRun(run) && n <= |run|
    ensures StateAt(run, n).generation <= MAX_GENERATION
    decreases n
  {
    hide Apply;
    if n > 0 {
      assert Linked(run, n - 1);
      GenerationIsBounded(run, n - 1);
      StepIsBounded(run[n - 1].before, run[n - 1].at, run[n - 1].step);
    }
  }

  lemma StepIsBounded(g: GroupView, now: Time, step: Step)
    requires g.generation <= MAX_GENERATION
    ensures Apply(g, now, step).g.generation <= MAX_GENERATION
  {
    hide SelectProtocol, Expire, Enroll, TransitionAfterRemoval, SyncPass, StoreOffsets, JoinResultFor;
    if step.Sync? {
      SyncKeepsCaches(g, now, step.generation, step.id, step.assignments, step.first);
    }
  }

  lemma CompletionsAdvance(run: Run, j: nat, k: nat)
    requires ValidRun(run) && CompletesAt(run, j) && CompletesAt(run, k) && j < k
    ensures run[j].after.epoch < run[k].after.epoch && run[j].after.generation < run[k].after.generation
  {
    hide Apply, CachesTraced;
    CompletesBelowMax(run, k);
    EventIsTraced(run, k);
    EpochIsPast(run, j, k);
    RunGrows(run, j + 1, k);
  }

  // ----- Where a join reply comes from

  ghost predicate Origin(run: Run, k: nat, id: string, join: CompletedJoin) {
    && k < |run| && run[k].after.state == CompletingRebalance
    && join == CompletedJoin(run[k].after.epoch, JoinResultFor(run[k].after, id))
  }

  lemma {:induction false} CacheOrigin(run: Run, n: nat, id: string) returns (k: nat)
    requires ValidRun(run) && n <= |run|
    requires id in StateAt(run, n).members && StateAt(run, n).members[id].completedJoin.Some?
    ensures k < n && Origin(run, k, id, StateAt(run, n).members[id].completedJoin.value)
    ensures Settled(run, n, StateAt(run, n).members[id].completedJoin.value.result.generation) ==> CompletesAt(run, k)
    decreases n
  {
    hide Apply, JoinResultFor, EpochDiscipline, GenerationDiscipline;
    var a, b := run[n - 1].before, run[n - 1].after;
    assert Linked(run, n - 1);
    StepKeepsCaches(a, run[n - 1].at, run[n - 1].step);
    if id in a.members && b.members[id].completedJoin == a.members[id].completedJoin {
      k := CacheOrigin(run, n - 1, id);
    } else {
      k := n - 1;
      GenerationOf(b, id);
      if Settled(run, n, b.generation) {
        if b.generation < MAX_GENERATION {
          BelowMaxNeverSaturates(run, n);
        }
        EventIsTraced(run, n - 1);
      }
    }
  }

  // The reply of event `i` is a Joined answer, fresh or cached.
  predicate JoinedAt(run: Run, i: nat) {
    && i < |run|
    && (run[i].step.Submit? || run[i].step.Poll?)
    && run[i].reply.JoinAnswer? && run[i].reply.join.Joined?
  }

  function JoinedReply(run: Run, i: nat): JoinedGroup
    requires JoinedAt(run, i)
  {
    run[i].reply.join.result
  }

  lemma ReplyOrigin(run: Run, i: nat) returns (k: nat)
    requires ValidRun(run) && JoinedAt(run, i)
    ensures k <= i && run[k].after.state == CompletingRebalance
    ensures JoinedReply(run, i) == JoinResultFor(run[k].after, run[i].step.id)
    ensures Settled(run, i + 1, JoinedReply(run, i).generation) ==> CompletesAt(run, k)
  {
    hide Apply, JoinResultFor;
    assert Linked(run, i);
    RepliesAreCached(run[i].before, run[i].at, run[i].step);
    k := CacheOrigin(run, i + 1, run[i].step.id);
  }

  lemma SameGenerationSameCompletion(run: Run, j: nat, k: nat)
    requires ValidRun(run) && CompletesAt(run, j) && CompletesAt(run, k)
    requires run[j].after.generation == run[k].after.generation
    ensures j == k
  {
    if j < k {
      CompletionsAdvance(run, j, k);
    } else if k < j {
      CompletionsAdvance(run, k, j);
    }
  }

  // A Joined reply names its member, and only the leader is given members.
  lemma JoinedReplyIsOwn(run: Run, i: nat)
    requires ValidRun(run) && JoinedAt(run, i)
    ensures JoinedReply(run, i).memberId == run[i].step.id
    ensures JoinedReply(run, i).members == [] || JoinedReply(run, i).leader == run[i].step.id
  {
    hide MembersForLeader, Apply;
    var k := ReplyOrigin(run, i);
  }

  // Any two Joined replies of one generation agree.
  lemma JoinedRepliesAgree(run: Run, i: nat, j: nat)
    requires ValidRun(run) && JoinedAt(run, i) && JoinedAt(run, j)
    requires JoinedReply(run, i).generation == JoinedReply(run, j).generation
    requires Settled(run, i + 1, JoinedReply(run, i).generation) && Settled(run, j + 1, JoinedReply(run, i).generation)
    ensures JoinedReply(run, i).leader == JoinedReply(run, j).leader
    ensures JoinedReply(run, i).protocolName == JoinedReply(run, j).protocolName
    ensures JoinedReply(run, i).protocolType == JoinedReply(run, j).protocolType
  {
    hide MembersForLeader, Apply;
    var k := ReplyOrigin(run, i);
    var l := ReplyOrigin(run, j);
    SameGenerationSameCompletion(run, k, l);
  }

  // ----- The leader's list

  function ListedIds(listed: seq<JoinedMember>): seq<string> {
    seq(|listed|, i requires 0 <= i < |listed| => listed[i].memberId)
  }

  lemma ListIsSorted(members: Members, name: string)
    requires Common(members, name)
    ensures ListedIds(MembersForLeader(members, name)) == Sorted(members.Keys)
  {
    var ids := Sorted(members.Keys);
    assert forall i | 0 <= i < |ids| :: ids[i] in Elements(ids);
    ListIsComplete(members, name, ids);
  }

  lemma LeaderListIsTheCohort(g: GroupView, now: Time)
    requires Standing(g, now) && (g.state == CompletingRebalance || g.state == Stable)
    ensures g.leader in g.members
    ensures ListedIds(JoinResultFor(g, g.leader).members) == Sorted(g.members.Keys)
  {
    hide SelectProtocol, Published, MembersForLeader;
    SelectSucceedsIffShared(g.members);
    ListIsSorted(g.members, g.selectedProtocol);
  }

  // The leader is told exactly the members of the generation, in sorted order.
  lemma LeaderIsToldTheMembers(run: Run, i: nat) returns (k: nat)
    requires ValidRun(run) && JoinedAt(run, i) && JoinedReply(run, i).leader == run[i].step.id
    ensures k <= i && run[k].after.state == CompletingRebalance
    ensures run[k].after.generation == JoinedReply(run, i).generation
    ensures ListedIds(JoinedReply(run, i).members) == Sorted(run[k].after.members.Keys)
    ensures Settled(run, i + 1, JoinedReply(run, i).generation) ==> CompletesAt(run, k)
  {
    hide Apply, MembersForLeader, Standing;
    k := ReplyOrigin(run, i);
    EventStands(run, k);
    LeaderListIsTheCohort(run[k].after, run[k].at);
  }

  // The bytes assigned name exactly the listed ids, each once.
  ghost predicate AssignsListed(assignments: seq<SyncAssignment>, listed: seq<JoinedMember>) {
    |AssignedIds(assignments)| == |assignments| && AssignedIds(assignments) == Elements(ListedIds(listed))
  }

  // An assignment is called invalid exactly when the leader of the completing generation gives one that
  // does not cover the members, and then it changes nothing but the leader's heartbeat.
  lemma RejectedIffUncovered(g: GroupView, now: Time, generation: int, id: string,
                             assignments: seq<SyncAssignment>, first: bool)
    ensures var r := SyncPass(g, now, generation, id, assignments, first);
            var active := if first then None else Some(id);
            && (r.reply == SyncFailed(InvalidAssignment) <==>
                  && g.state == CompletingRebalance && g.generation == generation && id == g.leader && id in g.members
                  && !DueBy(NextExpiry(g, active), now) && !CoversExactly(assignments, g.members))
            && (r.reply == SyncFailed(InvalidAssignment) ==> r.g == if first then Touch(g, id, now) else g)
  {
    hide CoversExactly, NextExpiry, AssignmentMap, RefreshSynced, StaleMembers, TransitionAfterRemoval;
    TimerAgreesWithSweep(g, now, if first then None else Some(id));
    if id in g.members {
      CoverSameKeys(assignments, g.members, Touch(g, id, now).members);
    }
  }

  lemma CoverSameKeys(assignments: seq<SyncAssignment>, a: Members, b: Members)
    requires a.Keys == b.Keys
    ensures CoversExactly(assignments, a) == CoversExactly(assignments, b)
  {
    assert |a| == |a.Keys| && |b| == |b.Keys|;
  }

  // While its generation lives, the cohort is what the leader was told; an assignment that covers
  // the list is never called invalid.
  lemma ListedAssignmentIsAccepted(run: Run, i: nat, j: nat)
    requires ValidRun(run) && JoinedAt(run, i) && j < |run| && run[j].step.Sync?
    requires JoinedReply(run, i).leader == run[i].step.id == run[j].step.id
    requires JoinedReply(run, i).generation == run[j].step.generation
    requires Settled(run, i + 1, run[j].step.generation) && Settled(run, j, run[j].step.generation)
    requires AssignsListed(run[j].step.assignments, JoinedReply(run, i).members)
    ensures run[j].reply != SyncAnswer(SyncFailed(InvalidAssignment))
  {
    hide CoversExactly, SyncPass, JoinResultFor, Standing;
    assert Linked(run, j);
    EventStands(run, j);
    if run[j].reply == SyncAnswer(SyncFailed(InvalidAssignment)) {
      var g, id := run[j].before, run[j].step.id;
      RejectedIffUncovered(g, run[j].at, run[j].step.generation, id, run[j].step.assignments, run[j].step.first);
      PublishedWhileCompleting(g, run[j].at, id);
      var k := ReplyOrigin(run, i);
      var l := CacheOrigin(run, j, id);
      GenerationOf(run[k].after, id);
      GenerationOf(run[l].after, id);
      GenerationOf(g, id);
      SameGenerationSameCompletion(run, k, l);
      LeaderListIsTheCohort(g, run[j].at);
      CoverFromIds(run[j].step.assignments, g.members);
    }
  }

  lemma PublishedWhileCompleting(g: GroupView, now: Time, id: string)
    requires Standing(g, now) && g.state == CompletingRebalance && id in g.members
    ensures g.members[id].completedJoin == Some(CompletedJoin(g.epoch, JoinResultFor(g, id)))
  {
    hide SelectProtocol, JoinResultFor;
    assert Published(g, id);
  }

  lemma GenerationOf(g: GroupView, id: string)
    ensures JoinResultFor(g, id).generation == g.generation
  {
  }

  lemma CoverFromIds(assignments: seq<SyncAssignment>, members: Members)
    requires |AssignedIds(assignments)| == |assignments| && AssignedIds(assignments) == members.Keys
    ensures CoversExactly(assignments, members)
  {
    assert |members| == |members.Keys|;
  }

  // ----- Assignments are delivered

  // Event `k` is the leader's sync that makes its generation stable.
  ghost predicate StabilizesAt(run: Run, k: nat) {
    && k < |run| && run[k].step.Sync?
    && run[k].before.state == CompletingRebalance && run[k].after.state == Stable
    && run[k].after.generation == run[k].step.generation == run[k].before.generation
    && run[k].step.id == run[k].after.leader
    && run[k].after.assignments == AssignmentMap(run[k].step.assignments)
    && |AssignedIds(run[k].step.assignments)| == |run[k].step.assignments|
  }

  lemma SyncStabilizes(g: GroupView, now: Time, generation: int, id: string,
                       assignments: seq<SyncAssignment>, first: bool)
    requires g.state == CompletingRebalance
    requires SyncPass(g, now, generation, id, assignments, first).g.state == Stable
    ensures var s := SyncPass(g, now, generation, id, assignments, first).g;
            && id == s.leader && generation == g.generation == s.generation
            && s.assignments == AssignmentMap(assignments) && CoversExactly(assignments, g.members)
  {
    hide Expire, AssignmentMap, AllSynced, CoversExactly;
    if id in g.members {
      CoverSameKeys(assignments, Touch(g, id, now).members, g.members);
    }
  }

  lemma CoverHasNoRepeats(assignments: seq<SyncAssignment>, members: Members)
    ensures CoversExactly(assignments, members) ==> |AssignedIds(assignments)| == |assignments|
  {
  }

  lemma OnlyLeaderStabilizes(g: GroupView, now: Time, step: Step)
    requires g.state == CompletingRebalance && Apply(g, now, step).g.state == Stable
    ensures step.Sync? && step.id == Apply(g, now, step).g.leader
    ensures step.generation == g.generation == Apply(g, now, step).g.generation
    ensures Apply(g, now, step).g.assignments == AssignmentMap(step.assignments)
    ensures |AssignedIds(step.assignments)| == |step.assignments|
  {
    hide SelectProtocol, Expire, Enroll, SyncPass, AssignmentMap, CoversExactly;
    if step.Sync? {
      SyncStabilizes(g, now, step.generation, step.id, step.assignments, step.first);
      CoverHasNoRepeats(step.assignments, g.members);
    }
  }

  // A group is stable only in a generation that was completing, and with the assignments it was given then.
  lemma StableComesFrom(g: GroupView, now: Time, step: Step)
    requires Apply(g, now, step).g.state == Stable
    ensures Apply(g, now, step).g.generation == g.generation
    ensures (g.state == Stable && Apply(g, now, step).g.assignments == g.assignments) || g.state == CompletingRebalance
  {
    hide SyncPass, Expire, Enroll, CompleteIfReady, TransitionAfterRemoval, StoreOffsets, SelectProtocol;
    if step.Sync? {
      SyncKeepsCaches(g, now, step.generation, step.id, step.assignments, step.first);
    }
  }

  lemma {:induction false} AssignmentOrigin(run: Run, n: nat) returns (k: nat)
    requires ValidRun(run) && n <= |run| && StateAt(run, n).state == Stable
    ensures k < n && StabilizesAt(run, k) && run[k].after.generation == StateAt(run, n).generation
    ensures StateAt(run, n).assignments == AssignmentMap(run[k].step.assignments)
    decreases n
  {
    hide Apply, AssignmentMap, AssignedIds;
    var e := run[n - 1];
    assert Linked(run, n - 1);
    StableComesFrom(e.before, e.at, e.step);
    if e.before.state == Stable {
      k := AssignmentOrigin(run, n - 1);
    } else {
      k := n - 1;
      OnlyLeaderStabilizes(e.before, e.at, e.step);
    }
  }

  lemma {:induction false} GenerationIsPast(run: Run, k: nat, n: nat)
    requires ValidRun(run) && StabilizesAt(run, k) && k < n <= |run|
    requires Settled(run, n, run[k].after.generation)
    ensures StateAt(run, n).state == CompletingRebalance ==> run[k].after.generation < StateAt(run, n).generation
    decreases n
  {
    hide Apply, CachesTraced, AssignmentMap, AssignedIds;
    RunGrows(run, k + 1, n);
    if n > k + 1 && StateAt(run, n).generation == run[k].after.generation {
      if run[k].after.generation < MAX_GENERATION {
        BelowMaxNeverSaturates(run, n);
      }
      EventIsTraced(run, n - 1);
      RunGrows(run, k + 1, n - 1);
      RunGrows(run, n - 1, n);
      GenerationIsPast(run, k, n - 1);
    }
  }

  // A generation is assigned once.
  lemma OneAssignmentPerGeneration(run: Run, j: nat, k: nat)
    requires ValidRun(run) && StabilizesAt(run, j) && StabilizesAt(run, k)
    requires run[j].after.generation == run[k].after.generation
    requires Settled(run, if j < k then k else j, run[j].after.generation)
    ensures j == k
  {
    hide Apply;
    assert Linked(run, j) && Linked(run, k);
    if j < k {
      GenerationIsPast(run, j, k);
    } else if k < j {
      GenerationIsPast(run, k, j);
    }
  }

  lemma {:induction false} AssignmentOf(assignments: seq<SyncAssignment>, id: string) returns (p: nat)
    requires id in AssignmentMap(assignments)
    ensures p < |assignments| && assignments[p] == SyncAssignment(id, AssignmentMap(assignments)[id])
  {
    p := |assignments| - 1;
    if assignments[p].memberId != id {
      p := AssignmentOf(assignments[..p], id);
    }
  }

  lemma AssignedInStable(g: GroupView, now: Time, generation: int, id: string,
                         assignments: seq<SyncAssignment>, first: bool)
    requires SyncPass(g, now, generation, id, assignments, first).reply.Assigned?
    ensures var r := SyncPass(g, now, generation, id, assignments, first);
            r.g.state == Stable && r.g.generation == generation
            && id in r.g.assignments && r.g.assignments[id] == r.reply.assignment
  {
    hide CoversExactly, AssignmentMap, Expire, AllSynced;
  }

  // Every successful sync returns exactly the bytes that the leader of its generation gave that
  // member.
  lemma SyncReturnsTheLeadersBytes(run: Run, i: nat) returns (k: nat, p: nat)
    requires ValidRun(run) && i < |run| && run[i].step.Sync?
    requires run[i].reply.SyncAnswer? && run[i].reply.sync.Assigned?
    ensures k <= i && StabilizesAt(run, k) && run[k].after.generation == run[i].step.generation
    ensures p < |run[k].step.assignments|
    ensures run[k].step.assignments[p] == SyncAssignment(run[i].step.id, run[i].reply.sync.assignment)
  {
    hide SyncPass, AssignmentMap, AssignedIds;
    assert Linked(run, i);
    var e := run[i];
    AssignedInStable(e.before, e.at, e.step.generation, e.step.id, e.step.assignments, e.step.first);
    k := AssignmentOrigin(run, i + 1);
    p := AssignmentOf(run[k].step.assignments, e.step.id);
  }

  // ----- Committed offsets

  function Lookup(offsets: map<TopicPartition, StoredOffset>, key: TopicPartition): Option<StoredOffset> {
    if key in offsets then Some(offsets[key]) else None
  }

  // The last entry for a key in one commit request.
  function LastFor(commits: seq<OffsetCommit>, key: TopicPartition): Option<StoredOffset> {
    if commits == [] then None
    else
      var rest := LastFor(commits[1..], key);
      if rest.Some? then rest
      else if commits[0].key == key then Some(commits[0].stored)
      else None
  }

  predicate AcceptedAt(run: Run, i: nat) {
    i < |run| && run[i].step.Commit? && run[i].reply == Answer(None)
  }

  // The last accepted commit of a key among the first `n` events.
  function LastAccepted(run: Run, n: nat, key: TopicPartition): Option<StoredOffset>
    requires n <= |run|
  {
    if n == 0 then None
    else if AcceptedAt(run, n - 1) && LastFor(run[n - 1].step.commits, key).Some? then
      LastFor(run[n - 1].step.commits, key)
    else LastAccepted(run, n - 1, key)
  }

  lemma {:induction false} StoredIsLast(offsets: map<TopicPartition, StoredOffset>, commits: seq<OffsetCommit>,
                                        key: TopicPartition)
    ensures Lookup(StoreOffsets(offsets, commits), key)
            == if LastFor(commits, key).Some? then LastFor(commits, key) else Lookup(offsets, key)
    decreases |commits|
  {
    if commits != [] {
      StoredIsLast(offsets[commits[0].key := commits[0].stored], commits[1..], key);
    }
  }

  lemma OnlyCommitsStore(g: GroupView, now: Time, step: Step)
    ensures Apply(g, now, step).g.offsets
            == if step.Commit? && Apply(g, now, step).reply == Answer(None)
               then StoreOffsets(g.offsets, step.commits) else g.offsets
  {
    hide SelectProtocol, Expire, Enroll, CompleteIfReady, LeaderSync, StoreOffsets;
  }

  // Over every interleaving, what is stored for a key is its last accepted commit.
  lemma {:induction false} OffsetsAreLastAccepted(run: Run, n: nat, key: TopicPartition)
    requires ValidRun(run) && n <= |run|
    ensures Lookup(StateAt(run, n).offsets, key) == LastAccepted(run, n, key)
    decreases n
  {
    hide Apply, StoreOffsets;
    if n > 0 {
      var e := run[n - 1];
      assert Linked(run, n - 1);
      OffsetsAreLastAccepted(run, n - 1, key);
      OnlyCommitsStore(e.before, e.at, e.step);
      if AcceptedAt(run, n - 1) {
        StoredIsLast(e.before.offsets, e.step.commits, key);
      }
    }
  }

  // Only a current member of the current stable generation has a commit accepted.
  lemma AcceptedCommitIsCurrent(run: Run, i: nat)
    requires ValidRun(run) && AcceptedAt(run, i)
    ensures run[i].before.state == Stable && run[i].before.generation == run[i].step.generation
    ensures run[i].step.id in run[i].before.members
    ensures run[i].after == run[i].before.(offsets := run[i].after.offsets)
  {
    hide Expire, StoreOffsets;
    assert Linked(run, i);
  }

  // ----- A blocked join is never left without a timer

  predicate JoinsTraced(a: GroupView, b: GroupView) {
    && a.epoch <= b.epoch
    && forall id | id in b.members ::
         || b.members[id].joinedEpoch == b.epoch
         || (id in a.members && a.members[id].joinedEpoch == b.members[id].joinedEpoch)
  }

  lemma CompletionKeepsJoins(g: GroupView, now: Time)
    ensures forall id | id in g.members ::
              CompleteIfReady(g, now).g.members[id].joinedEpoch == g.members[id].joinedEpoch
  {
    hide SelectProtocol, RebalanceTimeout, JoinResultFor;
  }

  lemma SyncKeepsJoins(g: GroupView, now: Time, generation: int, id: string,
                       assignments: seq<SyncAssignment>, first: bool)
    ensures JoinsTraced(g, SyncPass(g, now, generation, id, assignments, first).g)
  {
    hide Expire, SyncPass;
    SyncKeepsCaches(g, now, generation, id, assignments, first);
  }

  lemma SubmitKeepsJoins(g: GroupView, now: Time, id: string, request: JoinRequest, mayAdd: bool)
    ensures JoinsTraced(g, SubmitJoin(g, now, id, request, mayAdd).g)
  {
    hide SelectProtocol, Expire, Enroll, CompleteIfReady;
    CompletionKeepsJoins(Enroll(Expire(g, now, None), now, id, request, mayAdd), now);
  }

  lemma StepKeepsJoins(g: GroupView, now: Time, step: Step)
    ensures JoinsTraced(g, Apply(g, now, step).g)
  {
    hide Expire, SubmitJoin, CompleteIfReady, SyncPass, StoreOffsets, TransitionAfterRemoval;
    match step
    case Submit(id, request, mayAdd) => SubmitKeepsJoins(g, now, id, request, mayAdd);
    case Poll(id, epoch) => CompletionKeepsJoins(Expire(g, now, Some(id)), now);
    case Sync(generation, id, assignments, first) => SyncKeepsJoins(g, now, generation, id, assignments, first);
    case Depart(id) =>
      var swept := Expire(g, now, None);
      CompletionKeepsJoins(TransitionAfterRemoval(swept.(members := swept.members - {id}), now), now);
    case Drive => CompletionKeepsJoins(Expire(g, now, None), now);
    case _ =>
  }

  lemma {:induction false} WaiterStaysJoined(run: Run, i: nat, n: nat)
    requires ValidRun(run) && i < n <= |run| && run[i].step.Submit?
    requires run[i].reply.JoinAnswer? && run[i].reply.join.JoinWaiting?
    ensures var g := StateAt(run, n);
            && run[i].reply.join.epoch <= g.epoch
            && (run[i].step.id in g.members && g.epoch == run[i].reply.join.epoch ==>
                  g.members[run[i].step.id].joinedEpoch == g.epoch)
    decreases n
  {
    hide Apply, JoinsTraced;
    assert Linked(run, n - 1);
    if n == i + 1 {
      SubmittedIsJoined(run[i].before, run[i].at, run[i].step);
    } else {
      WaiterStaysJoined(run, i, n - 1);
      StepKeepsJoins(run[n - 1].before, run[n - 1].at, run[n - 1].step);
      JoinsTracedFor(run[n - 1].before, run[n - 1].after, run[i].step.id);
    }
  }

  lemma JoinsTracedFor(a: GroupView, b: GroupView, id: string)
    requires JoinsTraced(a, b)
    ensures a.epoch <= b.epoch
    ensures id in b.members ==> b.members[id].joinedEpoch == b.epoch
                                || (id in a.members && a.members[id].joinedEpoch == b.members[id].joinedEpoch)
  {
  }

  lemma SubmittedIsJoined(g: GroupView, now: Time, step: Step)
    requires step.Submit? && Apply(g, now, step).reply.join.JoinWaiting?
    ensures var a := Apply(g, now, step);
            a.reply.join.epoch == a.g.epoch && step.id in a.g.members && a.g.members[step.id].joinedEpoch == a.g.epoch
  {
    hide SelectProtocol, Expire, Enroll, CompleteIfReady;
    CompletionKeepsJoins(Enroll(Expire(g, now, None), now, step.id, step.request, step.mayAdd), now);
  }

  // A join that was admitted and keeps waiting waits for somebody else, under a timer.
  lemma BlockedJoinHasTimer(run: Run, i: nat, j: nat)
    requires ValidRun(run) && i < j < |run| && run[i].step.Submit?
    requires run[i].reply.JoinAnswer? && run[i].reply.join.JoinWaiting?
    requires run[j].step == Poll(run[i].step.id, run[i].reply.join.epoch)
    requires run[j].reply.JoinAnswer? && run[j].reply.join.JoinWaiting?
    ensures run[j].after.state == PreparingRebalance && run[i].step.id in run[j].after.members
    ensures exists other ::
            other in run[j].after.members && run[j].after.members[other].joinedEpoch != run[j].after.epoch
    ensures NextExpiry(run[j].after, Some(run[i].step.id)).Some?
  {
    hide PollJoin, SubmitJoin, Standing, NextExpiry;
    assert Linked(run, j);
    EventStands(run, j);
    WaiterStaysJoined(run, i, j);
    WaitingJoinHasTimer(run[j].before, run[j].at, run[i].step.id, run[i].reply.join.epoch);
  }

  // A sync that keeps waiting waits for its leader, under a timer.
  lemma BlockedSyncHasTimer(run: Run, i: nat)
    requires ValidRun(run) && i < |run| && run[i].step.Sync? && run[i].reply == SyncAnswer(SyncWaiting)
    requires Settled(run, i + 1, run[i].step.generation)
    ensures run[i].after.state == CompletingRebalance && run[i].after.leader != run[i].step.id
    ensures NextExpiry(run[i].after, Some(run[i].step.id)).Some?
  {
    hide SyncPass, Sound, NextExpiry;
    assert Linked(run, i);
    var step := run[i].step;
    WaitingKeepsGeneration(run[i].before, run[i].at, step.generation, step.id, step.assignments, step.first);
    if step.generation < MAX_GENERATION {
      BelowMaxNeverSaturates(run, i + 1);
    }
    EventIsSound(run, i);
    WaitingSyncHasTimer(run[i].before, run[i].at, step.generation, step.id, step.assignments, step.first);
  }

  lemma WaitingKeepsGeneration(g: GroupView, now: Time, generation: int, id: string,
                               assignments: seq<SyncAssignment>, first: bool)
    requires SyncPass(g, now, generation, id, assignments, first).reply.SyncWaiting?
    ensures SyncPass(g, now, generation, id, assignments, first).g.generation == generation
  {
    hide Expire;
  }

  // ----- A blocked request is answered when its timer is due

  lemma DuePollIsAnswered(g: GroupView, now: Time, id: string, epoch: nat)
    requires Standing(g, now) && id in g.members && g.epoch == epoch && g.members[id].joinedEpoch == epoch
    requires DueBy(NextExpiry(g, Some(id)), now)
    ensures PollJoin(g, now, id, epoch).reply.Joined?
  {
    hide Standing, NextExpiry, Expire, CompleteIfReady;
    if CachedJoin(g, id, epoch).None? {
      var swept := Expire(g, now, Some(id));
      WaitingIsPreparing(g, now, id);
      SweepKeepsPreparing(g, now, id);
      TimerAgreesWithSweep(g, now, Some(id));
      assert DeadlinePassed(g, now);
      assert forall other | other in swept.members :: swept.members[other].joinedEpoch == epoch;
      ExpiryStands(g, now, Some(id));
      StandingCompletes(swept, now);
      CompletedIsCached(swept, now, id);
    }
  }

  // The round of a blocked join that its timer wakes never goes on waiting: it has joined if the member
  // and its epoch are still there, and is refused otherwise.
  lemma BlockedJoinIsAnswered(run: Run, i: nat, j: nat)
    requires ValidRun(run) && i < j < |run| && run[i].step.Submit?
    requires run[i].reply.JoinAnswer? && run[i].reply.join.JoinWaiting?
    requires run[j].step == Poll(run[i].step.id, run[i].reply.join.epoch)
    requires DueBy(NextExpiry(run[j].before, Some(run[i].step.id)), run[j].at)
    ensures run[j].reply.JoinAnswer? && !run[j].reply.join.JoinWaiting?
    ensures run[i].step.id in run[j].before.members && run[j].before.epoch == run[i].reply.join.epoch ==>
              run[j].reply.join.Joined?
  {
    hide SubmitJoin, Standing, NextExpiry, Expire, CompleteIfReady;
    assert Linked(run, j);
    EventStands(run, j);
    WaiterStaysJoined(run, i, j);
    var g, id, epoch := run[j].before, run[i].step.id, run[i].reply.join.epoch;
    if id in g.members && g.epoch == epoch {
      DuePollIsAnswered(g, run[j].at, id, epoch);
    }
  }

  // The round of a sync that its timer wakes is answered, with an assignment or an error.
  lemma BlockedSyncIsAnswered(run: Run, i: nat)
    requires ValidRun(run) && i < |run| && run[i].step.Sync?
    requires DueBy(NextExpiry(run[i].before, if run[i].step.first then None else Some(run[i].step.id)), run[i].at)
    ensures run[i].reply.SyncAnswer? && run[i].reply.sync.SyncFailed?
  {
    hide NextExpiry, StaleMembers;
    assert Linked(run, i);
    TimerAgreesWithSweep(run[i].before, run[i].at, if run[i].step.first then None else Some(run[i].step.id));
  }
}
