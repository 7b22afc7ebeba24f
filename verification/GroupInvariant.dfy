/** The joint invariant of a consumer group, and its preservation by every step. */
module GroupInvariant {
  import opened Text
  import opened GroupModel
  import opened ProtocolChoice

  // ----- The invariant

  ghost predicate MembershipSound(g: GroupView) {
    && (g.state == Empty <==> g.members == map[])
    && "" !in g.members
    && (g.members != map[] ==> g.leader in g.members && SelectProtocol(g.members).Some?)
    && (g.members == map[] ==> g.leader == "" && g.protocolType == "" && g.selectedProtocol == "")
  }

  predicate MemberCountersSound(g: GroupView, m: Member) {
    && m.joinedEpoch <= g.epoch
    && m.syncedGeneration <= g.generation
    && (m.completedJoin.Some? ==>
          && m.completedJoin.value.epoch <= g.epoch
          && m.completedJoin.value.result.generation <= g.generation
          && (g.state == PreparingRebalance ==> m.completedJoin.value.epoch < g.epoch))
  }

  // The generation trails the epoch, strictly while a rebalance is being prepared.
  predicate CountersSound(g: GroupView) {
    && 0 <= g.generation <= g.epoch
    && (g.state == PreparingRebalance ==> g.generation < g.epoch)
    && forall id | id in g.members :: MemberCountersSound(g, g.members[id])
  }

  predicate TimersSound(g: GroupView) {
    && (g.state == PreparingRebalance || g.state == CompletingRebalance ==> g.deadline.Some?)
    && (g.state == Empty ==> g.deadline.None?)
    && (g.state == Stable ==> (g.deadline.None? <==> AllSynced(g)))
  }

  ghost predicate Published(g: GroupView, id: string)
    requires id in g.members
  {
    && g.members[id].joinedEpoch == g.epoch
    && g.members[id].completedJoin == Some(CompletedJoin(g.epoch, JoinResultFor(g, id)))
  }

  // Everybody holds the join reply of the current generation.
  ghost predicate Agreed(g: GroupView) {
    && SelectProtocol(g.members) == Some(g.selectedProtocol)
    && forall id | id in g.members :: Published(g, id)
  }

  // The assignments are those of a stable group, and its cohort agrees on the generation.
  ghost predicate CohortSound(g: GroupView) {
    && (g.state != Stable ==> g.assignments == map[])
    && (g.state == Stable ==> g.assignments.Keys == g.members.Keys)
    && (g.state == Stable && g.leader in g.members ==>
          g.members[g.leader].syncedGeneration == g.generation)
    && (g.state == CompletingRebalance || g.state == Stable ==> Agreed(g))
  }

  ghost predicate GenerationSound(g: GroupView) {
    && CohortSound(g)
    && (g.state == CompletingRebalance && g.leader in g.members ==>
          g.members[g.leader].syncedGeneration != g.generation)
  }

  predicate HeartbeatsSound(g: GroupView, now: Time) {
    forall id | id in g.members :: g.members[id].lastHeartbeat <= now
  }

  ghost predicate Sound(g: GroupView, now: Time) {
    MembershipSound(g) && CountersSound(g) && TimersSound(g) && GenerationSound(g) && HeartbeatsSound(g, now)
  }

  lemma NewGroupIsSound()
    ensures Sound(NewGroup(), 0)
  {
  }

  // ----- What the protocol choice depends on

  ghost predicate SameProtocols(a: Members, b: Members) {
    a.Keys == b.Keys && forall id | id in a :: a[id].protocols == b[id].protocols
  }

  lemma {:induction false} SameFirstCommon(a: Members, b: Members, id: string, from: nat)
    requires SameProtocols(a, b) && id in a && from <= |a[id].protocols|
    ensures FirstCommon(a, a[id], from) == FirstCommon(b, b[id], from)
    decreases |a[id].protocols| - from
  {
    if from < |a[id].protocols| {
      var name := a[id].protocols[from].name;
      assert Common(a, name) == Common(b, name);
      SameFirstCommon(a, b, id, from + 1);
    }
  }

  lemma SameVoters(a: Members, b: Members, name: string)
    requires SameProtocols(a, b)
    ensures Voters(a, name) == Voters(b, name)
  {
    forall id | id in a ensures VotesFor(a, id, name) == VotesFor(b, id, name) {
      SameFirstCommon(a, b, id, 0);
    }
  }

  lemma SameElected(a: Members, b: Members, name: string)
    requires SameProtocols(a, b) && IsElected(a, name)
    ensures IsElected(b, name)
  {
    forall other: string ensures Voters(a, other) == Voters(b, other) {
      SameVoters(a, b, other);
    }
  }

  lemma SameChoice(a: Members, b: Members)
    requires SameProtocols(a, b)
    ensures SelectProtocol(a) == SelectProtocol(b)
  {
    if SelectProtocol(a).Some? {
      SameElected(a, b, SelectProtocol(a).value);
      SelectIsTheElected(b, SelectProtocol(a).value);
    } else if SelectProtocol(b).Some? {
      SameElected(b, a, SelectProtocol(b).value);
    }
  }

  lemma {:induction false} SameListing(a: Members, b: Members, name: string, ids: seq<string>)
    requires SameProtocols(a, b)
    ensures ListMembers(a, name, ids) == ListMembers(b, name, ids)
  {
    if ids != [] {
      SameListing(a, b, name, ids[1..]);
    }
  }

  // Steps that only refresh heartbeats or record syncs.
  ghost predicate SameCohort(a: GroupView, b: GroupView) {
    && a.generation == b.generation && a.epoch == b.epoch && a.leader == b.leader
    && a.protocolType == b.protocolType && a.selectedProtocol == b.selectedProtocol
    && SameProtocols(a.members, b.members)
    && forall id | id in a.members ::
         && a.members[id].joinedEpoch == b.members[id].joinedEpoch
         && a.members[id].completedJoin == b.members[id].completedJoin
  }

  lemma CohortKeepsAgreed(a: GroupView, b: GroupView)
    requires SameCohort(a, b)
    ensures SelectProtocol(a.members) == SelectProtocol(b.members)
    ensures Agreed(a) ==> Agreed(b)
  {
    hide SelectProtocol;
    SameChoice(a.members, b.members);
    SameListing(a.members, b.members, a.selectedProtocol, Sorted(a.members.Keys));
    assert forall id :: JoinResultFor(a, id) == JoinResultFor(b, id);
  }

  // ----- Removals

  lemma RemovalIsSound(g: GroupView, now: Time, gone: set<string>)
    requires Sound(g, now) && gone != {} && gone <= g.members.Keys
    requires TransitionAfterRemoval(g.(members := g.members - gone), now).epoch < MAX_EPOCH
    ensures Sound(TransitionAfterRemoval(g.(members := g.members - gone), now), now)
  {
    hide SelectProtocol, Agreed, RebalanceTimeout;
    var cut := g.members - gone;
    if cut != map[] {
      SelectSurvivesRemoval(g.members, gone);
    }
  }

  lemma ExpiryIsSound(g: GroupView, now: Time, active: Option<string>)
    requires Sound(g, now) && Expire(g, now, active).epoch < MAX_EPOCH
    ensures Sound(Expire(g, now, active), now)
  {
    hide Sound, SelectProtocol, RebalanceTimeout;
    var stale := StaleMembers(g, now, active);
    if stale != {} {
      RemovalIsSound(g, now, stale);
    }
  }

  // ----- Completion

  lemma PublishKeepsCohort(g: GroupView)
    ensures SelectProtocol(Publish(g).members) == SelectProtocol(g.members)
    ensures forall id :: JoinResultFor(Publish(g), id) == JoinResultFor(g, id)
  {
    hide SelectProtocol;
    var members := Publish(g).members;
    assert SameProtocols(g.members, members);
    SameChoice(g.members, members);
    SameListing(g.members, members, g.selectedProtocol, Sorted(g.members.Keys));
  }

  // The error return of `complete_rebalance_if_ready` is dead.
  lemma CompletionNeverFails(g: GroupView, now: Time)
    requires MembershipSound(g)
    ensures !CompleteIfReady(g, now).failed
  {
  }

  lemma UnreadyStays(g: GroupView, now: Time)
    ensures Ready(g) || CompleteIfReady(g, now).g == g
  {
  }

  lemma CompletionIsSound(g: GroupView, now: Time)
    requires Sound(g, now) && (Ready(g) ==> g.generation < MAX_GENERATION)
    ensures Sound(CompleteIfReady(g, now).g, now)
  {
    hide SelectProtocol, MembersForLeader, RebalanceTimeout;
    if Ready(g) {
      var protocol := SelectProtocol(g.members).value;
      var done := CompleteWith(g, now, protocol);
      var base := g.(selectedProtocol := protocol,
                     generation := NextGeneration(g.generation),
                     assignments := map[],
                     state := CompletingRebalance,
                     deadline := Some(now + RebalanceTimeout(g.members)),
                     wakeups := g.wakeups + 1);
      assert done == Publish(base);
      PublishKeepsCohort(base);
      assert done.members.Keys == g.members.Keys;
    }
  }

  // ----- Joins

  lemma EnrollIsSound(g: GroupView, now: Time, id: string, req: JoinRequest, mayAdd: bool)
    requires Sound(g, now) && id != ""
    requires SelectProtocol(g.members[id := JoiningMember(g, now, id, req)]).Some?
    requires Enroll(g, now, id, req, mayAdd).epoch < MAX_EPOCH
    ensures Sound(Enroll(g, now, id, req, mayAdd), now)
  {
    hide SelectProtocol, Agreed, RebalanceTimeout;
  }

  lemma TouchIsSound(g: GroupView, now: Time, id: string)
    requires Sound(g, now) && id in g.members
    ensures Sound(Touch(g, id, now), now)
  {
    hide SelectProtocol, Agreed;
    var touched := Touch(g, id, now);
    CohortKeepsAgreed(g, touched);
  }

  // The counters never go back.
  predicate CountersGrow(before: GroupView, after: GroupView) {
    before.epoch <= after.epoch && before.generation <= after.generation
  }

  // The step completes a rebalance.
  predicate Completed(before: GroupView, after: GroupView) {
    && after.state == CompletingRebalance
    && (before.state == CompletingRebalance ==> before.epoch < after.epoch)
  }

  // The step leaves room for another epoch, and completes no rebalance at the maximal generation.
  predicate Counting(before: GroupView, after: GroupView) {
    after.epoch < MAX_EPOCH && (Completed(before, after) ==> before.generation < MAX_GENERATION)
  }

  // A completing group that prepares again has started another epoch.
  predicate Restarted(before: GroupView, after: GroupView) {
    before.state == CompletingRebalance && after.state == PreparingRebalance ==> before.epoch < after.epoch
  }

  lemma ExpiryRestarts(g: GroupView, now: Time, active: Option<string>)
    requires Expire(g, now, active).epoch < MAX_EPOCH
    ensures Restarted(g, Expire(g, now, active))
  {
    hide RebalanceTimeout, StaleMembers;
  }

  lemma CompletionIsCounted(g: GroupView, b: GroupView, now: Time)
    requires Sound(b, now) && b.generation == g.generation && Restarted(g, b) && Counting(g, CompleteIfReady(b, now).g)
    ensures Sound(CompleteIfReady(b, now).g, now)
  {
    hide GenerationSound, CountersSound, TimersSound, JoinResultFor, SelectProtocol, RebalanceTimeout;
    CompletionNeverFails(b, now);
    CompletionIsSound(b, now);
  }

  lemma SubmitJoinIsSound(g: GroupView, now: Time, id: string, req: JoinRequest, mayAdd: bool)
    requires Sound(g, now) && id != ""
    ensures CountersGrow(g, SubmitJoin(g, now, id, req, mayAdd).g)
    ensures Counting(g, SubmitJoin(g, now, id, req, mayAdd).g) ==>
              Sound(SubmitJoin(g, now, id, req, mayAdd).g, now)
  {
    hide Sound, Enroll, SelectProtocol, Expire, CompleteIfReady;
    var r := SubmitJoin(g, now, id, req, mayAdd);
    var swept := Expire(g, now, None);
    if Counting(g, r.g) && req.protocols != [] && req.protocolType != "" {
      ExpiryIsSound(g, now, None);
      ExpiryRestarts(g, now, None);
      if id in swept.members {
        TouchIsSound(swept, now, id);
      }
      if SelectProtocol(swept.members[id := JoiningMember(swept, now, id, req)]).Some? {
        var enrolled := Enroll(swept, now, id, req, mayAdd);
        if r.g == CompleteIfReady(enrolled, now).g {
          EnrollIsSound(swept, now, id, req, mayAdd);
          CompletionIsCounted(g, enrolled, now);
        }
      }
    }
  }

  lemma PollJoinIsSound(g: GroupView, now: Time, id: string, epoch: nat)
    requires Sound(g, now)
    ensures CountersGrow(g, PollJoin(g, now, id, epoch).g)
    ensures Counting(g, PollJoin(g, now, id, epoch).g) ==>
              Sound(PollJoin(g, now, id, epoch).g, now)
  {
    hide Sound, SelectProtocol, RebalanceTimeout;
    var r := PollJoin(g, now, id, epoch);
    var swept := Expire(g, now, Some(id));
    if Counting(g, r.g) && r.g == CompleteIfReady(swept, now).g {
      ExpiryIsSound(g, now, Some(id));
      ExpiryRestarts(g, now, Some(id));
      CompletionIsCounted(g, swept, now);
    }
  }

  // ----- Syncs

  lemma FollowerSyncIsSound(g: GroupView, now: Time, id: string)
    requires Sound(g, now) && id in g.members && g.state == CompletingRebalance && id != g.leader
    ensures Sound(MarkSynced(g, id, g.generation), now)
  {
    hide SelectProtocol, Agreed;
    CohortKeepsAgreed(g, MarkSynced(g, id, g.generation));
  }

  lemma StableSyncIsSound(g: GroupView, now: Time, id: string, wakeups: nat)
    requires Sound(g, now) && id in g.members && g.state == Stable
    ensures Sound(ClearDeadlineIfAllSynced(MarkSynced(g, id, g.generation)).(wakeups := wakeups), now)
  {
    hide SelectProtocol, Agreed;
    var s := ClearDeadlineIfAllSynced(MarkSynced(g, id, g.generation)).(wakeups := wakeups);
    assert s.members == g.members[id := g.members[id].(syncedGeneration := g.generation)];
    assert s == g.(members := s.members, deadline := s.deadline, wakeups := wakeups);
    CohortKeepsAgreed(g, s);
  }

  lemma {:induction false} AssignmentMapKeys(assignments: seq<SyncAssignment>)
    ensures AssignmentMap(assignments).Keys == AssignedIds(assignments)
  {
    if assignments != [] {
      var front := assignments[..|assignments| - 1];
      AssignmentMapKeys(front);
      assert AssignedIds(assignments) == AssignedIds(front) + {assignments[|assignments| - 1].memberId} by {
        forall id | id in AssignedIds(front) ensures id in AssignedIds(assignments) {
          var i :| 0 <= i < |front| && front[i].memberId == id;
          assert assignments[i].memberId == id;
        }
        forall id | id in AssignedIds(assignments) && id !in AssignedIds(front)
          ensures id == assignments[|assignments| - 1].memberId
        {
          var i :| 0 <= i < |assignments| && assignments[i].memberId == id;
          if i < |front| {
            assert false;
          }
        }
      }
    }
  }

  lemma CoverIsTheMembers(assignments: seq<SyncAssignment>, members: Members)
    requires CoversExactly(assignments, members)
    ensures AssignmentMap(assignments).Keys == members.Keys
  {
    AssignmentMapKeys(assignments);
    assert |members| == |members.Keys|;
    SameSizeSubset(members.Keys, AssignedIds(assignments));
  }

  // The members after an accepted assignment: the leader has synced, the synced are alive.
  ghost predicate AfterLeaderSync(g: GroupView, now: Time, s: GroupView) {
    && SameCohort(g, s) && g.leader in g.members
    && s.state == Stable && (if AllSynced(s) then s.deadline.None? else s.deadline == g.deadline)
    && forall id | id in g.members ::
         && s.members[id].syncedGeneration == (if id == g.leader then g.generation else g.members[id].syncedGeneration)
         && s.members[id].lastHeartbeat <= now
  }

  lemma LeaderSyncEffect(g: GroupView, now: Time, assignments: seq<SyncAssignment>)
    requires g.leader in g.members && HeartbeatsSound(g, now) && CoversExactly(assignments, g.members)
    ensures var s := LeaderSync(g, now, g.leader, g.generation, assignments).g;
            AfterLeaderSync(g, now, s) && s.assignments == AssignmentMap(assignments)
  {
    hide CoversExactly, AssignmentMap;
    var s := LeaderSync(g, now, g.leader, g.generation, assignments).g;
    assert s.members == RefreshSynced(MarkSynced(g, g.leader, g.generation).members, g.generation, now);
    assert s.members.Keys == g.members.Keys;
  }

  lemma LeaderSyncIsSound(g: GroupView, now: Time, assignments: seq<SyncAssignment>)
    requires Sound(g, now) && g.state == CompletingRebalance
    ensures Sound(LeaderSync(g, now, g.leader, g.generation, assignments).g, now)
  {
    hide SelectProtocol, Agreed, LeaderSync;
    if CoversExactly(assignments, g.members) {
      var stable := LeaderSync(g, now, g.leader, g.generation, assignments).g;
      LeaderSyncEffect(g, now, assignments);
      CoverIsTheMembers(assignments, g.members);
      CohortKeepsAgreed(g, stable);
    } else {
      RejectedLeaderSync(g, now, assignments);
    }
  }

  lemma RejectedLeaderSync(g: GroupView, now: Time, assignments: seq<SyncAssignment>)
    requires g.leader in g.members && !CoversExactly(assignments, g.members)
    ensures LeaderSync(g, now, g.leader, g.generation, assignments) == Syncing(g, SyncFailed(InvalidAssignment))
  {
  }

  lemma SyncIsSound(g: GroupView, now: Time, generation: int, id: string,
                    assignments: seq<SyncAssignment>, first: bool)
    requires Sound(g, now)
    ensures CountersGrow(g, SyncPass(g, now, generation, id, assignments, first).g)
    ensures Counting(g, SyncPass(g, now, generation, id, assignments, first).g) ==>
              Sound(SyncPass(g, now, generation, id, assignments, first).g, now)
  {
    hide Sound, SelectProtocol, RebalanceTimeout, LeaderSync;
    var r := SyncPass(g, now, generation, id, assignments, first);
    var swept := Expire(g, now, if first then None else Some(id));
    if Counting(g, r.g) {
      ExpiryIsSound(g, now, if first then None else Some(id));
      if Validate(swept, generation, id).None? {
        TouchIsSound(swept, now, id);
        var touched := if first then Touch(swept, id, now) else swept;
        if touched.state == Stable {
          StableSyncIsSound(touched, now, id, touched.wakeups + 1);
        } else if touched.state == CompletingRebalance && id != touched.leader {
          FollowerSyncIsSound(touched, now, id);
        } else if touched.state == CompletingRebalance {
          LeaderSyncIsSound(touched, now, assignments);
        }
      }
    }
  }

  // ----- The remaining requests and the driver

  lemma HeartbeatIsSound(g: GroupView, now: Time, generation: int, id: string)
    requires Sound(g, now)
    ensures CountersGrow(g, Heartbeat(g, now, generation, id).g)
    ensures Counting(g, Heartbeat(g, now, generation, id).g) ==>
              Sound(Heartbeat(g, now, generation, id).g, now)
  {
    hide Sound, SelectProtocol, RebalanceTimeout;
    var swept := Expire(g, now, None);
    if Counting(g, Heartbeat(g, now, generation, id).g) {
      ExpiryIsSound(g, now, None);
      if id in swept.members {
        TouchIsSound(swept, now, id);
      }
    }
  }

  lemma LeaveIsSound(g: GroupView, now: Time, id: string)
    requires Sound(g, now)
    ensures CountersGrow(g, Leave(g, now, id).g)
    ensures Counting(g, Leave(g, now, id).g) ==>
              Sound(Leave(g, now, id).g, now)
  {
    hide Sound, SelectProtocol, RebalanceTimeout, Expire, CompleteIfReady, TransitionAfterRemoval;
    var swept := Expire(g, now, None);
    if Counting(g, Leave(g, now, id).g) {
      ExpiryIsSound(g, now, None);
      ExpiryRestarts(g, now, None);
      if id in swept.members {
        var cut := TransitionAfterRemoval(swept.(members := swept.members - {id}), now);
        MembersKeepItOpen(swept, now, id);
        RemovalIsSound(swept, now, {id});
        RemovalRestarts(swept.(members := swept.members - {id}), now);
        CompletionIsCounted(g, cut, now);
      }
    }
  }

  lemma MembersKeepItOpen(g: GroupView, now: Time, id: string)
    requires Sound(g, now) && id in g.members
    ensures g.state != Empty
  {
    hide SelectProtocol, Agreed;
  }

  lemma RemovalRestarts(g: GroupView, now: Time)
    requires TransitionAfterRemoval(g, now).epoch < MAX_EPOCH
    ensures Restarted(g, TransitionAfterRemoval(g, now))
  {
    hide RebalanceTimeout;
  }

  lemma CommitIsSound(g: GroupView, now: Time, generation: int, id: string, commits: seq<OffsetCommit>)
    requires Sound(g, now)
    ensures CountersGrow(g, CommitOffsets(g, now, generation, id, commits).g)
    ensures Counting(g, CommitOffsets(g, now, generation, id, commits).g) ==>
              Sound(CommitOffsets(g, now, generation, id, commits).g, now)
  {
    hide Sound, SelectProtocol, RebalanceTimeout;
    var swept := Expire(g, now, None);
    if swept.epoch < MAX_EPOCH {
      ExpiryIsSound(g, now, None);
      OffsetsDoNotMatter(swept, now, StoreOffsets(swept.offsets, commits));
    }
  }

  lemma OffsetsDoNotMatter(g: GroupView, now: Time, offsets: map<TopicPartition, StoredOffset>)
    requires Sound(g, now)
    ensures Sound(g.(offsets := offsets), now)
  {
    hide SelectProtocol, Agreed;
    CohortKeepsAgreed(g, g.(offsets := offsets));
  }

  lemma DriverIsSound(g: GroupView, now: Time)
    requires Sound(g, now)
    ensures CountersGrow(g, DriveDeadlines(g, now))
    ensures Counting(g, DriveDeadlines(g, now)) ==>
              Sound(DriveDeadlines(g, now), now)
  {
    hide Sound, SelectProtocol, RebalanceTimeout;
    if Counting(g, DriveDeadlines(g, now)) {
      ExpiryIsSound(g, now, None);
      ExpiryRestarts(g, now, None);
      CompletionIsCounted(g, Expire(g, now, None), now);
    }
  }
}
