/** What the replies of a whole run have to do with each other. */
module GroupHistory {
  import opened Text
  import opened GroupModel
  import opened GroupInvariant
  import opened GroupRuns

  // ----- Completed generations

  // The step that takes `a` to `b` completes a rebalance.
  predicate Completes(a: GroupView, b: GroupView) {
    b.state == CompletingRebalance && b.generation == a.generation + 1
  }

  ghost predicate CompletesAt(run: Run, k: nat) {
    k < |run| && Completes(run[k].before, run[k].after)
  }

  // One epoch completes at most once: a group that is preparing, or has just completed, in the epoch
  // it had before was preparing before.
  predicate EpochDiscipline(a: GroupView, b: GroupView) {
    && a.epoch <= b.epoch
    && (b.epoch == a.epoch && (b.state == PreparingRebalance || Completes(a, b)) ==> a.state == PreparingRebalance)
  }

  // A generation is stable only after it was completing, and its assignments never change.
  predicate GenerationDiscipline(a: GroupView, b: GroupView) {
    && (b.state == CompletingRebalance && b.generation == a.generation ==> a.state == CompletingRebalance)
    && (b.state == Stable ==> b.generation == a.generation)
    && (b.state == Stable ==> (a.state == Stable && b.assignments == a.assignments) || a.state == CompletingRebalance)
  }

  // Where a cached join reply comes from.
  ghost predicate CachesTraced(a: GroupView, b: GroupView) {
    forall id | id in b.members && b.members[id].completedJoin.Some? ::
      || (id in a.members && b.members[id].completedJoin == a.members[id].completedJoin)
      || (Completes(a, b) && b.members[id].completedJoin.value == CompletedJoin(b.epoch, JoinResultFor(b, id)))
  }

  ghost predicate Traced(a: GroupView, b: GroupView) {
    EpochDiscipline(a, b) && GenerationDiscipline(a, b) && CachesTraced(a, b)
  }

  lemma ExpiryTraced(g: GroupView, now: Time, active: Option<string>)
    requires Expire(g, now, active).epoch < MAX_EPOCH
    ensures Traced(g, Expire(g, now, active)) && !Completes(g, Expire(g, now, active))
  {
    hide RebalanceTimeout, JoinResultFor;
  }

  lemma CompletionTraced(g: GroupView, now: Time)
    requires Ready(g) ==> g.generation < MAX_GENERATION
    ensures Traced(g, CompleteIfReady(g, now).g)
    ensures CompleteIfReady(g, now).g == g || (Completes(g, CompleteIfReady(g, now).g) && g.state == PreparingRebalance)
  {
    hide RebalanceTimeout, SelectProtocol, MembersForLeader;
    if Ready(g) && SelectProtocol(g.members).Some? {
      var protocol := SelectProtocol(g.members).value;
      var base := g.(selectedProtocol := protocol,
                     generation := NextGeneration(g.generation),
                     assignments := map[],
                     state := CompletingRebalance,
                     deadline := Some(now + RebalanceTimeout(g.members)),
                     wakeups := g.wakeups + 1);
      assert CompleteWith(g, now, protocol) == Publish(base);
      PublishKeepsCohort(base);
    }
  }

  // A sweep or an enrolment followed by a completion is traced as one step.
  lemma TracedThenCompletes(a: GroupView, b: GroupView, now: Time)
    requires Traced(a, b) && b.generation == a.generation && !Completes(a, b) && (b.state == Stable ==> b == a)
    requires Counting(a, CompleteIfReady(b, now).g)
    ensures Traced(a, CompleteIfReady(b, now).g)
  {
    hide JoinResultFor, CompleteIfReady;
    UnreadyStays(b, now);
    if CompleteIfReady(b, now).g != b {
      CompletionTraced(b, now);
    }
  }

  // The reply is the one that the member's cache holds.
  predicate CachedReply(g: GroupView, id: string, result: JoinedGroup) {
    id in g.members && g.members[id].completedJoin.Some? && g.members[id].completedJoin.value.result == result
  }

  lemma EnrollTraced(g: GroupView, swept: GroupView, now: Time, id: string, req: JoinRequest, mayAdd: bool)
    requires Traced(g, swept) && !Completes(g, swept) && Enroll(swept, now, id, req, mayAdd).epoch < MAX_EPOCH
    ensures Traced(g, Enroll(swept, now, id, req, mayAdd))
  {
    hide JoinResultFor, Enroll;
  }

  lemma SubmitJoinTraced(g: GroupView, now: Time, id: string, req: JoinRequest, mayAdd: bool)
    requires Counting(g, SubmitJoin(g, now, id, req, mayAdd).g)
    ensures Traced(g, SubmitJoin(g, now, id, req, mayAdd).g)
  {
    hide JoinResultFor, SelectProtocol, Expire, CompleteIfReady, Enroll;
    var swept := Expire(g, now, None);
    var r := SubmitJoin(g, now, id, req, mayAdd);
    if swept.epoch < MAX_EPOCH {
      ExpiryTraced(g, now, None);
      var enrolled := Enroll(swept, now, id, req, mayAdd);
      if enrolled.epoch < MAX_EPOCH && r.g == CompleteIfReady(enrolled, now).g {
        EnrollTraced(g, swept, now, id, req, mayAdd);
        TracedThenCompletes(g, enrolled, now);
      }
    }
  }

  lemma PollJoinTraced(g: GroupView, now: Time, id: string, epoch: nat)
    requires Counting(g, PollJoin(g, now, id, epoch).g)
    ensures Traced(g, PollJoin(g, now, id, epoch).g)
  {
    hide JoinResultFor, SelectProtocol, Expire, CompleteIfReady;
    var swept := Expire(g, now, Some(id));
    if PollJoin(g, now, id, epoch).g == CompleteIfReady(swept, now).g {
      ExpiryTraced(g, now, Some(id));
      TracedThenCompletes(g, swept, now);
    }
  }

  lemma LeaveTraced(g: GroupView, now: Time, id: string)
    requires Counting(g, Leave(g, now, id).g)
    ensures Traced(g, Leave(g, now, id).g)
  {
    hide JoinResultFor, SelectProtocol, Expire, CompleteIfReady;
    var swept := Expire(g, now, None);
    ExpiryTraced(g, now, None);
    if id in swept.members {
      var cut := TransitionAfterRemoval(swept.(members := swept.members - {id}), now);
      assert Traced(g, cut);
      TracedThenCompletes(g, cut, now);
    }
  }

  // `b` differs from `a` in no cached join, no joined epoch and no counter, and starts or completes
  // no rebalance.
  predicate SameCaches(a: GroupView, b: GroupView) {
    && a.epoch == b.epoch && a.generation == b.generation
    && (b.state == PreparingRebalance ==> a.state == PreparingRebalance)
    && (b.state == CompletingRebalance ==> a.state == CompletingRebalance)
    && (b.state == Stable ==> (a.state == Stable && b.assignments == a.assignments) || a.state == CompletingRebalance)
    && b.members.Keys == a.members.Keys
    && forall id | id in b.members ::
         && b.members[id].completedJoin == a.members[id].completedJoin
         && b.members[id].joinedEpoch == a.members[id].joinedEpoch
  }

  lemma TracedThenSame(a: GroupView, b: GroupView, c: GroupView)
    requires Traced(a, b) && !Completes(a, b) && b.generation == a.generation && SameCaches(b, c)
    requires b == a || b.state == PreparingRebalance || b.state == Empty
    ensures Traced(a, c)
  {
    hide JoinResultFor;
  }

  lemma LeaderSyncCaches(g: GroupView, now: Time, id: string, generation: int, assignments: seq<SyncAssignment>)
    requires id in g.members && g.state == CompletingRebalance
    ensures SameCaches(g, LeaderSync(g, now, id, generation, assignments).g)
  {
    hide CoversExactly, AssignmentMap, AllSynced;
    var r := LeaderSync(g, now, id, generation, assignments);
    if CoversExactly(assignments, g.members) {
      assert r.g.members == RefreshSynced(MarkSynced(g, id, generation).members, generation, now);
    }
  }

  // A round of sync only refreshes and marks members of the swept group.
  lemma SyncKeepsCaches(g: GroupView, now: Time, generation: int, id: string,
                        assignments: seq<SyncAssignment>, first: bool)
    ensures SameCaches(Expire(g, now, if first then None else Some(id)),
                       SyncPass(g, now, generation, id, assignments, first).g)
  {
    hide Expire, LeaderSync, SameCaches, AllSynced;
    var swept := Expire(g, now, if first then None else Some(id));
    if id in swept.members {
      var touched := if first then Touch(swept, id, now) else swept;
      TouchCaches(swept, id, now, generation);
      TouchCaches(touched, id, now, generation);
      var synced := ClearDeadlineIfAllSynced(MarkSynced(touched, id, generation)).(wakeups := touched.wakeups + 1);
      SameCachesTwice(swept, touched, synced);
      SameCachesTwice(swept, touched, MarkSynced(touched, id, generation));
      if touched.state == CompletingRebalance {
        LeaderSyncCaches(touched, now, id, generation, assignments);
        SameCachesTwice(swept, touched, LeaderSync(touched, now, id, generation, assignments).g);
      }
    } else {
      SameCachesReflexive(swept);
    }
  }

  lemma SyncTraced(g: GroupView, now: Time, generation: int, id: string,
                   assignments: seq<SyncAssignment>, first: bool)
    requires Counting(g, SyncPass(g, now, generation, id, assignments, first).g)
    ensures Traced(g, SyncPass(g, now, generation, id, assignments, first).g)
  {
    hide Expire, SyncPass, Traced;
    SyncKeepsCaches(g, now, generation, id, assignments, first);
    ExpiryTraced(g, now, if first then None else Some(id));
    TracedThenSame(g, Expire(g, now, if first then None else Some(id)),
                   SyncPass(g, now, generation, id, assignments, first).g);
  }

  lemma SameCachesReflexive(g: GroupView)
    ensures SameCaches(g, g)
  {
  }

  lemma TouchCaches(g: GroupView, id: string, now: Time, generation: int)
    requires id in g.members
    ensures SameCaches(g, g) && SameCaches(g, Touch(g, id, now)) && SameCaches(g, MarkSynced(g, id, generation))
    ensures SameCaches(g, ClearDeadlineIfAllSynced(MarkSynced(g, id, generation)).(wakeups := g.wakeups + 1))
  {
  }

  lemma SameCachesTwice(a: GroupView, b: GroupView, c: GroupView)
    requires SameCaches(a, b) && SameCaches(b, c)
    ensures SameCaches(a, c)
  {
  }

  lemma StepTraced(g: GroupView, now: Time, step: Step)
    requires Counting(g, Apply(g, now, step).g)
    ensures Traced(g, Apply(g, now, step).g)
  {
    hide Traced, SubmitJoin, PollJoin, SyncPass, Leave, Expire, CompleteIfReady;
    match step
    case Submit(id, request, mayAdd) => SubmitJoinTraced(g, now, id, request, mayAdd);
    case Poll(id, epoch) => PollJoinTraced(g, now, id, epoch);
    case Sync(generation, id, assignments, first) => SyncTraced(g, now, generation, id, assignments, first);
    case Beat(generation, id) => BeatTraced(g, now, generation, id);
    case Depart(id) => LeaveTraced(g, now, id);
    case Commit(generation, id, commits) => CommitTraced(g, now, generation, id, commits);
    case Describe => ExpiryTraced(g, now, None);
    case Drive =>
      ExpiryTraced(g, now, None);
      TracedThenCompletes(g, Expire(g, now, None), now);
  }

  lemma BeatTraced(g: GroupView, now: Time, generation: int, id: string)
    requires Counting(g, Heartbeat(g, now, generation, id).g)
    ensures Traced(g, Heartbeat(g, now, generation, id).g)
  {
    hide JoinResultFor, Expire;
    ExpiryTraced(g, now, None);
  }

  lemma CommitTraced(g: GroupView, now: Time, generation: int, id: string, commits: seq<OffsetCommit>)
    requires Counting(g, CommitOffsets(g, now, generation, id, commits).g)
    ensures Traced(g, CommitOffsets(g, now, generation, id, commits).g)
  {
    hide JoinResultFor, Expire;
    ExpiryTraced(g, now, None);
  }

  // ----- Cached replies, whatever the counters

  // Every Joined reply is the one that the member's cache then holds.
  lemma RepliesAreCached(g: GroupView, now: Time, step: Step)
    requires (step.Submit? || step.Poll?) && Apply(g, now, step).reply.join.Joined?
    ensures CachedReply(Apply(g, now, step).g, step.id, Apply(g, now, step).reply.join.result)
  {
    hide SelectProtocol, Expire, CompleteIfReady, Enroll;
  }

  // `b` holds no cached join that `a` does not hold.
  predicate CachesFrom(a: GroupView, b: GroupView) {
    forall id | id in b.members && b.members[id].completedJoin.Some? ::
      id in a.members && b.members[id].completedJoin == a.members[id].completedJoin
  }

  // A cached join is the one held before, or the reply of the rebalance that the step completes.
  ghost predicate CachesKept(a: GroupView, b: GroupView) {
    forall id | id in b.members && b.members[id].completedJoin.Some? ::
      || (id in a.members && b.members[id].completedJoin == a.members[id].completedJoin)
      || (b.state == CompletingRebalance
          && b.members[id].completedJoin.value == CompletedJoin(b.epoch, JoinResultFor(b, id)))
  }

  lemma CompletionKeepsCaches(a: GroupView, b: GroupView, now: Time)
    requires CachesFrom(a, b)
    ensures CachesKept(a, CompleteIfReady(b, now).g)
  {
    hide RebalanceTimeout, SelectProtocol, MembersForLeader;
    if Ready(b) && SelectProtocol(b.members).Some? {
      var protocol := SelectProtocol(b.members).value;
      var base := b.(selectedProtocol := protocol,
                     generation := NextGeneration(b.generation),
                     assignments := map[],
                     state := CompletingRebalance,
                     deadline := Some(now + RebalanceTimeout(b.members)),
                     wakeups := b.wakeups + 1);
      assert CompleteWith(b, now, protocol) == Publish(base);
      PublishKeepsCohort(base);
    }
  }

  lemma SubmitKeepsCaches(g: GroupView, now: Time, id: string, request: JoinRequest, mayAdd: bool)
    ensures CachesKept(g, SubmitJoin(g, now, id, request, mayAdd).g)
  {
    hide SelectProtocol, Expire, CompleteIfReady, Enroll, JoinResultFor, StaleMembers;
    CompletionKeepsCaches(g, Enroll(Expire(g, now, None), now, id, request, mayAdd), now);
  }

  lemma StepKeepsCaches(g: GroupView, now: Time, step: Step)
    ensures CachesKept(g, Apply(g, now, step).g)
  {
    hide SubmitJoin, Expire, CompleteIfReady, SyncPass, TransitionAfterRemoval, StoreOffsets, JoinResultFor,
         StaleMembers;
    match step
    case Submit(id, request, mayAdd) => SubmitKeepsCaches(g, now, id, request, mayAdd);
    case Poll(id, epoch) => CompletionKeepsCaches(g, Expire(g, now, Some(id)), now);
    case Sync(generation, id, assignments, first) => SyncKeepsCaches(g, now, generation, id, assignments, first);
    case Depart(id) =>
      var swept := Expire(g, now, None);
      CompletionKeepsCaches(g, TransitionAfterRemoval(swept.(members := swept.members - {id}), now), now);
    case Drive => CompletionKeepsCaches(g, Expire(g, now, None), now);
    case _ =>
  }
}
