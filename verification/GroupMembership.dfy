/** Who enters and leaves a group, over whole runs. */
module GroupMembership {
  import opened Text
  import opened GroupModel
  import opened GroupInvariant
  import opened GroupStanding
  import opened GroupRuns
  import opened GroupHistory

  // A member goes only by its own leave or because it is overdue.
  ghost predicate GoesFor(g: GroupView, now: Time, step: Step, id: string)
    requires id in g.members
  {
    step == Depart(id) || Overdue(g, now, g.members[id])
  }

  // A member comes only by its own join, with an id the coordinator gave out.
  predicate ComesBy(step: Step, id: string) {
    step.Submit? && step.id == id && step.mayAdd
  }

  ghost predicate MembershipTraced(g: GroupView, now: Time, step: Step, after: GroupView) {
    && (forall id | id in g.members && id !in after.members :: GoesFor(g, now, step, id))
    && forall id | id in after.members && id !in g.members :: ComesBy(step, id)
  }

  lemma SubmitMembership(g: GroupView, now: Time, id: string, request: JoinRequest, mayAdd: bool)
    ensures MembershipTraced(g, now, Submit(id, request, mayAdd), SubmitJoin(g, now, id, request, mayAdd).g)
  {
    hide Expire, CompleteIfReady, TransitionAfterRemoval, Enroll, SelectProtocol, CachedJoin;
  }

  lemma PollMembership(g: GroupView, now: Time, id: string, epoch: nat)
    ensures MembershipTraced(g, now, Poll(id, epoch), PollJoin(g, now, id, epoch).g)
  {
    hide Expire, CompleteIfReady, TransitionAfterRemoval, Enroll, SelectProtocol, CachedJoin;
  }

  lemma SyncMembership(g: GroupView, now: Time, generation: int, id: string, assignments: seq<SyncAssignment>,
                       first: bool)
    ensures MembershipTraced(g, now, Sync(generation, id, assignments, first),
                             SyncPass(g, now, generation, id, assignments, first).g)
  {
    hide SyncPass, Expire, Overdue;
    SyncKeepsCaches(g, now, generation, id, assignments, first);
  }

  lemma RemainingMembership(g: GroupView, now: Time, step: Step)
    requires step.Beat? || step.Depart? || step.Commit? || step.Describe? || step.Drive?
    ensures MembershipTraced(g, now, step, Apply(g, now, step).g)
  {
    hide Expire, CompleteIfReady, TransitionAfterRemoval, Enroll, SelectProtocol, StoreOffsets;
  }

  // In every run membership changes only for these reasons.
  lemma MembershipIsTraced(run: Run, i: nat)
    requires ValidRun(run) && i < |run|
    ensures MembershipTraced(run[i].before, run[i].at, run[i].step, run[i].after)
  {
    assert Linked(run, i);
    var e := run[i];
    match e.step {
      case Submit(id, request, mayAdd) => SubmitMembership(e.before, e.at, id, request, mayAdd);
      case Poll(id, epoch) => PollMembership(e.before, e.at, id, epoch);
      case Sync(generation, id, assignments, first) =>
        SyncMembership(e.before, e.at, generation, id, assignments, first);
      case _ => RemainingMembership(e.before, e.at, e.step);
    }
  }

  // ----- Heartbeats keep a member

  // In the stable group the member has synced, was last heard of at `since` or later, and has this session.
  predicate HeardSince(g: GroupView, id: string, since: Time, session: int) {
    && g.state == Stable && id in g.members
    && g.members[id].syncedGeneration == g.generation
    && g.members[id].lastHeartbeat >= since && g.members[id].sessionTimeoutMs == session
  }

  lemma StableSubmitKeeps(g: GroupView, now: Time, id: string, request: JoinRequest, mayAdd: bool, who: string,
                          since: Time, session: int)
    requires HeartbeatsSound(g, now) && HeardSince(g, who, since, session)
    requires SubmitJoin(g, now, id, request, mayAdd).g.state == Stable
    ensures HeardSince(SubmitJoin(g, now, id, request, mayAdd).g, who, since, session)
  {
    hide Expire, CompleteIfReady, TransitionAfterRemoval, Enroll, SelectProtocol, StaleMembers;
  }

  lemma StableSyncKeeps(g: GroupView, now: Time, generation: int, id: string, assignments: seq<SyncAssignment>,
                        first: bool, who: string, since: Time, session: int)
    requires HeartbeatsSound(g, now) && HeardSince(g, who, since, session)
    requires SyncPass(g, now, generation, id, assignments, first).g.state == Stable
    ensures HeardSince(SyncPass(g, now, generation, id, assignments, first).g, who, since, session)
  {
    hide Expire, CompleteIfReady, TransitionAfterRemoval, Enroll, SelectProtocol, CoversExactly, StaleMembers;
  }

  lemma StableRestKeeps(g: GroupView, now: Time, step: Step, who: string, since: Time, session: int)
    requires step.Poll? || step.Beat? || step.Depart? || step.Commit? || step.Describe? || step.Drive?
    requires HeartbeatsSound(g, now) && HeardSince(g, who, since, session) && Apply(g, now, step).g.state == Stable
    ensures HeardSince(Apply(g, now, step).g, who, since, session)
  {
    hide Expire, CompleteIfReady, TransitionAfterRemoval, Enroll, SelectProtocol, StaleMembers;
  }

  // As long as the group stays stable, whoever was heard of stays a member and keeps its session.
  lemma StableStepKeeps(g: GroupView, now: Time, step: Step, who: string, since: Time, session: int)
    requires HeartbeatsSound(g, now) && HeardSince(g, who, since, session) && Apply(g, now, step).g.state == Stable
    ensures HeardSince(Apply(g, now, step).g, who, since, session)
  {
    match step {
      case Submit(id, request, mayAdd) => StableSubmitKeeps(g, now, id, request, mayAdd, who, since, session);
      case Sync(generation, id, assignments, first) =>
        StableSyncKeeps(g, now, generation, id, assignments, first, who, since, session);
      case _ => StableRestKeeps(g, now, step, who, since, session);
    }
  }

  lemma AcceptedBeatIsHeard(g: GroupView, now: Time, generation: int, id: string)
    requires Heartbeat(g, now, generation, id).error.None?
    ensures var after := Heartbeat(g, now, generation, id).g;
            id in after.members && after.members[id].lastHeartbeat == now && after.generation == generation
  {
    hide StaleMembers;
  }

  // A heartbeat of a member synced in its generation was accepted by a stable group.
  predicate BeatAt(run: Run, h: nat) {
    && h < |run| && run[h].step.Beat? && run[h].reply == Answer(None) && run[h].after.state == Stable
    && (run[h].step.id in run[h].after.members ==>
          run[h].after.members[run[h].step.id].syncedGeneration == run[h].after.generation)
  }

  ghost predicate StableThrough(run: Run, i: nat, n: nat)
    requires n <= |run|
  {
    forall j | i <= j <= n :: StateAt(run, j).state == Stable
  }

  lemma BeatEvent(run: Run, h: nat)
    requires ValidRun(run) && BeatAt(run, h)
    ensures var id := run[h].step.id;
            && id in run[h].after.members
            && HeardSince(run[h].after, id, run[h].at, run[h].after.members[id].sessionTimeoutMs)
  {
    hide Heartbeat;
    assert Linked(run, h);
    AcceptedBeatIsHeard(run[h].before, run[h].at, run[h].step.generation, run[h].step.id);
  }

  // After an accepted heartbeat a synced member of a group that stays stable stays in it, and is not
  // overdue before its session timeout has passed.
  lemma {:induction false} HeartbeatKeepsMember(run: Run, h: nat, n: nat)
    requires ValidRun(run) && BeatAt(run, h) && h < n <= |run| && StableThrough(run, h + 1, n)
    ensures var g, id := StateAt(run, n), run[h].step.id;
            && id in run[h].after.members && HeardSince(g, id, run[h].at, run[h].after.members[id].sessionTimeoutMs)
            && forall t: Time | t < run[h].at + NonNegative(run[h].after.members[id].sessionTimeoutMs) ::
                 !Overdue(g, t, g.members[id])
    decreases n
  {
    hide ValidRun, Apply, Standing;
    BeatEvent(run, h);
    if n > h + 1 {
      HeartbeatKeepsMember(run, h, n - 1);
      EventStands(run, n - 1);
      StandingTimers(run[n - 1].before, run[n - 1].at);
      assert Linked(run, n - 1) by { LinkOf(run, n - 1); }
      var id := run[h].step.id;
      assert StateAt(run, n - 1) == run[n - 1].before && StateAt(run, n) == run[n - 1].after;
      StableStepKeeps(run[n - 1].before, run[n - 1].at, run[n - 1].step, id, run[h].at,
                      run[h].after.members[id].sessionTimeoutMs);
    }
  }

  lemma LinkOf(run: Run, i: nat)
    requires ValidRun(run) && i < |run|
    ensures Linked(run, i)
  {
  }

  // ----- A healthy group stays as it is

  predicate SameGroup(a: GroupView, b: GroupView) {
    && b.state == a.state && b.members.Keys == a.members.Keys && b.leader == a.leader
    && b.generation == a.generation && b.epoch == a.epoch && b.assignments == a.assignments
  }

  // The step is neither a join nor a leave, and nobody is overdue when it is taken.
  predicate Unprovoked(g: GroupView, now: Time, step: Step) {
    !step.Submit? && !step.Depart? && StaleMembers(g, now, None) == {}
  }

  lemma NobodyIsStale(g: GroupView, now: Time, active: Option<string>)
    requires StaleMembers(g, now, None) == {}
    ensures Expire(g, now, active) == g
  {
    hide Overdue, TransitionAfterRemoval;
    assert StaleMembers(g, now, active) <= StaleMembers(g, now, None);
  }

  lemma StableUnlessProvoked(g: GroupView, now: Time, step: Step)
    requires g.state == Stable && Unprovoked(g, now, step)
    ensures SameGroup(g, Apply(g, now, step).g)
  {
    hide CompleteWith, TransitionAfterRemoval, LeaderSync, SelectProtocol, CachedJoin, StoreOffsets, StaleMembers,
         Expire;
    NobodyIsStale(g, now, None);
    if step.Sync? || step.Poll? {
      NobodyIsStale(g, now, Some(step.id));
    }
  }

  // Without joins and leaves, a stable group in which nobody is ever overdue keeps its members, leader,
  // generation and assignments, whatever is polled, synced, committed, described or driven.
  lemma {:induction false} HealthyGroupStays(run: Run, i: nat, n: nat)
    requires ValidRun(run) && i <= n <= |run| && StateAt(run, i).state == Stable
    requires forall j | i <= j < n :: Unprovoked(run[j].before, run[j].at, run[j].step)
    ensures SameGroup(StateAt(run, i), StateAt(run, n))
    decreases n
  {
    hide Apply, Unprovoked;
    if i < n {
      HealthyGroupStays(run, i, n - 1);
      assert Linked(run, n - 1);
      StableUnlessProvoked(run[n - 1].before, run[n - 1].at, run[n - 1].step);
    }
  }

  // ----- What a reply promises its caller

  // After an accepted leave the member is gone; after a join that succeeds or waits it is a member; an
  // accepted heartbeat counts from the instant it was accepted.
  lemma RepliesTakeEffect(run: Run, i: nat)
    requires ValidRun(run) && i < |run|
    ensures run[i].step.Depart? && run[i].reply == Answer(None) ==> run[i].step.id !in run[i].after.members
    ensures run[i].step.Submit? && run[i].reply.JoinAnswer? && !run[i].reply.join.JoinFailed? ==>
              run[i].step.id in run[i].after.members
    ensures run[i].step.Beat? && run[i].reply == Answer(None) ==>
              run[i].step.id in run[i].after.members && run[i].after.members[run[i].step.id].lastHeartbeat == run[i].at
  {
    hide Expire, CompleteIfReady, TransitionAfterRemoval, Enroll, SelectProtocol, StaleMembers, SyncPass, PollJoin,
         CommitOffsets;
    assert Linked(run, i);
  }
}
