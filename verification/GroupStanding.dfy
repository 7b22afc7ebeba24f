/** The part of the group invariant that needs no bound on the counters, kept by every step. */
module GroupStanding {
  import opened Text
  import opened GroupModel
  import opened ProtocolChoice
  import opened GroupInvariant

  ghost predicate Standing(g: GroupView, now: Time) {
    MembershipSound(g) && TimersSound(g) && HeartbeatsSound(g, now) && CohortSound(g)
  }

  lemma SoundStands(g: GroupView, now: Time)
    requires Sound(g, now)
    ensures Standing(g, now)
  {
  }

  lemma StandsLater(g: GroupView, now: Time, later: Time)
    requires Standing(g, now) && now <= later
    ensures Standing(g, later)
  {
    hide SelectProtocol, Agreed;
  }

  // ----- Removals and completion

  lemma RemovalStands(g: GroupView, now: Time, gone: set<string>)
    requires Standing(g, now) && gone != {} && gone <= g.members.Keys
    ensures Standing(TransitionAfterRemoval(g.(members := g.members - gone), now), now)
  {
    hide SelectProtocol, Agreed, RebalanceTimeout;
    var cut := g.members - gone;
    if cut != map[] {
      SelectSurvivesRemoval(g.members, gone);
    }
  }

  lemma ExpiryStands(g: GroupView, now: Time, active: Option<string>)
    requires Standing(g, now)
    ensures Standing(Expire(g, now, active), now)
  {
    hide Standing, RebalanceTimeout;
    var stale := StaleMembers(g, now, active);
    if stale != {} {
      RemovalStands(g, now, stale);
    }
  }

  lemma CompletionStands(g: GroupView, now: Time)
    requires Standing(g, now)
    ensures Standing(CompleteIfReady(g, now).g, now)
  {
    hide SelectProtocol, MembersForLeader, RebalanceTimeout;
    if Ready(g) {
      var protocol := SelectProtocol(g.members).value;
      var base := g.(selectedProtocol := protocol,
                     generation := NextGeneration(g.generation),
                     assignments := map[],
                     state := CompletingRebalance,
                     deadline := Some(now + RebalanceTimeout(g.members)),
                     wakeups := g.wakeups + 1);
      assert CompleteWith(g, now, protocol) == Publish(base);
      PublishKeepsCohort(base);
      assert Publish(base).members.Keys == g.members.Keys;
    }
  }

  // ----- Requests

  lemma TouchStands(g: GroupView, now: Time, id: string)
    requires Standing(g, now) && id in g.members
    ensures Standing(Touch(g, id, now), now)
  {
    hide SelectProtocol, Agreed;
    CohortKeepsAgreed(g, Touch(g, id, now));
  }

  lemma EnrollStands(g: GroupView, now: Time, id: string, req: JoinRequest, mayAdd: bool)
    requires Standing(g, now) && id != ""
    requires SelectProtocol(g.members[id := JoiningMember(g, now, id, req)]).Some?
    ensures Standing(Enroll(g, now, id, req, mayAdd), now)
  {
    hide SelectProtocol, Agreed, RebalanceTimeout;
  }

  lemma SubmitStands(g: GroupView, now: Time, id: string, req: JoinRequest, mayAdd: bool)
    requires Standing(g, now) && id != ""
    ensures Standing(SubmitJoin(g, now, id, req, mayAdd).g, now)
  {
    hide Standing, Expire, Enroll, CompleteIfReady, SelectProtocol;
    var swept := Expire(g, now, None);
    ExpiryStands(g, now, None);
    if id in swept.members {
      TouchStands(swept, now, id);
    }
    if SelectProtocol(swept.members[id := JoiningMember(swept, now, id, req)]).Some? {
      EnrollStands(swept, now, id, req, mayAdd);
      CompletionStands(Enroll(swept, now, id, req, mayAdd), now);
    }
  }

  lemma FollowerStands(g: GroupView, now: Time, id: string)
    requires Standing(g, now) && id in g.members && g.state == CompletingRebalance
    ensures Standing(MarkSynced(g, id, g.generation), now)
  {
    hide SelectProtocol, Agreed;
    CohortKeepsAgreed(g, MarkSynced(g, id, g.generation));
  }

  lemma SyncedStands(g: GroupView, now: Time, id: string)
    requires Standing(g, now) && id in g.members && g.state == Stable
    ensures Standing(ClearDeadlineIfAllSynced(MarkSynced(g, id, g.generation)).(wakeups := g.wakeups + 1), now)
  {
    hide SelectProtocol, Agreed;
    CohortKeepsAgreed(g, ClearDeadlineIfAllSynced(MarkSynced(g, id, g.generation)).(wakeups := g.wakeups + 1));
  }

  lemma LeaderSyncStands(g: GroupView, now: Time, assignments: seq<SyncAssignment>)
    requires Standing(g, now) && g.state == CompletingRebalance
    ensures Standing(LeaderSync(g, now, g.leader, g.generation, assignments).g, now)
  {
    hide SelectProtocol, Agreed, LeaderSync;
    if CoversExactly(assignments, g.members) {
      LeaderSyncEffect(g, now, assignments);
      CoverIsTheMembers(assignments, g.members);
      CohortKeepsAgreed(g, LeaderSync(g, now, g.leader, g.generation, assignments).g);
    } else {
      RejectedLeaderSync(g, now, assignments);
    }
  }

  lemma SyncStands(g: GroupView, now: Time, generation: int, id: string, assignments: seq<SyncAssignment>, first: bool)
    requires Standing(g, now)
    ensures Standing(SyncPass(g, now, generation, id, assignments, first).g, now)
  {
    hide Standing, Expire, LeaderSync, ClearDeadlineIfAllSynced;
    var swept := Expire(g, now, if first then None else Some(id));
    ExpiryStands(g, now, if first then None else Some(id));
    if Validate(swept, generation, id).None? {
      TouchStands(swept, now, id);
      var touched := if first then Touch(swept, id, now) else swept;
      if touched.state == Stable {
        SyncedStands(touched, now, id);
      } else if touched.state == CompletingRebalance {
        FollowerStands(touched, now, id);
        LeaderSyncStands(touched, now, assignments);
      }
    }
  }

  lemma LeaveStands(g: GroupView, now: Time, id: string)
    requires Standing(g, now)
    ensures Standing(Leave(g, now, id).g, now)
  {
    hide Standing, Expire, CompleteIfReady, TransitionAfterRemoval;
    var swept := Expire(g, now, None);
    ExpiryStands(g, now, None);
    if id in swept.members {
      RemovalStands(swept, now, {id});
      CompletionStands(TransitionAfterRemoval(swept.(members := swept.members - {id}), now), now);
    }
  }

  lemma CommitStands(g: GroupView, now: Time, generation: int, id: string, commits: seq<OffsetCommit>)
    requires Standing(g, now)
    ensures Standing(CommitOffsets(g, now, generation, id, commits).g, now)
  {
    hide Expire, SelectProtocol, Agreed, StoreOffsets;
    ExpiryStands(g, now, None);
    var swept := Expire(g, now, None);
    CohortKeepsAgreed(swept, swept.(offsets := StoreOffsets(swept.offsets, commits)));
  }

  // ----- What standing is enough for

  lemma StandingCompletes(g: GroupView, now: Time)
    requires Standing(g, now)
    ensures !CompleteIfReady(g, now).failed && !Ready(CompleteIfReady(g, now).g)
  {
    hide SelectProtocol, JoinResultFor, RebalanceTimeout;
    CompletionNeverFails(g, now);
  }
}
