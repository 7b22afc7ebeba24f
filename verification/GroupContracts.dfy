/** What every request is answered, said of the group it finds and of the request alone. */
module GroupContracts {
  import opened Text
  import opened GroupModel
  import opened GroupInvariant
  import opened GroupStanding
  import opened GroupRuns

  // ----- Who is late

  // The member has missed the deadline it lives by: the rebalance deadline while it is awaited, its own
  // session otherwise.
  predicate Late(g: GroupView, now: Time, id: string)
    requires id in g.members
  {
    var m := g.members[id];
    var passed := g.deadline.Some? && g.deadline.value <= now;
    var session := if m.sessionTimeoutMs < 0 then 0 else m.sessionTimeoutMs;
    || (g.state == PreparingRebalance && passed && m.joinedEpoch != g.epoch)
    || (g.state == CompletingRebalance && passed && m.syncedGeneration != g.generation)
    || (g.state == Stable && passed && m.syncedGeneration != g.generation)
    || (g.state == Stable && m.syncedGeneration == g.generation && m.lastHeartbeat + session <= now)
  }

  // The member is there once the late ones are gone; `exempt` is not asked.
  predicate Present(g: GroupView, now: Time, exempt: Option<string>, id: string) {
    id in g.members && (exempt == Some(id) || !Late(g, now, id))
  }

  predicate NobodyLate(g: GroupView, now: Time, exempt: Option<string>) {
    forall id | id in g.members :: Present(g, now, exempt, id)
  }

  // A sweep removes exactly the late; if there are any, the group is empty or prepares again.
  lemma SweepIsExact(g: GroupView, now: Time, exempt: Option<string>)
    ensures var s := Expire(g, now, exempt);
            && (forall id :: id in s.members <==> Present(g, now, exempt, id))
            && (forall id | id in s.members :: s.members[id] == g.members[id])
            && (if NobodyLate(g, now, exempt) then s == g
                else s.state == (if s.members == map[] then Empty else PreparingRebalance))
            && s.generation == g.generation
            && (s.members != map[] ==> s.protocolType == g.protocolType)
  {
    hide RebalanceTimeout;
    forall id | id in g.members ensures Overdue(g, now, g.members[id]) <==> Late(g, now, id) {
    }
    var stale := StaleMembers(g, now, exempt);
    assert NobodyLate(g, now, exempt) <==> stale == {} by {
      if !NobodyLate(g, now, exempt) {
        var id :| id in g.members && !Present(g, now, exempt, id);
        assert id in stale;
      }
    }
  }

  // ----- Heartbeats, leaves and commits

  // The four outcomes of a heartbeat.
  lemma HeartbeatIsExact(run: Run, i: nat)
    requires ValidRun(run) && i < |run| && run[i].step.Beat?
    ensures var g, now, id := run[i].before, run[i].at, run[i].step.id;
            var here := Present(g, now, None, id);
            var current := run[i].step.generation == g.generation;
            && (run[i].reply == Answer(Some(UnknownMemberId)) <==> !here)
            && (run[i].reply == Answer(Some(IllegalGeneration)) <==> here && !current)
            && (run[i].reply == Answer(Some(RebalanceInProgress)) <==>
                  here && current && (!NobodyLate(g, now, None) || g.state == PreparingRebalance))
            && (run[i].reply == Answer(None) <==>
                  here && current && NobodyLate(g, now, None) && g.state != PreparingRebalance)
  {
    hide Expire, Late, Standing;
    assert Linked(run, i);
    var g := run[i].before;
    SweepIsExact(g, run[i].at, None);
    EventStands(run, i);
    EmptyHasNobody(g, run[i].at);
  }

  // A leave succeeds exactly for a member that is not late, and takes nobody else along but the late.
  lemma LeaveIsExact(run: Run, i: nat)
    requires ValidRun(run) && i < |run| && run[i].step.Depart?
    ensures var g, now, id := run[i].before, run[i].at, run[i].step.id;
            && run[i].reply == Answer(if Present(g, now, None, id) then None else Some(UnknownMemberId))
            && forall other :: other in run[i].after.members <==> Present(g, now, None, other) && other != id
  {
    hide Expire, Late, Standing, TransitionAfterRemoval, CompleteIfReady;
    assert Linked(run, i);
    EventStands(run, i);
    LeaveNeverInconsistent(run[i].before, run[i].at, run[i].step.id);
    SweepIsExact(run[i].before, run[i].at, None);
  }

  // The four outcomes of a commit.
  lemma CommitIsExact(run: Run, i: nat)
    requires ValidRun(run) && i < |run| && run[i].step.Commit?
    ensures var g, now, id := run[i].before, run[i].at, run[i].step.id;
            var here := Present(g, now, None, id);
            var current := run[i].step.generation == g.generation;
            && (run[i].reply == Answer(Some(UnknownMemberId)) <==> !here)
            && (run[i].reply == Answer(Some(IllegalGeneration)) <==> here && !current)
            && (run[i].reply == Answer(Some(RebalanceInProgress)) <==>
                  here && current && (!NobodyLate(g, now, None) || g.state != Stable))
            && (run[i].reply == Answer(None) <==> here && current && NobodyLate(g, now, None) && g.state == Stable)
  {
    hide Expire, Late, StoreOffsets;
    assert Linked(run, i);
    SweepIsExact(run[i].before, run[i].at, None);
  }

  // ----- Syncs

  // The assignments name every member once and nobody else.
  predicate NamesEachOnce(given: seq<SyncAssignment>, members: Members) {
    && (forall i, j | 0 <= i < j < |given| :: given[i].memberId != given[j].memberId)
    && (forall i | 0 <= i < |given| :: given[i].memberId in members)
    && forall id | id in members :: Gives(given, id)
  }

  predicate Gives(given: seq<SyncAssignment>, id: string) {
    exists p :: 0 <= p < |given| && given[p].memberId == id
  }

  lemma CoverNamesEachOnce(given: seq<SyncAssignment>, members: Members)
    ensures CoversExactly(given, members) <==> NamesEachOnce(given, members)
  {
    var ids := seq(|given|, i requires 0 <= i < |given| => given[i].memberId);
    assert Elements(ids) == AssignedIds(given) by {
      forall i | 0 <= i < |given| ensures given[i].memberId in ids {
        assert ids[i] == given[i].memberId;
      }
    }
    DistinctIffAsMany(ids);
    if Distinct(ids) {
      forall i, j | 0 <= i < j < |given| ensures given[i].memberId != given[j].memberId {
        assert ids[i] != ids[j];
      }
    }
    assert |members| == |members.Keys|;
    if CoversExactly(given, members) {
      SameSizeSubset(members.Keys, AssignedIds(given));
      forall i | 0 <= i < |given| ensures given[i].memberId in members {
        assert given[i].memberId in AssignedIds(given);
      }
      forall id | id in members ensures Gives(given, id) {
        assert id in AssignedIds(given);
      }
    }
    if NamesEachOnce(given, members) {
      forall id | id in members ensures id in AssignedIds(given) {
        assert Gives(given, id);
      }
      assert AssignedIds(given) == members.Keys;
    }
  }

  // The bytes given for a member.
  predicate GivenTo(given: seq<SyncAssignment>, id: string, bytes: Payload) {
    exists p :: 0 <= p < |given| && given[p] == SyncAssignment(id, bytes)
  }

  lemma {:induction false} MapHoldsGiven(given: seq<SyncAssignment>)
    requires forall i, j | 0 <= i < j < |given| :: given[i].memberId != given[j].memberId
    ensures forall p | 0 <= p < |given| ::
              && given[p].memberId in AssignmentMap(given)
              && AssignmentMap(given)[given[p].memberId] == given[p].assignment
  {
    if given != [] {
      MapHoldsGiven(given[..|given| - 1]);
    }
  }

  // What a round of sync is answered, by the group it finds and the request.
  predicate SyncRule(g: GroupView, now: Time, generation: int, id: string, given: seq<SyncAssignment>, first: bool,
                     reply: SyncReply)
  {
    var exempt := if first then None else Some(id);
    var leads := g.state == CompletingRebalance && id == g.leader;
    if !Present(g, now, exempt, id) then reply == SyncFailed(UnknownMemberId)
    else if generation != g.generation then reply == SyncFailed(IllegalGeneration)
    else if !NobodyLate(g, now, exempt) || g.state == PreparingRebalance then reply == SyncFailed(RebalanceInProgress)
    else if g.state == Stable then id in g.assignments && reply == Assigned(g.assignments[id])
    else if !leads then reply == SyncWaiting
    else if !NamesEachOnce(given, g.members) then reply == SyncFailed(InvalidAssignment)
    else reply.Assigned? && GivenTo(given, id, reply.assignment)
  }

  lemma SyncAnswers(g: GroupView, now: Time, generation: int, id: string, given: seq<SyncAssignment>, first: bool)
    requires Standing(g, now)
    ensures SyncRule(g, now, generation, id, given, first, SyncPass(g, now, generation, id, given, first).reply)
  {
    hide Expire, Late, Standing, LeaderSync, NamesEachOnce, GivenTo, AllSynced;
    var exempt := if first then None else Some(id);
    SweepIsExact(g, now, exempt);
    EmptyHasNobody(g, now);
    if id in g.members && NobodyLate(g, now, exempt) {
      var touched := if first then Touch(g, id, now) else g;
      if g.state == Stable {
        StableAssignsEverybody(g, now, id);
      } else if g.state == CompletingRebalance {
        LeaderIsAnswered(touched, now, id, generation, given);
        SameNames(given, touched.members, g.members);
      }
    }
  }

  lemma StableAssignsEverybody(g: GroupView, now: Time, id: string)
    requires Standing(g, now) && g.state == Stable && id in g.members
    ensures id in g.assignments
  {
    hide SelectProtocol, Agreed;
    assert id in g.assignments.Keys;
  }

  lemma LeaderIsAnswered(g: GroupView, now: Time, id: string, generation: int, given: seq<SyncAssignment>)
    requires id in g.members
    ensures var reply := LeaderSync(g, now, id, generation, given).reply;
            if NamesEachOnce(given, g.members) then reply.Assigned? && GivenTo(given, id, reply.assignment)
            else reply == SyncFailed(InvalidAssignment)
  {
    hide AssignmentMap, CoversExactly, NamesEachOnce, RefreshSynced, AllSynced, GivenTo;
    CoverNamesEachOnce(given, g.members);
    if NamesEachOnce(given, g.members) {
      LeaderFindsItsOwn(given, g.members, id);
    }
  }

  // Every round of sync of every run is answered by the rule.
  lemma SyncIsExact(run: Run, i: nat)
    requires ValidRun(run) && i < |run| && run[i].step.Sync?
    ensures var step := run[i].step;
            && run[i].reply.SyncAnswer?
            && SyncRule(run[i].before, run[i].at, step.generation, step.id, step.assignments, step.first,
                        run[i].reply.sync)
  {
    hide SyncPass, SyncRule, Standing;
    assert Linked(run, i);
    EventStands(run, i);
    var step := run[i].step;
    SyncAnswers(run[i].before, run[i].at, step.generation, step.id, step.assignments, step.first);
  }

  lemma SameNames(given: seq<SyncAssignment>, a: Members, b: Members)
    ensures a.Keys == b.Keys ==> (NamesEachOnce(given, a) <==> NamesEachOnce(given, b))
  {
  }

  lemma LeaderFindsItsOwn(given: seq<SyncAssignment>, members: Members, id: string)
    requires NamesEachOnce(given, members) && id in members
    ensures id in AssignmentMap(given) && GivenTo(given, id, AssignmentMap(given)[id])
  {
    hide AssignmentMap;
    MapHoldsGiven(given);
    assert Gives(given, id);
    var p :| 0 <= p < |given| && given[p].memberId == id;
    assert given[p] == SyncAssignment(id, AssignmentMap(given)[id]);
  }
}
