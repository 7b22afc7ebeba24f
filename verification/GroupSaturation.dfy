/** What happens when the generation has reached its maximum: a run to a group that never empties. */
module GroupSaturation {
  import opened Text
  import opened GroupModel
  import opened ProtocolChoice
  import opened GroupDeadlines
  import opened GroupRuns

  // ----- A group of one member that rejoins again and again

  const JOIN: JoinRequest := JoinRequest("c", 10, 10, "consumer", [JoinProtocol("range", [])])
  const GIVEN: seq<SyncAssignment> := [SyncAssignment("m", [])]

  predicate Alone(g: GroupView, epoch: nat, synced: int) {
    && g.protocolType == "consumer" && g.leader == "m" && g.epoch == epoch && g.members.Keys == {"m"}
    && g.members["m"].sessionTimeoutMs == 10 && g.members["m"].rebalanceTimeoutMs == 10
    && g.members["m"].lastHeartbeat == 0 && g.members["m"].protocols == JOIN.protocols
    && g.members["m"].joinedEpoch == epoch && g.members["m"].syncedGeneration == synced
  }

  predicate AloneAndStable(g: GroupView, k: nat) {
    g.state == Stable && g.generation == k && Alone(g, k, k)
  }

  predicate AloneAndCompleting(g: GroupView, generation: int, epoch: nat, synced: int) {
    g.state == CompletingRebalance && g.generation == generation && g.deadline == Some(10) && Alone(g, epoch, synced)
  }

  lemma OneMemberAgrees(members: Members)
    requires members.Keys == {"m"} && members["m"].protocols == JOIN.protocols
    ensures SelectProtocol(members).Some?
    ensures RebalanceTimeout(members) == NonNegative(members["m"].rebalanceTimeoutMs)
  {
    assert Advertises(members["m"], "range") by { assert members["m"].protocols[0].name == "range"; }
    assert Common(members, "range");
    assert "m" in members;
    SelectSucceedsIffShared(members);
    assert (set id | id in members :: members[id].rebalanceTimeoutMs) == {members["m"].rebalanceTimeoutMs};
  }

  lemma EnrolledAlone(g: GroupView, mayAdd: bool)
    requires (g.members == map[] && g.leader == "") || (g.members.Keys == {"m"} && g.leader == "m")
    requires g.state != PreparingRebalance && g.epoch < MAX_EPOCH
    ensures var e := Enroll(g, 0, "m", JOIN, mayAdd);
            && Alone(e, g.epoch + 1, if "m" in g.members then g.members["m"].syncedGeneration else -1)
            && Ready(e) && e.generation == g.generation
            && SelectProtocol(g.members["m" := JoiningMember(g, 0, "m", JOIN)]).Some?
  {
    hide SelectProtocol, RebalanceTimeout;
    OneMemberAgrees(g.members["m" := JoiningMember(g, 0, "m", JOIN)]);
  }

  lemma CompletedAlone(e: GroupView, epoch: nat, synced: int)
    requires Alone(e, epoch, synced) && Ready(e)
    ensures var c := CompleteIfReady(e, 0);
            !c.failed && AloneAndCompleting(c.g, NextGeneration(e.generation), epoch, synced)
  {
    hide SelectProtocol, RebalanceTimeout, JoinResultFor;
    OneMemberAgrees(e.members);
  }

  // The first join, and any rejoin of the leader of a stable group, completes at once.
  lemma JoinCompletes(g: GroupView, mayAdd: bool)
    requires (g == NewGroup() && mayAdd) || (g.state == Stable && g.generation > 0 && Alone(g, g.epoch, g.generation))
    requires g.epoch < MAX_EPOCH
    ensures AloneAndCompleting(SubmitJoin(g, 0, "m", JOIN, mayAdd).g, NextGeneration(g.generation), g.epoch + 1,
                               if g == NewGroup() then -1 else g.generation)
  {
    hide SelectProtocol, Enroll, CompleteIfReady, AloneAndCompleting;
    assert StaleMembers(g, 0, None) == {};
    EnrolledAlone(g, mayAdd);
    CompletedAlone(Enroll(g, 0, "m", JOIN, mayAdd), g.epoch + 1, if g == NewGroup() then -1 else g.generation);
  }

  lemma SyncSettles(g: GroupView, k: nat, synced: int)
    requires AloneAndCompleting(g, k, k, synced)
    ensures AloneAndStable(SyncPass(g, 0, k, "m", GIVEN, true).g, k)
  {
    assert StaleMembers(g, 0, None) == {};
    assert AssignedIds(GIVEN) == {"m"} by { assert GIVEN[0].memberId == "m"; }
    assert |g.members| == |g.members.Keys| == 1;
    assert CoversExactly(GIVEN, g.members);
  }

  // ----- The run

  lemma Extended(run: Run, step: Step) returns (longer: Run)
    requires ValidRun(run) && TimeAt(run, |run|) == 0 && (step.Submit? ==> step.id != "")
    ensures ValidRun(longer) && |longer| == |run| + 1 && TimeAt(longer, |longer|) == 0
    ensures StateAt(longer, |longer|) == Apply(StateAt(run, |run|), 0, step).g
  {
    hide Apply;
    var g := StateAt(run, |run|);
    var a := Apply(g, 0, step);
    longer := run + [Event(0, step, g, a.g, a.reply)];
    forall i | 0 <= i < |longer| ensures Linked(longer, i) {
      if i < |run| {
        assert Linked(run, i);
      }
    }
  }

  // Generation `k` is reached by joining and syncing `k` times.
  lemma {:induction false} ReachGeneration(k: nat) returns (run: Run)
    requires 1 <= k <= MAX_GENERATION
    ensures ValidRun(run) && TimeAt(run, |run|) == 0 && AloneAndStable(StateAt(run, |run|), k)
  {
    hide ValidRun, SubmitJoin, SyncPass;
    var before: Run;
    if k == 1 {
      before := [];
      assert ValidRun(before) by { NothingIsValid(); }
      JoinCompletes(NewGroup(), true);
    } else {
      before := ReachGeneration(k - 1);
      JoinCompletes(StateAt(before, |before|), false);
    }
    var joined := Extended(before, Submit("m", JOIN, k == 1));
    SyncSettles(StateAt(joined, |joined|), k, if k == 1 then -1 else k - 1);
    run := Extended(joined, Sync(k, "m", GIVEN, true));
  }

  lemma NothingIsValid()
    ensures ValidRun([])
  {
  }

  // With the generation at its maximum the counter stops moving, a member synced in the old generation
  // counts as synced in the new one, and the group, which has a member, has no timer, is not ready and
  // is left alone by every later firing of the driver.
  lemma SaturatedGroupNeverEmpties() returns (run: Run)
    ensures ValidRun(run) && StateAt(run, |run|).members != map[]
    ensures var g := StateAt(run, |run|);
            NextExpiry(g, None).None? && !Ready(g) && forall now: Time :: DriveDeadlines(g, now) == g
  {
    hide ValidRun, SubmitJoin, NextExpiry, DriveDeadlines;
    var before := ReachGeneration(MAX_GENERATION);
    JoinCompletes(StateAt(before, |before|), false);
    run := Extended(before, Submit("m", JOIN, false));
    AllSyncedIsStuck(StateAt(run, |run|));
  }

  lemma AllSyncedIsStuck(g: GroupView)
    requires g.state == CompletingRebalance && AllSynced(g)
    ensures NextExpiry(g, None).None? && !Ready(g) && forall now: Time :: DriveDeadlines(g, now) == g
  {
    hide NextExpiry;
    assert forall now :: StaleMembers(g, now, None) == {};
    NeverDue(g);
  }

  lemma NeverDue(g: GroupView)
    requires forall now: Time :: StaleMembers(g, now, None) == {}
    ensures NextExpiry(g, None).None?
  {
    if NextExpiry(g, None).Some? {
      TimerAgreesWithSweep(g, NextExpiry(g, None).value, None);
    }
  }
}
