/** What every event of a run does to the fields of a group and of its members. */
module GroupFields {
  import opened Text
  import opened GroupModel
  import opened GroupInvariant
  import opened GroupStanding
  import opened GroupRuns
  import opened GroupContracts

  // A join that was not refused.
  predicate Admitted(step: Step, reply: Reply) {
    step.Submit? && reply.JoinAnswer? && !reply.join.JoinFailed?
  }

  // A sync that was answered with an assignment or goes on waiting.
  predicate Synced(step: Step, reply: Reply) {
    step.Sync? && reply.SyncAnswer? && !reply.sync.SyncFailed?
  }

  // ----- What a join records of its member

  predicate Records(m: Member, request: JoinRequest) {
    && m.clientId == request.clientId && m.protocols == request.protocols
    && m.sessionTimeoutMs == request.sessionTimeoutMs && m.rebalanceTimeoutMs == request.rebalanceTimeoutMs
  }

  predicate SameRecord(a: Member, b: Member) {
    && a.clientId == b.clientId && a.protocols == b.protocols
    && a.sessionTimeoutMs == b.sessionTimeoutMs && a.rebalanceTimeoutMs == b.rebalanceTimeoutMs
  }

  lemma CompletionKeepsRecords(g: GroupView, now: Time)
    ensures CompleteIfReady(g, now).g.members.Keys == g.members.Keys
    ensures forall id | id in g.members ::
              var m := CompleteIfReady(g, now).g.members[id];
              m == g.members[id].(completedJoin := m.completedJoin)
  {
    hide SelectProtocol, RebalanceTimeout, JoinResultFor;
  }

  // What a round of sync does to a member: nothing but a heartbeat and a record of the sync.
  predicate OnlyHeard(a: Member, b: Member) {
    b == a.(lastHeartbeat := b.lastHeartbeat, syncedGeneration := b.syncedGeneration)
  }

  lemma LeaderSyncHears(g: GroupView, now: Time, id: string, generation: int, given: seq<SyncAssignment>, other: string)
    requires id in g.members && other in g.members
    ensures var r := LeaderSync(g, now, id, generation, given).g;
            && r.members.Keys == g.members.Keys && OnlyHeard(g.members[other], r.members[other])
            && (!CoversExactly(given, g.members) ==> r == g)
            && (CoversExactly(given, g.members) ==>
                  && r.state == Stable && r.generation == g.generation
                  && r.members[other].syncedGeneration
                     == (if other == id then generation else g.members[other].syncedGeneration)
                  && r.members[other].lastHeartbeat
                     == if r.members[other].syncedGeneration == generation then now
                        else g.members[other].lastHeartbeat)
  {
    hide CoversExactly, AssignmentMap, AllSynced;
    var r := LeaderSync(g, now, id, generation, given).g;
    if CoversExactly(given, g.members) {
      assert r.members == RefreshSynced(MarkSynced(g, id, generation).members, generation, now);
    }
  }

  // A round of sync goes on from the swept group in one of three ways.
  lemma SyncGoesOn(g: GroupView, now: Time, generation: int, id: string, given: seq<SyncAssignment>, first: bool)
    ensures var s := Expire(g, now, if first then None else Some(id));
            var r := SyncPass(g, now, generation, id, given, first).g;
            if id !in s.members || generation != s.generation then r == s
            else
              var touched := if first then Touch(s, id, now) else s;
              match s.state
              case Stable => r.members == MarkSynced(touched, id, generation).members && r.state == Stable
              case CompletingRebalance =>
                if id == s.leader then r == LeaderSync(touched, now, id, generation, given).g
                else r == MarkSynced(touched, id, generation)
              case _ => r == touched
  {
    hide Expire, LeaderSync, AllSynced;
  }

  lemma SyncKeepsRecords(g: GroupView, now: Time, generation: int, id: string, given: seq<SyncAssignment>, first: bool,
                         other: string)
    ensures var s := Expire(g, now, if first then None else Some(id));
            var r := SyncPass(g, now, generation, id, given, first).g;
            other in r.members ==> other in s.members && OnlyHeard(s.members[other], r.members[other])
  {
    hide Expire, LeaderSync, SyncPass;
    SyncGoesOn(g, now, generation, id, given, first);
    var s := Expire(g, now, if first then None else Some(id));
    if id in s.members {
      var touched := if first then Touch(s, id, now) else s;
      LeaderSyncHears(touched, now, id, generation, given, if other in s.members then other else id);
    }
  }

  // ----- Heartbeats

  // The event counts as a sign of life of the member.
  predicate Heard(e: Event, id: string) {
    || (Admitted(e.step, e.reply) && e.step.id == id)
    || (e.step.Beat? && e.step.id == id && e.step.generation == e.before.generation)
    || (e.step.Sync? && e.step.id == id && e.step.generation == e.before.generation && e.step.first)
    || (e.step.Sync? && e.before.state == CompletingRebalance && e.after.state == Stable
        && id in e.after.members && e.after.members[id].syncedGeneration == e.after.generation)
  }

  // The sync that makes a generation stable is a sign of life of everybody who has synced in it.
  lemma SyncHears(g: GroupView, now: Time, generation: int, id: string, given: seq<SyncAssignment>, first: bool,
                  other: string)
    requires Standing(g, now)
    ensures var r := SyncPass(g, now, generation, id, given, first);
            var e := Event(now, Sync(generation, id, given, first), g, r.g, SyncAnswer(r.reply));
            other in r.g.members ==>
              && other in g.members
              && r.g.members[other].lastHeartbeat == (if Heard(e, other) then now else g.members[other].lastHeartbeat)
              && r.g.members[other].syncedGeneration
                 == (if Synced(e.step, e.reply) && id == other then generation else g.members[other].syncedGeneration)
  {
    hide Expire, Late, Standing, LeaderSync, SyncPass, CoversExactly, NamesEachOnce, GivenTo;
    SyncGoesOn(g, now, generation, id, given, first);
    var exempt := if first then None else Some(id);
    SweepIsExact(g, now, exempt);
    EmptyHasNobody(g, now);
    SyncAnswers(g, now, generation, id, given, first);
    var s := Expire(g, now, exempt);
    if id in s.members {
      var touched := if first then Touch(s, id, now) else s;
      LeaderSyncHears(touched, now, id, generation, given, if other in s.members then other else id);
      CoverNamesEachOnce(given, touched.members);
      SameNames(given, touched.members, g.members);
    }
  }

  // The fields that an event leaves a member with, unless it is the event of the member's own join.
  predicate MemberRule(e: Event, id: string)
    requires id in e.before.members && id in e.after.members
  {
    var a, b := e.before.members[id], e.after.members[id];
    && b.lastHeartbeat == (if Heard(e, id) then e.at else a.lastHeartbeat)
    && b.syncedGeneration
       == (if Synced(e.step, e.reply) && e.step.id == id then e.step.generation else a.syncedGeneration)
    && b.joinedEpoch == a.joinedEpoch && SameRecord(a, b)
  }

  // The fields that the member's own join leaves it with.
  predicate JoinerRule(e: Event)
    requires e.step.Submit? && e.reply.JoinAnswer? && e.step.id in e.after.members
  {
    var g, b := e.before, e.after.members[e.step.id];
    var prior := Present(g, e.at, None, e.step.id);
    && Records(b, e.step.request) && b.lastHeartbeat == e.at
    && b.syncedGeneration == (if prior then g.members[e.step.id].syncedGeneration else -1)
    && (e.reply.join.JoinWaiting? ==> b.joinedEpoch == e.after.epoch == e.reply.join.epoch)
    && (e.reply.join.Joined? ==> prior && b.joinedEpoch == g.members[e.step.id].joinedEpoch)
  }

  // The member is as it was, but for the reply it holds.
  predicate OnlyTold(e: Event, id: string) {
    && id in e.before.members && id in e.after.members
    && var a, b := e.before.members[id], e.after.members[id];
    b == a.(completedJoin := b.completedJoin)
  }

  lemma ToldFields(e: Event, id: string)
    requires OnlyTold(e, id) && !e.step.Beat? && !e.step.Sync? && (Admitted(e.step, e.reply) ==> e.step.id != id)
    ensures MemberRule(e, id)
  {
  }

  lemma SubmitOthers(e: Event, id: string)
    requires Follows(e) && e.step.Submit? && Standing(e.before, e.at) && id in e.after.members
    requires Admitted(e.step, e.reply) ==> e.step.id != id
    ensures OnlyTold(e, id)
  {
    hide Standing, SelectProtocol, Expire, Enroll, CompleteIfReady, Present, NobodyLate;
    var g, now := e.before, e.at;
    SweepIsExact(g, now, None);
    CompletionKeepsRecords(Enroll(Expire(g, now, None), now, e.step.id, e.step.request, e.step.mayAdd), now);
    if e.reply.join.JoinFailed? {
      FailedJoinChangesNothing(g, now, e.step.id, e.step.request, e.step.mayAdd);
    }
  }

  lemma SubmitJoiner(e: Event)
    requires Follows(e) && e.step.Submit? && Admitted(e.step, e.reply) && e.step.id in e.after.members
    ensures JoinerRule(e)
  {
    hide SelectProtocol, Expire, Enroll, CompleteIfReady, Late, NobodyLate;
    var g, now := e.before, e.at;
    SweepIsExact(g, now, None);
    CompletionKeepsRecords(Enroll(Expire(g, now, None), now, e.step.id, e.step.request, e.step.mayAdd), now);
  }

  lemma SubmitFields(e: Event, id: string)
    requires Follows(e) && e.step.Submit? && Standing(e.before, e.at) && id in e.after.members
    ensures if Admitted(e.step, e.reply) && e.step.id == id then JoinerRule(e)
            else id in e.before.members && MemberRule(e, id)
  {
    hide Follows, Standing, JoinerRule, MemberRule;
    if Admitted(e.step, e.reply) && e.step.id == id {
      SubmitJoiner(e);
    } else {
      SubmitOthers(e, id);
      ToldFields(e, id);
    }
  }

  lemma QuietFields(e: Event, id: string)
    requires Follows(e) && (e.step.Beat? || e.step.Commit? || e.step.Describe?) && id in e.after.members
    ensures id in e.before.members && MemberRule(e, id)
  {
    hide Expire, Late, StoreOffsets;
    SweepIsExact(e.before, e.at, None);
  }

  lemma CompletingFields(e: Event, id: string)
    requires Follows(e) && (e.step.Poll? || e.step.Drive?) && id in e.after.members
    ensures OnlyTold(e, id)
  {
    hide Expire, CompleteIfReady, NobodyLate, Present;
    var exempt := if e.step.Poll? then Some(e.step.id) else None;
    SweepIsExact(e.before, e.at, exempt);
    CompletionKeepsRecords(Expire(e.before, e.at, exempt), e.at);
  }

  lemma DepartFields(e: Event, id: string)
    requires Follows(e) && e.step.Depart? && id in e.after.members
    ensures OnlyTold(e, id)
  {
    hide Expire, CompleteIfReady, NobodyLate, Present, TransitionAfterRemoval;
    var swept := Expire(e.before, e.at, None);
    SweepIsExact(e.before, e.at, None);
    CompletionKeepsRecords(TransitionAfterRemoval(swept.(members := swept.members - {e.step.id}), e.at), e.at);
  }

  lemma SyncFields(e: Event, id: string)
    requires Follows(e) && e.step.Sync? && Standing(e.before, e.at) && id in e.after.members
    ensures id in e.before.members && MemberRule(e, id)
  {
    hide Standing, Expire, SyncPass, Late;
    var step := e.step;
    SyncHears(e.before, e.at, step.generation, step.id, step.assignments, step.first, id);
    SyncKeepsRecords(e.before, e.at, step.generation, step.id, step.assignments, step.first, id);
    SweepIsExact(e.before, e.at, if step.first then None else Some(step.id));
  }

  // In every run: a member's heartbeat, last sync and joined epoch change by its own requests, and its
  // heartbeat by the leader's sync if it has synced, and by nothing else.
  lemma MemberFieldsAreExact(run: Run, i: nat, id: string)
    requires ValidRun(run) && i < |run| && id in run[i].after.members
    ensures var e := run[i];
            if Admitted(e.step, e.reply) && e.step.id == id then JoinerRule(e)
            else id in e.before.members && MemberRule(e, id)
  {
    hide Standing, Apply, MemberRule, JoinerRule;
    assert Linked(run, i);
    EventStands(run, i);
    if run[i].step.Submit? {
      SubmitFields(run[i], id);
    } else if run[i].step.Sync? {
      SyncFields(run[i], id);
    } else if run[i].step.Depart? {
      DepartFields(run[i], id);
      ToldFields(run[i], id);
    } else if run[i].step.Poll? || run[i].step.Drive? {
      CompletingFields(run[i], id);
      ToldFields(run[i], id);
    } else {
      QuietFields(run[i], id);
    }
  }

  // The request of the member's last join that was not refused.
  function LastJoin(run: Run, n: nat, id: string): Option<JoinRequest>
    requires n <= |run|
  {
    if n == 0 then None
    else if Admitted(run[n - 1].step, run[n - 1].reply) && run[n - 1].step.id == id then Some(run[n - 1].step.request)
    else LastJoin(run, n - 1, id)
  }

  // At every point of every run a member has the client, the timeouts and the protocols of its last join.
  lemma {:induction false} MembersRecordTheirJoin(run: Run, n: nat, id: string)
    requires ValidRun(run) && n <= |run| && id in StateAt(run, n).members
    ensures LastJoin(run, n, id).Some? && Records(StateAt(run, n).members[id], LastJoin(run, n, id).value)
    decreases n
  {
    hide Apply;
    var e := run[n - 1];
    assert Linked(run, n - 1);
    MemberFieldsAreExact(run, n - 1, id);
    if !(Admitted(e.step, e.reply) && e.step.id == id) {
      MembersRecordTheirJoin(run, n - 1, id);
    }
  }
}
