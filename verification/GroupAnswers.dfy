/** What a join is answered, and what every member of a generation is told, said of the group's fields. */
module GroupAnswers {
  import opened Text
  import opened GroupModel
  import opened ProtocolChoice
  import opened GroupInvariant
  import opened GroupStanding
  import opened GroupRuns
  import opened GroupHistory
  import opened GroupReplies
  import opened GroupContracts
  import opened GroupFields
  import opened GroupRules
  import GroupCoordinator

  // ----- The election

  predicate Offers(protocols: seq<JoinProtocol>, name: string) {
    exists p :: 0 <= p < |protocols| && protocols[p].name == name
  }

  predicate OfferedByAll(members: Members, name: string) {
    forall id | id in members :: Offers(members[id].protocols, name)
  }

  // The first in the member's order that everybody offers.
  predicate FirstChoice(members: Members, id: string, name: string)
    requires id in members
  {
    var own := members[id].protocols;
    && OfferedByAll(members, name)
    && exists p :: && 0 <= p < |own| && own[p].name == name
                   && forall q | 0 <= q < p :: !OfferedByAll(members, own[q].name)
  }

  function Choosers(members: Members, name: string): set<string> {
    set id | id in members && FirstChoice(members, id, name)
  }

  // More members choose it than any other; of equals it is the smallest.
  ghost predicate Wins(members: Members, name: string) {
    && Choosers(members, name) != {}
    && forall other: string | other != name ::
         || |Choosers(members, other)| < |Choosers(members, name)|
         || (|Choosers(members, other)| == |Choosers(members, name)| && Le(name, other))
  }

  lemma ChoosersAreVoters(members: Members, name: string)
    ensures Choosers(members, name) == Voters(members, name)
  {
    hide FirstCommon;
    forall n: string ensures OfferedByAll(members, n) <==> Common(members, n) {
    }
    forall id | id in members ensures FirstChoice(members, id, name) <==> VotesFor(members, id, name) {
      var own := members[id].protocols;
      var i := FirstCommon(members, members[id], 0);
      if FirstChoice(members, id, name) {
        var p :| 0 <= p < |own| && own[p].name == name && forall q | 0 <= q < p :: !OfferedByAll(members, own[q].name);
        assert i == p;
      }
    }
  }

  // The selected protocol is the one that wins; there is one exactly if the members have one in common.
  lemma ElectionIsExact(members: Members, name: string)
    ensures SelectProtocol(members) == Some(name) <==> Wins(members, name)
    ensures SelectProtocol(members).None? <==> members == map[] || forall n: string :: !OfferedByAll(members, n)
  {
    hide Voters, Choosers, SelectProtocol;
    forall n: string ensures Choosers(members, n) == Voters(members, n) {
      ChoosersAreVoters(members, n);
    }
    SelectSucceedsIffShared(members);
    forall n: string ensures OfferedByAll(members, n) <==> Common(members, n) {
    }
    LeIsTotal(name, name);
    if Wins(members, name) {
      assert IsElected(members, name);
      SelectIsTheElected(members, name);
    }
  }

  // ----- What a member is told of its generation

  predicate FirstMetadata(protocols: seq<JoinProtocol>, name: string, metadata: Payload) {
    exists p :: && 0 <= p < |protocols| && protocols[p] == JoinProtocol(name, metadata)
                && forall q | 0 <= q < p :: protocols[q].name != name
  }

  lemma {:induction false} MetadataIsFirst(protocols: seq<JoinProtocol>, name: string)
    requires MetadataFor(protocols, name).Some?
    ensures FirstMetadata(protocols, name, MetadataFor(protocols, name).value)
  {
    var metadata := MetadataFor(protocols, name).value;
    if protocols[0].name == name {
      assert protocols[0] == JoinProtocol(name, metadata);
    } else {
      MetadataIsFirst(protocols[1..], name);
      var p :| 0 <= p < |protocols| - 1 && protocols[1..][p] == JoinProtocol(name, metadata)
               && forall q | 0 <= q < p :: protocols[1..][q].name != name;
      assert protocols[p + 1] == JoinProtocol(name, metadata);
      forall q | 0 <= q < p + 1 ensures protocols[q].name != name {
        if q > 0 {
          assert protocols[1..][q - 1] == protocols[q];
        }
      }
    }
  }

  predicate Listed(listed: seq<JoinedMember>, id: string) {
    exists i :: 0 <= i < |listed| && listed[i].memberId == id
  }

  // Every member once, in order, with its metadata for the protocol.
  predicate Lists(members: Members, name: string, listed: seq<JoinedMember>) {
    && (forall i, j | 0 <= i < j < |listed| :: Lt(listed[i].memberId, listed[j].memberId))
    && (forall i | 0 <= i < |listed| ::
          && listed[i].memberId in members
          && FirstMetadata(members[listed[i].memberId].protocols, name, listed[i].metadata))
    && forall id | id in members :: Listed(listed, id)
  }

  lemma ListedInOrder(members: Members, name: string, ids: seq<string>, listed: seq<JoinedMember>)
    requires StrictlySorted(ids) && Elements(ids) == members.Keys && |listed| == |ids|
    requires forall i | 0 <= i < |ids| :: listed[i].memberId == ids[i]
    requires forall i | 0 <= i < |ids| ::
               ids[i] in members && Some(listed[i].metadata) == MetadataFor(members[ids[i]].protocols, name)
    ensures Lists(members, name, listed)
  {
    hide Lt, FirstMetadata, MetadataFor;
    forall i | 0 <= i < |listed|
      ensures FirstMetadata(members[listed[i].memberId].protocols, name, listed[i].metadata)
    {
      MetadataIsFirst(members[ids[i]].protocols, name);
    }
    forall id | id in members ensures Listed(listed, id) {
      assert id in Elements(ids);
      var i :| 0 <= i < |ids| && ids[i] == id;
      assert listed[i].memberId == id;
    }
  }

  lemma LeaderListIsExact(members: Members, name: string)
    requires Common(members, name)
    ensures Lists(members, name, MembersForLeader(members, name))
  {
    hide Lists, MetadataFor, ListMembers, StrictlySorted;
    var ids := Sorted(members.Keys);
    assert forall i | 0 <= i < |ids| :: ids[i] in Elements(ids);
    ListIsComplete(members, name, ids);
    ListedInOrder(members, name, ids, MembersForLeader(members, name));
  }

  // The reply that tells a member of the group's generation.
  predicate Tells(g: GroupView, id: string, told: JoinedGroup) {
    && told.generation == g.generation && told.protocolType == g.protocolType
    && told.protocolName == g.selectedProtocol && told.leader == g.leader && told.memberId == id
    && (if id == g.leader then Lists(g.members, g.selectedProtocol, told.members) else told.members == [])
  }

  // In a completing or stable group, every member holds the reply of this generation and this epoch, and
  // the protocol is the one that wins.
  ghost predicate Informed(g: GroupView) {
    && Wins(g.members, g.selectedProtocol)
    && forall id | id in g.members ::
         && g.members[id].joinedEpoch == g.epoch
         && Answered(g, id, g.epoch) && Tells(g, id, g.members[id].completedJoin.value.result)
  }

  lemma PublishedTells(g: GroupView, id: string)
    requires Common(g.members, g.selectedProtocol)
    ensures Tells(g, id, JoinResultFor(g, id))
  {
    hide Lists, MembersForLeader;
    LeaderListIsExact(g.members, g.selectedProtocol);
  }

  lemma StandingIsInformed(g: GroupView, now: Time)
    requires Standing(g, now) && (g.state == CompletingRebalance || g.state == Stable)
    ensures Informed(g)
  {
    hide SelectProtocol, JoinResultFor, Tells, Wins;
    SelectSucceedsIffShared(g.members);
    ElectionIsExact(g.members, g.selectedProtocol);
    forall id | id in g.members ensures g.members[id].joinedEpoch == g.epoch && Answered(g, id, g.epoch)
        && Tells(g, id, g.members[id].completedJoin.value.result) {
      assert Published(g, id);
      PublishedTells(g, id);
    }
  }

  // At every point of every run.
  lemma MembersAreInformed(run: Run, n: nat)
    requires ValidRun(run) && n <= |run|
    requires StateAt(run, n).state == CompletingRebalance || StateAt(run, n).state == Stable
    ensures Informed(StateAt(run, n))
  {
    hide Standing, Informed;
    ReachableStands(run, n);
    StandingIsInformed(StateAt(run, n), TimeAt(run, n));
  }

  // ----- The replies that members hold

  // The reply a member holds changes only when a rebalance completes.
  predicate Retains(e: Event, id: string)
    requires id in e.after.members
  {
    e.after.members[id].completedJoin == if id in Survivors(e) then e.before.members[id].completedJoin else None
  }

  lemma CompletionRetains(e: Event, id: string)
    requires Follows(e) && Standing(e.before, e.at) && (e.step.Poll? || e.step.Drive?) && !Idle(e)
    requires id in e.after.members && !Finishes(e)
    ensures Retains(e, id)
  {
    hide Standing, RebalanceTimeout, Expire, CompleteIfReady, Late, Apply;
    var s := Expire(e.before, e.at, Exempt(e.step));
    SweepRules(e);
    StandingFacts(e.before, e.at);
    ExpiryStands(e.before, e.at, Exempt(e.step));
    CompletionRules(s, e.at);
    if e.step.Poll? {
      PollCompletes(e);
    } else {
      DriveCompletes(e);
    }
  }

  lemma DepartRetains(e: Event, id: string)
    requires Follows(e) && Standing(e.before, e.at) && e.step.Depart? && id in e.after.members && !Finishes(e)
    ensures Retains(e, id)
  {
    hide Standing, RebalanceTimeout, Expire, CompleteIfReady, Late, TransitionAfterRemoval;
    var s := Expire(e.before, e.at, None);
    SweptSurvivors(e);
    LeaveNeverInconsistent(e.before, e.at, e.step.id);
    if e.step.id in s.members {
      var cut := s.(members := s.members - {e.step.id});
      ExpiryStands(e.before, e.at, None);
      RemovalStands(s, e.at, {e.step.id});
      CompletionRules(TransitionAfterRemoval(cut, e.at), e.at);
    }
  }

  lemma JoinRetains(e: Event, id: string)
    requires Follows(e) && Standing(e.before, e.at) && e.step.Submit? && !Idle(e)
    requires id in e.after.members && !Finishes(e)
    ensures Retains(e, id)
  {
    hide Standing, RebalanceTimeout, Expire, CompleteIfReady, Late, Enroll, SelectProtocol;
    var s := Expire(e.before, e.at, None);
    SweptSurvivors(e);
    if Enrols(e) {
      EnrolCompletes(e);
      ExpiryStands(e.before, e.at, None);
      EnrollStands(s, e.at, e.step.id, e.step.request, e.step.mayAdd);
      CompletionRules(Enroll(s, e.at, e.step.id, e.step.request, e.step.mayAdd), e.at);
    } else if !Admitted(e.step, e.reply) {
      RefusedJoin(e);
    }
  }

  lemma QuietRetains(e: Event, id: string)
    requires Follows(e) && id in e.after.members
    requires e.step.Sync? || e.step.Beat? || e.step.Commit? || e.step.Describe?
    ensures Retains(e, id)
  {
    hide Expire, Late, StoreOffsets, SyncPass;
    SweptSurvivors(e);
    if e.step.Sync? {
      SyncKeepsRecords(e.before, e.at, e.step.generation, e.step.id, e.step.assignments, e.step.first, id);
    }
  }

  // In every run: a rebalance that completes tells every member, and nothing else changes what a member
  // was told.
  lemma HeldRepliesAreExact(run: Run, i: nat, id: string)
    requires ValidRun(run) && i < |run| && id in run[i].after.members && !Idle(run[i])
    ensures if Finishes(run[i]) then Informed(run[i].after) else Retains(run[i], id)
  {
    hide Standing, Apply, Informed, Retains, Finishes;
    var e := run[i];
    assert Linked(run, i);
    EventStands(run, i);
    if Finishes(e) {
      FinishedState(e);
      StandingIsInformed(e.after, e.at);
    } else if e.step.Submit? {
      JoinRetains(e, id);
    } else if e.step.Poll? || e.step.Drive? {
      CompletionRetains(e, id);
    } else if e.step.Depart? {
      DepartRetains(e, id);
    } else {
      QuietRetains(e, id);
    }
  }

  lemma FinishedState(e: Event)
    requires Finishes(e)
    ensures e.after.state == CompletingRebalance
  {
  }

  // ----- Joins

  // The protocols have a name in common with those of every other member that stays.
  ghost predicate Shares(kept: Members, id: string, protocols: seq<JoinProtocol>) {
    exists name: string :: && Offers(protocols, name)
                           && forall other | other in kept && other != id :: Offers(kept[other].protocols, name)
  }

  lemma SharingElects(kept: Members, id: string, m: Member)
    ensures Shares(kept, id, m.protocols) <==> SelectProtocol(kept[id := m]).Some?
  {
    hide SelectProtocol, Offers, Wins;
    var all := kept[id := m];
    ElectionIsExact(all, "");
    assert id in all && all[id] == m;
    if Shares(kept, id, m.protocols) {
      var name: string :| && Offers(m.protocols, name)
                          && forall other | other in kept && other != id :: Offers(kept[other].protocols, name);
      assert OfferedByAll(all, name);
    }
    if SelectProtocol(all).Some? {
      var name: string :| OfferedByAll(all, name);
      forall other | other in kept && other != id ensures Offers(kept[other].protocols, name) {
        assert other in all && all[other] == kept[other];
      }
    }
  }

  // A member of a completing generation, or one of a stable generation that does not lead it, asks for
  // what it has got.
  predicate Repeats(e: Event)
    requires e.step.Submit?
  {
    && !SomebodyLate(e) && e.step.id in e.before.members
    && (e.before.state == CompletingRebalance || (e.before.state == Stable && e.before.leader != e.step.id))
    && Records(e.before.members[e.step.id], e.step.request)
  }

  function Touched(g: GroupView, id: string, now: Time): GroupView
    requires id in g.members
  {
    g.(members := g.members[id := g.members[id].(lastHeartbeat := now)])
  }

  // What a join is answered, by the group it finds and the request.
  ghost predicate JoinRule(e: Event)
    requires e.step.Submit? && e.reply.JoinAnswer?
  {
    var g, id, request, reply := e.before, e.step.id, e.step.request, e.reply.join;
    var kept := Survivors(e);
    if request.protocols == [] || request.protocolType == "" then reply == JoinFailed(InconsistentGroupProtocol)
    else if !e.step.mayAdd && id !in kept then reply == JoinFailed(UnknownMemberId)
    else if kept != map[] && g.protocolType != request.protocolType then reply == JoinFailed(InconsistentGroupProtocol)
    else if Repeats(e) then
      && Answered(g, id, g.epoch) && reply == Joined(g.members[id].completedJoin.value.result)
      && Tells(g, id, reply.result) && e.after == Touched(g, id, e.at)
    else if !Shares(kept, id, request.protocols) then reply == JoinFailed(InconsistentGroupProtocol)
    else reply == JoinWaiting(e.after.epoch)
  }

  lemma ReuseIsRepeating(e: Event)
    requires Standing(e.before, e.at) && e.step.Submit?
    ensures var s, id := Expire(e.before, e.at, None), e.step.id;
            && (CanReuseJoin(s, id) && CachedJoin(s, id, s.epoch).Some? && JoinMatches(s.members[id], e.step.request)
                <==> Repeats(e))
            && (Repeats(e) ==>
                  && s == e.before && Answered(s, id, s.epoch)
                  && Tells(s, id, s.members[id].completedJoin.value.result))
  {
    hide Standing, Expire, Late, Tells, Wins;
    var s := Expire(e.before, e.at, None);
    SweepIsExact(e.before, e.at, None);
    if e.before.state == CompletingRebalance || e.before.state == Stable {
      StandingIsInformed(e.before, e.at);
    }
  }

  lemma JoinAnswers(e: Event)
    requires Follows(e) && Standing(e.before, e.at) && e.step.Submit? && e.reply.JoinAnswer?
    ensures JoinRule(e)
  {
    hide Standing, Expire, CompleteIfReady, Enroll, SelectProtocol, CachedJoin, JoinMatches, CanReuseJoin, Tells,
         Shares, Repeats, Survivors;
    var s := Expire(e.before, e.at, None);
    var m := JoiningMember(s, e.at, e.step.id, e.step.request);
    SweptSurvivors(e);
    SweepKeepsType(e);
    ReuseIsRepeating(e);
    SharingElects(s.members, e.step.id, m);
    ExpiryStands(e.before, e.at, None);
    if SelectProtocol(s.members[e.step.id := m]).Some? {
      EnrollStands(s, e.at, e.step.id, e.step.request, e.step.mayAdd);
      StandingCompletes(Enroll(s, e.at, e.step.id, e.step.request, e.step.mayAdd), e.at);
    }
    if Repeats(e) {
      HeldIsCached(s, e.step.id);
    }
  }

  lemma SweepKeepsType(e: Event)
    ensures var s := Expire(e.before, e.at, Exempt(e.step));
            s.members != map[] ==> s.protocolType == e.before.protocolType
  {
    hide Expire;
    SweepIsExact(e.before, e.at, Exempt(e.step));
  }

  lemma HeldIsCached(g: GroupView, id: string)
    requires Answered(g, id, g.epoch)
    ensures CachedJoin(g, id, g.epoch) == Some(g.members[id].completedJoin.value.result)
  {
  }

  // Every join of every run is answered by the rule.
  lemma JoinIsExact(run: Run, i: nat)
    requires ValidRun(run) && i < |run| && run[i].step.Submit?
    ensures run[i].reply.JoinAnswer? && JoinRule(run[i])
  {
    hide Standing, JoinRule, SubmitJoin;
    assert Linked(run, i);
    EventStands(run, i);
    JoinAnswers(run[i]);
  }

  // Every member asked for the group's type when it last joined.
  lemma {:induction false} MembersShareTheType(run: Run, n: nat, id: string)
    requires ValidRun(run) && n <= |run| && id in StateAt(run, n).members
    ensures LastJoin(run, n, id).Some? && LastJoin(run, n, id).value.protocolType == StateAt(run, n).protocolType
    decreases n
  {
    hide Apply, Survivors, Repeats, Shares, Tells, StateRule, LeaderRule, CounterRule, DeadlineRule;
    var e := run[n - 1];
    assert Linked(run, n - 1);
    GroupFieldsAreExact(run, n - 1);
    if e.step.Submit? {
      JoinIsExact(run, n - 1);
    }
    if !(Admitted(e.step, e.reply) && e.step.id == id) {
      MemberFieldsAreExact(run, n - 1, id);
      MembersShareTheType(run, n - 1, id);
      TypeStays(e, id);
    }
  }

  lemma TypeStays(e: Event, id: string)
    requires id in e.after.members && !(Admitted(e.step, e.reply) && e.step.id == id)
    requires if Idle(e) then e.after == e.before else MembershipRule(e) && TypeRule(e)
    requires e.step.Submit? ==> e.reply.JoinAnswer? && JoinRule(e)
    ensures e.after.protocolType == e.before.protocolType
  {
    hide Repeats, Shares, Tells, Survivors;
    assert !Idle(e) ==> id in Survivors(e);
  }

  // A join that repeats the member's last one is answered with the reply already published, and changes
  // nothing but the heartbeat.
  lemma RepeatedJoinIsAnswered(run: Run, i: nat)
    requires ValidRun(run) && i < |run| && run[i].step.Submit? && run[i].step.id in run[i].before.members
    requires LastJoin(run, i, run[i].step.id) == Some(run[i].step.request)
    requires NobodyLate(run[i].before, run[i].at, None)
    requires var g := run[i].before;
             g.state == CompletingRebalance || (g.state == Stable && g.leader != run[i].step.id)
    ensures var g, id, reply := run[i].before, run[i].step.id, run[i].reply;
            && reply.JoinAnswer? && reply.join.Joined?
            && g.members[id].completedJoin == Some(CompletedJoin(g.epoch, reply.join.result))
            && Tells(g, id, reply.join.result)
            && run[i].after == g.(members := g.members[id := g.members[id].(lastHeartbeat := run[i].at)])
  {
    hide Apply, Shares, Tells, Late;
    var e := run[i];
    assert Linked(run, i);
    JoinIsExact(run, i);
    MembersRecordTheirJoin(run, i, e.step.id);
    MembersShareTheType(run, i, e.step.id);
    AdmittedIsWellFormed(run, i, e.step.id);
    assert e.step.id in Survivors(e);
  }

  lemma {:induction false} AdmittedIsWellFormed(run: Run, n: nat, id: string)
    requires ValidRun(run) && n <= |run| && LastJoin(run, n, id).Some?
    ensures LastJoin(run, n, id).value.protocols != [] && LastJoin(run, n, id).value.protocolType != ""
    decreases n
  {
    hide Apply, Survivors, Repeats, Shares, Tells;
    var e := run[n - 1];
    if Admitted(e.step, e.reply) && e.step.id == id {
      JoinIsExact(run, n - 1);
    } else {
      AdmittedIsWellFormed(run, n - 1, id);
    }
  }

  // ----- Waiting rounds of a join

  // What a waiting round is answered, by the group it finds and the one it leaves.
  predicate PollRule(e: Event)
    requires e.step.Poll? && e.reply.JoinAnswer?
  {
    var g, id, epoch, reply := e.before, e.step.id, e.step.epoch, e.reply.join;
    if Answered(g, id, epoch) then reply == Joined(g.members[id].completedJoin.value.result)
    else if id !in g.members then reply == JoinFailed(UnknownMemberId)
    else if g.epoch != epoch then reply == JoinFailed(RebalanceInProgress)
    else if Finishes(e) && e.after.epoch == epoch then reply.Joined? && Tells(e.after, id, reply.result)
    else reply == JoinWaiting(epoch)
  }

  lemma WaiterSurvives(e: Event)
    requires e.step.Poll? && e.step.id in e.before.members
    ensures e.step.id in Survivors(e)
  {
  }

  // Every waiting round of every run is answered by the rule.
  lemma PollIsExact(run: Run, i: nat)
    requires ValidRun(run) && i < |run| && run[i].step.Poll?
    ensures run[i].reply.JoinAnswer? && PollRule(run[i])
  {
    hide Standing, Expire, CompleteIfReady, Tells, Finishes, Survivors, Late;
    var e := run[i];
    assert Linked(run, i);
    EventStands(run, i);
    if !Idle(e) {
      GroupFieldsAreExact(run, i);
      PollNeverInconsistent(e.before, e.at, e.step.id, e.step.epoch);
      SweptSurvivors(e);
      WaiterSurvives(e);
      HeldRepliesAreExact(run, i, e.step.id);
    }
  }

  // ----- Assignments are delivered

  // In every run: a sync is answered with bytes exactly if nobody is late, its member is in the group, its
  // generation is the group's, and either the group is stable and they are the member's assignment, or the
  // member leads a completing generation and gives them to itself along with one assignment for everybody.
  lemma AssignedIff(run: Run, i: nat, bytes: Payload)
    requires ValidRun(run) && i < |run| && run[i].step.Sync?
    ensures var g, step := run[i].before, run[i].step;
            run[i].reply == SyncAnswer(Assigned(bytes)) <==>
              && NobodyLate(g, run[i].at, if step.first then None else Some(step.id))
              && step.id in g.members && step.generation == g.generation
              && (|| (g.state == Stable && step.id in g.assignments && g.assignments[step.id] == bytes)
                  || (&& g.state == CompletingRebalance && step.id == g.leader
                      && NamesEachOnce(step.assignments, g.members) && GivenTo(step.assignments, step.id, bytes)))
  {
    hide Apply, Late;
    SyncIsExact(run, i);
    GivenOnce(run[i].step.assignments, run[i].before.members, run[i].step.id);
  }

  lemma GivenOnce(given: seq<SyncAssignment>, members: Members, id: string)
    ensures NamesEachOnce(given, members) ==>
              forall a: Payload, b: Payload | GivenTo(given, id, a) && GivenTo(given, id, b) :: a == b
  {
  }

  lemma {:induction false} AssignmentsStay(run: Run, k: nat, n: nat)
    requires ValidRun(run) && k <= n <= |run| && forall j | k <= j <= n :: StateAt(run, j).state == Stable
    ensures StateAt(run, n).assignments == StateAt(run, k).assignments
    ensures StateAt(run, n).generation == StateAt(run, k).generation
    ensures StateAt(run, n).members.Keys == StateAt(run, k).members.Keys
    decreases n
  {
    hide Apply, Standing;
    ReachableStands(run, n);
    StableAssignsMembers(StateAt(run, n), TimeAt(run, n));
    if k < n {
      var e := run[n - 1];
      assert Linked(run, n - 1);
      assert e.before == StateAt(run, n - 1);
      AssignmentsStay(run, k, n - 1);
      ReachableStands(run, n - 1);
      StableAssignsMembers(e.before, TimeAt(run, n - 1));
      StableComesFrom(e.before, e.at, e.step);
    }
  }

  lemma StableAssignsMembers(g: GroupView, now: Time)
    requires Standing(g, now) && g.state == Stable
    ensures g.assignments.Keys == g.members.Keys
  {
    hide SelectProtocol, Agreed;
  }

  // Once a generation is stable, and as long as it stays so, every sync of every member gets exactly the bytes
  // that the leader gave the member, unless somebody is late.
  lemma AssignmentsAreDelivered(run: Run, k: nat, i: nat)
    requires ValidRun(run) && k < i < |run| && run[i].step.Sync?
    requires run[k].before.state == CompletingRebalance
    requires forall j | k < j <= i :: StateAt(run, j).state == Stable
    requires run[i].step.id in run[k].after.members && run[i].step.generation == run[k].after.generation
    requires NobodyLate(run[i].before, run[i].at, if run[i].step.first then None else Some(run[i].step.id))
    ensures run[k].step.Sync? && run[k].step.id == run[k].after.leader
    ensures NamesEachOnce(run[k].step.assignments, run[k].after.members)
    ensures run[i].reply.SyncAnswer? && run[i].reply.sync.Assigned?
    ensures GivenTo(run[k].step.assignments, run[i].step.id, run[i].reply.sync.assignment)
  {
    hide Apply, Late, NamesEachOnce, AssignmentMap, AssignedIds;
    assert Linked(run, k) && Linked(run, i);
    assert StateAt(run, k + 1) == run[k].after;
    OnlyLeaderStabilizes(run[k].before, run[k].at, run[k].step);
    AssignmentsStay(run, k + 1, i);
    SyncIsExact(run, i);
    var p := AssignmentOf(run[k].step.assignments, run[i].step.id);
    GroupFieldsAreExact(run, k);
    StabilizedNames(run[k]);
  }

  lemma StabilizedNames(e: Event)
    requires GroupRule(e) && e.before.state == CompletingRebalance && e.after.state == Stable
    ensures e.step.Sync? && NamesEachOnce(e.step.assignments, e.after.members)
  {
    hide Late, Survivors, LeaderRule, CounterRule, DeadlineRule, TypeRule;
    assert Stabilizes(e);
    assert e.before.members.Keys == e.after.members.Keys by {
      StabilizingKeeps(e);
    }
    SameNames(e.step.assignments, e.before.members, e.after.members);
  }

  lemma StabilizingKeeps(e: Event)
    requires MembershipRule(e) && Stabilizes(e)
    ensures e.before.members.Keys == e.after.members.Keys
  {
    hide Late;
  }

  // ----- Fetched offsets

  // What is fetched for a key is the offset and the metadata of its last accepted commit, or nothing.
  lemma FetchedIsLastAccepted(run: Run, n: nat, key: TopicPartition)
    requires ValidRun(run) && n <= |run|
    ensures var fetched, last := GroupCoordinator.Fetch(StateAt(run, n).offsets, key), LastAccepted(run, n, key);
            && fetched.key == key
            && fetched.offset == (if last.Some? then Some(last.value.offset) else None)
            && fetched.metadata == (if last.Some? then last.value.metadata else None)
            && (key in StateAt(run, n).offsets <==> last.Some?)
  {
    hide Apply, LastAccepted;
    OffsetsAreLastAccepted(run, n, key);
  }
}
