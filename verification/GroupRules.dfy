/** Who leads a group, when its rebalance is due, and when it completes, after every event of a run. */
module GroupRules {
  import opened Text
  import opened GroupModel
  import opened GroupInvariant
  import opened GroupStanding
  import opened GroupRuns
  import opened GroupContracts
  import opened GroupFields

  // ----- Who stays

  function Exempt(step: Step): Option<string> {
    if step.Poll? || (step.Sync? && !step.first) then Some(step.id) else None
  }

  function Survivors(e: Event): Members {
    map id | id in e.before.members && Present(e.before, e.at, Exempt(e.step), id) :: e.before.members[id]
  }

  lemma SweptSurvivors(e: Event)
    ensures Expire(e.before, e.at, Exempt(e.step)).members == Survivors(e)
  {
    hide Expire, Late;
    SweepIsExact(e.before, e.at, Exempt(e.step));
  }

  // The longest rebalance timeout of the members, a negative one counting as none.
  lemma LongestTimeout(members: Members)
    requires members != map[]
    ensures forall id | id in members :: members[id].rebalanceTimeoutMs <= RebalanceTimeout(members)
    ensures RebalanceTimeout(members) == 0
            || exists id :: id in members && members[id].rebalanceTimeoutMs == RebalanceTimeout(members)
  {
    var timeouts := set id | id in members :: members[id].rebalanceTimeoutMs;
    var some := Pick(members.Keys);
    assert members[some].rebalanceTimeoutMs in timeouts;
    forall id | id in members ensures members[id].rebalanceTimeoutMs <= RebalanceTimeout(members) {
      assert members[id].rebalanceTimeoutMs in timeouts;
    }
    var longest := Greatest(timeouts);
    var id :| id in members && members[id].rebalanceTimeoutMs == longest;
  }

  // ----- The leader

  // A leader that stays leads on; otherwise the smallest id that stays leads; otherwise the one that joins.
  ghost predicate LeaderRule(e: Event) {
    var stay := if e.step.Depart? then Survivors(e) - {e.step.id} else Survivors(e);
    if e.before.leader in stay then e.after.leader == e.before.leader
    else if stay != map[] then e.after.leader in stay && forall id | id in stay :: Le(e.after.leader, id)
    else e.after.leader == if Admitted(e.step, e.reply) then e.step.id else ""
  }

  // What a sweep, and a removal, do to the leader, the epoch and the deadline.
  lemma RemovalRules(g: GroupView, now: Time)
    ensures var r := TransitionAfterRemoval(g, now);
            && (g.leader in g.members ==> r.leader == g.leader)
            && (g.leader !in g.members && g.members != map[] ==>
                  r.leader in g.members && forall id | id in g.members :: Le(r.leader, id))
            && (g.members == map[] ==> r.state == Empty && r.leader == "" && r.deadline.None? && r.protocolType == "")
            && (g.members != map[] ==>
                  && r.state == PreparingRebalance && r.protocolType == g.protocolType
                  && r.deadline == if g.state == PreparingRebalance then g.deadline
                                   else Some(now + RebalanceTimeout(g.members)))
  {
    hide RebalanceTimeout;
  }

  lemma SweepRules(e: Event)
    requires Standing(e.before, e.at)
    ensures var s, kept := Expire(e.before, e.at, Exempt(e.step)), Survivors(e);
            && s.members == kept
            && (e.before.leader in kept ==> s.leader == e.before.leader)
            && (e.before.leader !in kept && kept != map[] ==>
                  s.leader in kept && forall id | id in kept :: Le(s.leader, id))
            && (kept == map[] ==> s.state == Empty && s.leader == "" && s.deadline.None? && s.protocolType == "")
            && (kept != map[] ==> s.protocolType == e.before.protocolType)
            && (if NobodyLate(e.before, e.at, Exempt(e.step)) then s == e.before
                else kept != map[] ==>
                  && s.state == PreparingRebalance
                  && s.deadline == if e.before.state == PreparingRebalance then e.before.deadline
                                   else Some(e.at + RebalanceTimeout(kept)))
  {
    hide RebalanceTimeout, Late, TransitionAfterRemoval, Agreed, SelectProtocol;
    var g, exempt := e.before, Exempt(e.step);
    SweptSurvivors(e);
    SweepIsExact(g, e.at, exempt);
    RemovalRules(g.(members := g.members - StaleMembers(g, e.at, exempt)), e.at);
  }

  // ----- Counters and deadline

  // A join that is not answered from the cache.
  predicate Enrols(e: Event) {
    Admitted(e.step, e.reply) && e.reply.join.JoinWaiting?
  }

  predicate Departs(e: Event) {
    e.step.Depart? && e.reply == Answer(None)
  }

  // A rebalance was already being prepared, and goes on.
  predicate Running(e: Event) {
    e.before.state == PreparingRebalance && Survivors(e) != map[]
  }

  predicate SomebodyLate(e: Event) {
    !NobodyLate(e.before, e.at, Exempt(e.step))
  }

  // The event completes a rebalance.
  predicate Finishes(e: Event) {
    && e.after.state == CompletingRebalance
    && (e.before.state == CompletingRebalance ==> SomebodyLate(e) || Enrols(e) || Departs(e))
  }

  // The event starts another rebalance: somebody is late, joins or leaves while none is being prepared.
  predicate Starts(e: Event) {
    || (!Running(e) && SomebodyLate(e) && Survivors(e) != map[])
    || (!Running(e) && Enrols(e))
    || (!Running(e) && Departs(e) && e.after.members != map[])
  }

  predicate CounterRule(e: Event) {
    && e.after.epoch == (if Starts(e) && e.before.epoch < MAX_EPOCH then e.before.epoch + 1 else e.before.epoch)
    && e.after.generation
       == (if Finishes(e) && e.before.generation < MAX_GENERATION then e.before.generation + 1 else e.before.generation)
  }

  function Later(a: Time, b: Time): Time {
    if a <= b then b else a
  }

  predicate EverybodyJoined(g: GroupView) {
    forall id | id in g.members :: g.members[id].joinedEpoch == g.epoch
  }

  predicate EverybodySynced(g: GroupView) {
    forall id | id in g.members :: g.members[id].syncedGeneration == g.generation
  }

  // The steps that complete a rebalance once everybody has joined.
  predicate MayFinish(e: Event) {
    Enrols(e) || Departs(e) || e.step.Poll? || e.step.Drive?
  }

  // The leader's assignments for its completing generation are accepted.
  predicate Stabilizes(e: Event) {
    && e.step.Sync? && !SomebodyLate(e) && e.before.state == CompletingRebalance
    && e.step.id == e.before.leader && e.step.generation == e.before.generation
    && NamesEachOnce(e.step.assignments, e.before.members)
  }

  // A rebalance is prepared until everybody has joined, completes until the leader has synced, and is
  // stable until somebody is late, joins or leaves.
  predicate StateRule(e: Event) {
    e.after.state == if e.after.members == map[] then Empty
                     else if Running(e) || Starts(e) then
                       if MayFinish(e) && EverybodyJoined(e.after) then CompletingRebalance else PreparingRebalance
                     else if Stabilizes(e) then Stable
                     else e.before.state
  }

  // A new rebalance, and a new generation, gets the longest timeout of its members; a newcomer can only
  // prolong a rebalance; nothing else moves the deadline but everybody having synced.
  ghost predicate DeadlineRule(e: Event) {
    var mine := e.at + RebalanceTimeout(e.after.members);
    match e.after.state
    case Empty => e.after.deadline.None?
    case Stable => e.after.deadline == (if EverybodySynced(e.after) then None else e.before.deadline)
    case CompletingRebalance => e.after.deadline == (if Finishes(e) then Some(mine) else e.before.deadline)
    case PreparingRebalance =>
      var kept := Survivors(e);
      var base := if Running(e) then e.before.deadline
                  else if SomebodyLate(e) && kept != map[] then Some(e.at + RebalanceTimeout(kept))
                  else Some(mine);
      && base.Some?
      && e.after.deadline == Some(if Enrols(e) && e.step.mayAdd then Later(base.value, mine) else base.value)
  }

  predicate TypeRule(e: Event) {
    e.after.protocolType == if e.after.members == map[] then ""
                            else if Admitted(e.step, e.reply) then e.step.request.protocolType
                            else e.before.protocolType
  }

  // The late go, the one that leaves goes, and the one that joins comes.
  ghost predicate MembershipRule(e: Event) {
    forall id :: id in e.after.members <==>
      (id in Survivors(e) && !(Departs(e) && id == e.step.id)) || (Admitted(e.step, e.reply) && id == e.step.id)
  }

  ghost predicate GroupRule(e: Event) {
    MembershipRule(e) && StateRule(e) && LeaderRule(e) && CounterRule(e) && DeadlineRule(e) && TypeRule(e)
  }

  // ----- One event

  lemma SameLongest(a: Members, b: Members)
    requires a.Keys == b.Keys && forall id | id in a :: a[id].rebalanceTimeoutMs == b[id].rebalanceTimeoutMs
    ensures RebalanceTimeout(a) == RebalanceTimeout(b)
  {
    assert (set id | id in a :: a[id].rebalanceTimeoutMs) == (set id | id in b :: b[id].rebalanceTimeoutMs);
  }

  lemma CompletionRules(g: GroupView, now: Time)
    requires Standing(g, now)
    ensures var c := CompleteIfReady(g, now).g;
            && c.leader == g.leader && c.protocolType == g.protocolType && c.epoch == g.epoch
            && c.members.Keys == g.members.Keys && RebalanceTimeout(c.members) == RebalanceTimeout(g.members)
            && (EverybodyJoined(c) <==> EverybodyJoined(g))
            && (if g.state == PreparingRebalance && EverybodyJoined(g) then
                  && c.state == CompletingRebalance && c.generation == NextGeneration(g.generation)
                  && c.deadline == Some(now + RebalanceTimeout(g.members))
                else c == g)
  {
    hide SelectProtocol, RebalanceTimeout, JoinResultFor;
    CompletionNeverFails(g, now);
    CompletionKeepsRecords(g, now);
    SameLongest(g.members, CompleteIfReady(g, now).g.members);
  }

  // A sweep, then a completion if everybody has joined.
  lemma CompletingRules(e: Event)
    requires Standing(e.before, e.at) && (e.step.Poll? || e.step.Drive?)
    requires e.after == CompleteIfReady(Expire(e.before, e.at, Exempt(e.step)), e.at).g
    ensures GroupRule(e)
  {
    hide Standing, RebalanceTimeout, Expire, CompleteIfReady, Late, Survivors, EverybodySynced;
    SweepRules(e);
    SweepCounts(e);
    ExpiryStands(e.before, e.at, Exempt(e.step));
    CompletionRules(Expire(e.before, e.at, Exempt(e.step)), e.at);
    StandingFacts(e.before, e.at);
  }

  // The rebalance is where it was.
  ghost predicate Undisturbed(a: GroupView, b: GroupView) {
    && b.leader == a.leader && b.protocolType == a.protocolType && b.epoch == a.epoch && b.generation == a.generation
    && b.members.Keys == a.members.Keys && RebalanceTimeout(b.members) == RebalanceTimeout(a.members)
  }

  // Nothing but a sync that finds the group stable, or leaves it so, touches the deadline.
  predicate KeepsTime(a: GroupView, b: GroupView) {
    if b.state == Stable then
      && (a.state == Stable || a.state == CompletingRebalance)
      && b.deadline == if EverybodySynced(b) then None else a.deadline
    else b.state == a.state && b.deadline == a.deadline
  }

  // A sweep, and nothing after it that concerns the rebalance.
  ghost predicate OnlySweeps(e: Event) {
    var s := Expire(e.before, e.at, Exempt(e.step));
    && !Admitted(e.step, e.reply) && !e.step.Depart? && !e.step.Poll? && !e.step.Drive?
    && Undisturbed(s, e.after) && KeepsTime(s, e.after)
    && e.after.state == if Stabilizes(e) then Stable else s.state
  }

  lemma SweepingRules(e: Event)
    requires Standing(e.before, e.at) && OnlySweeps(e)
    ensures GroupRule(e)
  {
    hide Standing, RebalanceTimeout, Expire, Late, Survivors, EverybodySynced;
    SweepRules(e);
    SweepCounts(e);
    StandingFacts(e.before, e.at);
  }

  lemma TouchUndisturbed(g: GroupView, now: Time, id: string, generation: int)
    requires id in g.members
    ensures Undisturbed(g, Touch(g, id, now)) && Undisturbed(g, MarkSynced(g, id, generation))
    ensures EverybodySynced(Touch(g, id, now)) <==> EverybodySynced(g)
    ensures Touch(g, id, now).(members := g.members) == g && MarkSynced(g, id, generation).(members := g.members) == g
  {
    hide RebalanceTimeout, EverybodySynced;
    SameLongest(g.members, Touch(g, id, now).members);
    SameSynced(g, Touch(g, id, now));
    SameLongest(g.members, MarkSynced(g, id, generation).members);
  }

  lemma QuietOnlySweeps(e: Event)
    requires Follows(e) && Standing(e.before, e.at) && (e.step.Beat? || e.step.Commit? || e.step.Describe?)
    ensures OnlySweeps(e)
  {
    hide Standing, RebalanceTimeout, Expire, EverybodySynced, StoreOffsets;
    var s := Expire(e.before, e.at, None);
    ExpiryStands(e.before, e.at, None);
    StandingFacts(s, e.at);
    SameSynced(s, s.(offsets := e.after.offsets));
    if e.step.Beat? && e.step.id in s.members {
      TouchUndisturbed(s, e.at, e.step.id, e.step.generation);
    }
  }

  lemma SameSynced(a: GroupView, b: GroupView)
    requires a.generation == b.generation && a.members.Keys == b.members.Keys
    requires forall id | id in a.members :: a.members[id].syncedGeneration == b.members[id].syncedGeneration
    ensures (EverybodySynced(a) <==> EverybodySynced(b)) && (EverybodySynced(a) <==> AllSynced(a))
  {
  }

  lemma LeaderSyncUndisturbed(g: GroupView, now: Time, id: string, generation: int, given: seq<SyncAssignment>)
    requires id in g.members && g.state == CompletingRebalance
    ensures Undisturbed(g, LeaderSync(g, now, id, generation, given).g)
    ensures KeepsTime(g, LeaderSync(g, now, id, generation, given).g)
  {
    hide AssignmentMap, CoversExactly, RebalanceTimeout;
    var r := LeaderSync(g, now, id, generation, given).g;
    if CoversExactly(given, g.members) {
      assert r.members == RefreshSynced(MarkSynced(g, id, generation).members, generation, now);
      SameLongest(g.members, r.members);
    }
  }

  lemma StableSyncUndisturbed(e: Event)
    requires Follows(e) && e.step.Sync?
    requires var s := Expire(e.before, e.at, Exempt(e.step));
             s.state == Stable && e.step.id in s.members && e.step.generation == s.generation
    ensures var s := Expire(e.before, e.at, Exempt(e.step));
            Undisturbed(s, e.after) && KeepsTime(s, e.after)
  {
    hide RebalanceTimeout, Expire, EverybodySynced, AllSynced;
    var s, id := Expire(e.before, e.at, Exempt(e.step)), e.step.id;
    var touched := if e.step.first then Touch(s, id, e.at) else s;
    TouchUndisturbed(s, e.at, id, e.step.generation);
    var marked := MarkSynced(touched, id, e.step.generation);
    TouchUndisturbed(touched, e.at, id, e.step.generation);
    SameSynced(marked, marked.(deadline := None, wakeups := e.after.wakeups));
    SameSynced(marked, marked.(wakeups := e.after.wakeups));
  }

  lemma SyncStates(e: Event)
    requires Follows(e) && Standing(e.before, e.at) && e.step.Sync?
    ensures e.after.state == if Stabilizes(e) then Stable else Expire(e.before, e.at, Exempt(e.step)).state
  {
    hide Standing, RebalanceTimeout, Expire, LeaderSync, SyncPass, EverybodySynced, NamesEachOnce, CoversExactly, Late;
    var s, id := Expire(e.before, e.at, Exempt(e.step)), e.step.id;
    SyncGoesOn(e.before, e.at, e.step.generation, id, e.step.assignments, e.step.first);
    SweepIsExact(e.before, e.at, Exempt(e.step));
    StandingFacts(e.before, e.at);
    if id in s.members && e.step.generation == s.generation {
      var touched := if e.step.first then Touch(s, id, e.at) else s;
      LeaderSyncHears(touched, e.at, id, e.step.generation, e.step.assignments, id);
      CoverNamesEachOnce(e.step.assignments, touched.members);
      SameNames(e.step.assignments, touched.members, e.before.members);
    }
  }

  lemma SyncUndisturbed(e: Event)
    requires Follows(e) && e.step.Sync? && Expire(e.before, e.at, Exempt(e.step)).state != Stable
    ensures var s := Expire(e.before, e.at, Exempt(e.step));
            Undisturbed(s, e.after) && KeepsTime(s, e.after)
  {
    hide RebalanceTimeout, Expire, LeaderSync, SyncPass, EverybodySynced, Touch, MarkSynced;
    var s, id := Expire(e.before, e.at, Exempt(e.step)), e.step.id;
    SyncGoesOn(e.before, e.at, e.step.generation, id, e.step.assignments, e.step.first);
    if id in s.members {
      var touched := if e.step.first then Touch(s, id, e.at) else s;
      TouchUndisturbed(s, e.at, id, e.step.generation);
      TouchUndisturbed(touched, e.at, id, e.step.generation);
      if s.state == CompletingRebalance {
        LeaderSyncUndisturbed(touched, e.at, id, e.step.generation, e.step.assignments);
      }
    }
  }

  lemma SyncOnlySweeps(e: Event)
    requires Follows(e) && Standing(e.before, e.at) && e.step.Sync?
    ensures OnlySweeps(e)
  {
    hide Standing, RebalanceTimeout, Expire, SyncPass, EverybodySynced, Stabilizes;
    var s := Expire(e.before, e.at, Exempt(e.step));
    SyncStates(e);
    ExpiryStands(e.before, e.at, Exempt(e.step));
    StandingFacts(s, e.at);
    SyncGoesOn(e.before, e.at, e.step.generation, e.step.id, e.step.assignments, e.step.first);
    if s.state != Stable {
      SyncUndisturbed(e);
    } else if e.step.id in s.members && e.step.generation == s.generation {
      StableSyncUndisturbed(e);
    }
  }

  // The deadline and the generation after a step that may complete a rebalance which `deadline` would end.
  ghost predicate CompletesOrGoesOn(generation: int, deadline: Time, now: Time, b: GroupView) {
    if EverybodyJoined(b) then
      && b.state == CompletingRebalance && b.generation == NextGeneration(generation)
      && b.deadline == Some(now + RebalanceTimeout(b.members))
    else b.state == PreparingRebalance && b.generation == generation && b.deadline == Some(deadline)
  }

  // A removal, then a completion if everybody who is left has joined.
  lemma DepartMoves(e: Event)
    requires Follows(e) && Standing(e.before, e.at) && e.step.Depart?
    requires e.step.id in Expire(e.before, e.at, None).members
    ensures var s, b := Expire(e.before, e.at, None), e.after;
            var rest := s.members - {e.step.id};
            && e.reply == Answer(None) && b.members.Keys == rest.Keys
            && (s.leader in rest ==> b.leader == s.leader)
            && (s.leader !in rest && rest != map[] ==> b.leader in rest && forall id | id in rest :: Le(b.leader, id))
            && (rest == map[] ==> b.leader == "" && b.protocolType == "" && b.generation == s.generation
                                  && b.epoch == s.epoch && b.state == Empty && b.deadline.None?)
            && (rest != map[] ==> b.protocolType == s.protocolType)
            && (rest != map[] && s.state == PreparingRebalance ==>
                  b.epoch == s.epoch && s.deadline.Some? && CompletesOrGoesOn(s.generation, s.deadline.value, e.at, b))
            && (rest != map[] && s.state != PreparingRebalance ==>
                  && b.epoch == NextEpoch(s.epoch)
                  && CompletesOrGoesOn(s.generation, e.at + RebalanceTimeout(b.members), e.at, b))
  {
    hide Standing, RebalanceTimeout, Expire, CompleteIfReady, TransitionAfterRemoval, EverybodySynced;
    var s := Expire(e.before, e.at, None);
    ExpiryStands(e.before, e.at, None);
    StandingFacts(s, e.at);
    LeaveNeverInconsistent(e.before, e.at, e.step.id);
    var cut := s.(members := s.members - {e.step.id});
    RemovalRules(cut, e.at);
    RemovalCounts(cut, e.at);
    RemovalStands(s, e.at, {e.step.id});
    CompletionRules(TransitionAfterRemoval(cut, e.at), e.at);
  }

  lemma DepartLeader(e: Event)
    requires Follows(e) && Standing(e.before, e.at) && e.step.Depart?
    ensures LeaderRule(e)
  {
    hide Standing, RebalanceTimeout, Expire, Late, Survivors, Follows, CompletesOrGoesOn;
    SweepRules(e);
    if e.step.id in Expire(e.before, e.at, None).members {
      DepartMoves(e);
    } else {
      DepartRefused(e);
    }
  }

  lemma DepartRules(e: Event)
    requires Follows(e) && Standing(e.before, e.at) && e.step.Depart?
    ensures GroupRule(e)
  {
    hide Standing, RebalanceTimeout, Expire, Late, Survivors, EverybodySynced, EverybodyJoined, NobodyLate, LeaderRule,
         Follows;
    SweepRules(e);
    SweepCounts(e);
    DepartLeader(e);
    StandingFacts(e.before, e.at);
    if e.step.id in Expire(e.before, e.at, None).members {
      DepartMoves(e);
    } else {
      DepartRefused(e);
    }
  }

  lemma DepartRefused(e: Event)
    requires Follows(e) && e.step.Depart? && e.step.id !in Expire(e.before, e.at, None).members
    ensures e.after == Expire(e.before, e.at, None) && e.reply == Answer(Some(UnknownMemberId))
  {
    hide Expire;
  }

  lemma RemovalCounts(g: GroupView, now: Time)
    ensures var r := TransitionAfterRemoval(g, now);
            && r.epoch == (if g.members != map[] && g.state != PreparingRebalance then NextEpoch(g.epoch) else g.epoch)
            && r.generation == g.generation && r.members == g.members
  {
    hide RebalanceTimeout;
  }

  // An enrolment, then a completion if everybody has joined.
  lemma EnrolMoves(e: Event)
    requires Follows(e) && Standing(e.before, e.at) && Enrols(e)
    ensures var s, b := Expire(e.before, e.at, None), e.after;
            var mine := e.at + RebalanceTimeout(b.members);
            && b.members != map[] && b.members.Keys == s.members.Keys + {e.step.id}
            && b.leader == (if s.members == map[] then e.step.id else s.leader)
            && b.protocolType == e.step.request.protocolType
            && (s.state == PreparingRebalance ==>
                  && b.epoch == s.epoch && s.deadline.Some?
                  && var end := if e.step.mayAdd then Later(s.deadline.value, mine) else s.deadline.value;
                  CompletesOrGoesOn(s.generation, end, e.at, b))
            && (s.state != PreparingRebalance ==>
                  b.epoch == NextEpoch(s.epoch) && CompletesOrGoesOn(s.generation, mine, e.at, b))
  {
    hide Standing, RebalanceTimeout, Expire, CompleteIfReady, Enroll, SelectProtocol, Follows;
    var s := Expire(e.before, e.at, None);
    EnrolCompletes(e);
    ExpiryStands(e.before, e.at, None);
    EnrollStands(s, e.at, e.step.id, e.step.request, e.step.mayAdd);
    EnrollMoves(s, e.at, e.step.id, e.step.request, e.step.mayAdd);
    CompletionRules(Enroll(s, e.at, e.step.id, e.step.request, e.step.mayAdd), e.at);
  }

  lemma EnrolCompletes(e: Event)
    requires Follows(e) && Enrols(e)
    ensures var s := Expire(e.before, e.at, None);
            && SelectProtocol(s.members[e.step.id := JoiningMember(s, e.at, e.step.id, e.step.request)]).Some?
            && e.after == CompleteIfReady(Enroll(s, e.at, e.step.id, e.step.request, e.step.mayAdd), e.at).g
            && e.step.id != ""
  {
    hide Expire, CompleteIfReady, Enroll, SelectProtocol;
  }

  lemma EnrolRules(e: Event)
    requires Follows(e) && Standing(e.before, e.at) && Enrols(e)
    ensures GroupRule(e)
  {
    hide Standing, RebalanceTimeout, Expire, Late, Survivors, EverybodySynced, Follows;
    SweepRules(e);
    SweepCounts(e);
    StandingFacts(e.before, e.at);
    EnrolMoves(e);
  }

  lemma EnrollMoves(g: GroupView, now: Time, id: string, request: JoinRequest, mayAdd: bool)
    requires Standing(g, now)
    ensures var r := Enroll(g, now, id, request, mayAdd);
            var mine := now + RebalanceTimeout(r.members);
            && r.leader == (if g.members == map[] then id else g.leader) && r.protocolType == request.protocolType
            && r.deadline.Some?
            && (g.state != PreparingRebalance ==> r.deadline.value == mine)
            && (g.state == PreparingRebalance ==>
                  && g.deadline.Some?
                  && r.deadline.value == if mayAdd then Later(g.deadline.value, mine) else g.deadline.value)
  {
    hide RebalanceTimeout, SelectProtocol, Agreed;
  }

  // A request that names no type or no protocol, and a waiting round that finds its answer, its member gone
  // or another rebalance, look no further.
  predicate Idle(e: Event) {
    || (e.step.Submit? && (e.step.request.protocols == [] || e.step.request.protocolType == ""))
    || (e.step.Poll? && (e.step.id !in e.before.members || e.before.epoch != e.step.epoch))
    || (e.step.Poll? && Answered(e.before, e.step.id, e.step.epoch))
  }

  // The member holds the reply of the rebalance that was completed in this epoch.
  predicate Answered(g: GroupView, id: string, epoch: nat) {
    id in g.members && g.members[id].completedJoin.Some? && g.members[id].completedJoin.value.epoch == epoch
  }

  // A join answered from the cache, and one that is refused after the sweep.
  lemma UnchangedByJoin(e: Event)
    requires Follows(e) && Standing(e.before, e.at) && e.step.Submit? && !Enrols(e) && !Idle(e)
    ensures GroupRule(e)
  {
    hide Standing, RebalanceTimeout, Expire, CompleteIfReady, Enroll, SelectProtocol, Late, Survivors, EverybodySynced;
    var s := Expire(e.before, e.at, None);
    StandingFacts(e.before, e.at);
    if Admitted(e.step, e.reply) {
      SweepRules(e);
      SweepCounts(e);
      TouchUndisturbed(s, e.at, e.step.id, 0);
    } else {
      RefusedJoin(e);
      SweepingRules(e);
    }
  }

  lemma RefusedJoin(e: Event)
    requires Follows(e) && Standing(e.before, e.at) && e.step.Submit? && !Admitted(e.step, e.reply) && !Idle(e)
    ensures e.after == Expire(e.before, e.at, None)
  {
    hide Standing, SelectProtocol, Enroll, Expire, CompleteIfReady;
    var s := Expire(e.before, e.at, None);
    ExpiryStands(e.before, e.at, None);
    if SelectProtocol(s.members[e.step.id := JoiningMember(s, e.at, e.step.id, e.step.request)]).Some? {
      EnrollStands(s, e.at, e.step.id, e.step.request, e.step.mayAdd);
      StandingCompletes(Enroll(s, e.at, e.step.id, e.step.request, e.step.mayAdd), e.at);
    }
  }

  // In every run, whatever an event does to a group's state, leader, counters, deadline and type follows
  // the rules.
  lemma GroupFieldsAreExact(run: Run, i: nat)
    requires ValidRun(run) && i < |run|
    ensures if Idle(run[i]) then run[i].after == run[i].before else GroupRule(run[i])
  {
    hide Standing, GroupRule, Apply, OnlySweeps;
    var e := run[i];
    assert Linked(run, i);
    EventStands(run, i);
    match e.step
    case Submit(_, _, _) =>
      if Idle(e) {
        IdleChangesNothing(e);
      } else if Enrols(e) {
        EnrolRules(e);
      } else {
        UnchangedByJoin(e);
      }
    case Poll(_, _) =>
      if Idle(e) {
        IdleChangesNothing(e);
      } else {
        PollCompletes(e);
        CompletingRules(e);
      }
    case Drive =>
      DriveCompletes(e);
      CompletingRules(e);
    case Depart(_) => DepartRules(e);
    case Sync(_, _, _, _) =>
      SyncOnlySweeps(e);
      SweepingRules(e);
    case _ =>
      QuietOnlySweeps(e);
      SweepingRules(e);
  }

  lemma IdleChangesNothing(e: Event)
    requires Follows(e) && Idle(e)
    ensures e.after == e.before
  {
    hide Expire, CompleteIfReady, Enroll;
  }

  lemma PollCompletes(e: Event)
    requires Follows(e) && e.step.Poll? && !Idle(e)
    ensures e.after == CompleteIfReady(Expire(e.before, e.at, Exempt(e.step)), e.at).g
  {
    hide Expire, CompleteIfReady;
  }

  lemma DriveCompletes(e: Event)
    requires Follows(e) && e.step.Drive?
    ensures e.after == CompleteIfReady(Expire(e.before, e.at, Exempt(e.step)), e.at).g
  {
    hide Expire, CompleteIfReady;
  }

  // What standing says of a group's state and deadline.
  lemma StandingFacts(g: GroupView, now: Time)
    requires Standing(g, now)
    ensures g.state == Empty <==> g.members == map[]
    ensures g.state == Empty ==> g.deadline.None? && g.leader == "" && g.protocolType == ""
    ensures g.state != Empty ==> g.leader in g.members
    ensures g.state == PreparingRebalance || g.state == CompletingRebalance ==> g.deadline.Some?
    ensures g.state == Stable ==> (g.deadline.None? <==> EverybodySynced(g))
  {
    hide SelectProtocol, Agreed;
  }

  lemma SweepCounts(e: Event)
    ensures var s := Expire(e.before, e.at, Exempt(e.step));
            && s.generation == e.before.generation
            && s.epoch == (if SomebodyLate(e) && Survivors(e) != map[] && e.before.state != PreparingRebalance
                           then NextEpoch(e.before.epoch) else e.before.epoch)
  {
    hide RebalanceTimeout, Late;
    SweptSurvivors(e);
    SweepIsExact(e.before, e.at, Exempt(e.step));
  }

  // ----- Who is woken

  // The event concerns those who wait: a rebalance starts or completes, somebody goes, or an assignment is given.
  predicate Concerns(e: Event) {
    || SomebodyLate(e) || Departs(e) || Finishes(e) || (Enrols(e) && !Running(e))
    || (e.step.Sync? && e.reply.SyncAnswer? && e.reply.sync.Assigned?)
  }

  predicate WakeRule(e: Event) {
    e.after.wakeups > e.before.wakeups <==> Concerns(e)
  }

  lemma SweepWakes(e: Event)
    ensures var s := Expire(e.before, e.at, Exempt(e.step));
            s.wakeups >= e.before.wakeups && (s.wakeups > e.before.wakeups <==> SomebodyLate(e))
            && (!SomebodyLate(e) ==> s == e.before)
            && (SomebodyLate(e) ==> s.state == Empty || s.state == PreparingRebalance)
  {
    hide RebalanceTimeout, Late, TransitionAfterRemoval;
    var g, exempt := e.before, Exempt(e.step);
    SweepIsExact(g, e.at, exempt);
    var stale := StaleMembers(g, e.at, exempt);
    if SomebodyLate(e) {
      assert stale != {} by {
        SomebodyIsStale(e);
      }
    }
  }

  lemma SomebodyIsStale(e: Event)
    requires SomebodyLate(e)
    ensures StaleMembers(e.before, e.at, Exempt(e.step)) != {}
  {
    var id :| id in e.before.members && !Present(e.before, e.at, Exempt(e.step), id);
    assert id in StaleMembers(e.before, e.at, Exempt(e.step));
  }

  lemma CompletionWakes(g: GroupView, now: Time)
    requires Standing(g, now)
    ensures var c := CompleteIfReady(g, now).g;
            && c.wakeups >= g.wakeups
            && (c.wakeups > g.wakeups <==> g.state == PreparingRebalance && c.state == CompletingRebalance)
            && (c.state == CompletingRebalance && g.state != PreparingRebalance ==> c == g)
  {
    hide SelectProtocol, RebalanceTimeout, JoinResultFor;
    CompletionNeverFails(g, now);
  }

  lemma CompletingWakes(e: Event)
    requires Standing(e.before, e.at) && (e.step.Poll? || e.step.Drive?)
    requires e.after == CompleteIfReady(Expire(e.before, e.at, Exempt(e.step)), e.at).g
    ensures WakeRule(e)
  {
    hide Standing, Expire, CompleteIfReady, NobodyLate;
    SweepWakes(e);
    ExpiryStands(e.before, e.at, Exempt(e.step));
    CompletionWakes(Expire(e.before, e.at, Exempt(e.step)), e.at);
  }

  lemma DepartWakes(e: Event)
    requires Follows(e) && Standing(e.before, e.at) && e.step.Depart?
    ensures WakeRule(e)
  {
    hide Standing, Expire, CompleteIfReady, NobodyLate, TransitionAfterRemoval;
    SweepWakes(e);
    LeaveNeverInconsistent(e.before, e.at, e.step.id);
  }

  lemma JoinWakes(e: Event)
    requires Follows(e) && Standing(e.before, e.at) && e.step.Submit? && !Idle(e)
    ensures WakeRule(e)
  {
    hide Standing, Expire, CompleteIfReady, NobodyLate, Enroll, SelectProtocol, Survivors;
    SweepWakes(e);
    if Enrols(e) {
      var s := Expire(e.before, e.at, None);
      EnrolCompletes(e);
      ExpiryStands(e.before, e.at, None);
      EnrollStands(s, e.at, e.step.id, e.step.request, e.step.mayAdd);
      EnrollWakes(s, e.at, e.step.id, e.step.request, e.step.mayAdd);
      CompletionWakes(Enroll(s, e.at, e.step.id, e.step.request, e.step.mayAdd), e.at);
      SweptSurvivors(e);
      EmptyHasNobody(s, e.at);
    } else if !Admitted(e.step, e.reply) {
      RefusedJoin(e);
    }
  }

  lemma EnrollWakes(g: GroupView, now: Time, id: string, request: JoinRequest, mayAdd: bool)
    ensures var r := Enroll(g, now, id, request, mayAdd);
            && r.state == PreparingRebalance
            && r.wakeups == if g.state == PreparingRebalance then g.wakeups else g.wakeups + 1
  {
    hide RebalanceTimeout, JoiningMember;
  }

  lemma LeaderSyncWakes(g: GroupView, now: Time, id: string, generation: int, given: seq<SyncAssignment>)
    requires id in g.members
    ensures var r := LeaderSync(g, now, id, generation, given);
            r.g.wakeups == if r.reply.Assigned? then g.wakeups + 1 else g.wakeups
  {
    hide CoversExactly, AssignmentMap, AllSynced, RefreshSynced, NamesEachOnce, GivenTo;
    LeaderIsAnswered(g, now, id, generation, given);
    CoverNamesEachOnce(given, g.members);
  }

  lemma SyncWakes(e: Event)
    requires Follows(e) && Standing(e.before, e.at) && e.step.Sync?
    ensures WakeRule(e)
  {
    hide Standing, Expire, NobodyLate, LeaderSync, AllSynced, Stabilizes;
    SweepWakes(e);
    SyncStates(e);
    var s, id := Expire(e.before, e.at, Exempt(e.step)), e.step.id;
    if id in s.members && s.state == Stable {
      StableAssignsEverybody(s, e.at, id);
    }
    if id in s.members {
      LeaderSyncWakes(if e.step.first then Touch(s, id, e.at) else s, e.at, id, e.step.generation, e.step.assignments);
    }
  }

  // In every run: those who wait are woken exactly by the events that concern them.
  lemma WaitersAreWoken(run: Run, i: nat)
    requires ValidRun(run) && i < |run|
    ensures if Idle(run[i]) then run[i].after == run[i].before else WakeRule(run[i])
  {
    hide Standing, WakeRule, Apply;
    var e := run[i];
    assert Linked(run, i);
    EventStands(run, i);
    if Idle(e) {
      IdleChangesNothing(e);
    } else if e.step.Submit? {
      JoinWakes(e);
    } else if e.step.Poll? {
      PollCompletes(e);
      CompletingWakes(e);
    } else if e.step.Drive? {
      DriveCompletes(e);
      CompletingWakes(e);
    } else if e.step.Depart? {
      DepartWakes(e);
    } else if e.step.Sync? {
      SyncWakes(e);
    } else {
      QuietWakes(e);
    }
  }

  lemma QuietWakes(e: Event)
    requires Follows(e) && (e.step.Beat? || e.step.Commit? || e.step.Describe?)
    ensures WakeRule(e)
  {
    hide Expire, NobodyLate, StoreOffsets;
    SweepWakes(e);
  }
}
