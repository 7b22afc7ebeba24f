/** Whole runs of a consumer group: any interleaving of requests, waiting rounds and driver rounds. */
module GroupRuns {
  import opened Text
  import opened GroupModel
  import opened GroupInvariant
  import opened GroupStanding
  import opened GroupDeadlines

  datatype Step =
    | Submit(id: string, request: JoinRequest, mayAdd: bool)
    | Poll(id: string, epoch: nat)
    | Sync(generation: int, id: string, assignments: seq<SyncAssignment>, first: bool)
    | Beat(generation: int, id: string)
    | Depart(id: string)
    | Commit(generation: int, id: string, commits: seq<OffsetCommit>)
    | Describe
    | Drive

  datatype Reply = JoinAnswer(join: JoinReply) | SyncAnswer(sync: SyncReply) | Answer(error: Option<GroupError>)

  datatype Applied = Applied(g: GroupView, reply: Reply)

  ghost function Apply(g: GroupView, now: Time, step: Step): Applied {
    match step
    case Submit(id, request, mayAdd) =>
      var r := SubmitJoin(g, now, id, request, mayAdd);
      Applied(r.g, JoinAnswer(r.reply))
    case Poll(id, epoch) =>
      var r := PollJoin(g, now, id, epoch);
      Applied(r.g, JoinAnswer(r.reply))
    case Sync(generation, id, assignments, first) =>
      var r := SyncPass(g, now, generation, id, assignments, first);
      Applied(r.g, SyncAnswer(r.reply))
    case Beat(generation, id) =>
      var r := Heartbeat(g, now, generation, id);
      Applied(r.g, Answer(r.error))
    case Depart(id) =>
      var r := Leave(g, now, id);
      Applied(r.g, Answer(r.error))
    case Commit(generation, id, commits) =>
      var r := CommitOffsets(g, now, generation, id, commits);
      Applied(r.g, Answer(r.error))
    case Describe => Applied(Expire(g, now, None), Answer(None))
    case Drive => Applied(DriveDeadlines(g, now), Answer(None))
  }

  datatype Event = Event(at: Time, step: Step, before: GroupView, after: GroupView, reply: Reply)

  type Run = seq<Event>

  ghost predicate Follows(e: Event) {
    // Member ids are allocated when the request leaves them empty.
    && (e.step.Submit? ==> e.step.id != "")
    && Apply(e.before, e.at, e.step) == Applied(e.after, e.reply)
  }

  ghost function StateAt(run: Run, n: nat): GroupView
    requires n <= |run|
  {
    if n == 0 then NewGroup() else run[n - 1].after
  }

  function TimeAt(run: Run, n: nat): Time
    requires n <= |run|
  {
    if n == 0 then 0 else run[n - 1].at
  }

  ghost predicate Linked(run: Run, i: nat)
    requires i < |run|
  {
    Follows(run[i]) && run[i].before == StateAt(run, i) && TimeAt(run, i) <= run[i].at
  }

  ghost predicate ValidRun(run: Run) {
    forall i | 0 <= i < |run| :: Linked(run, i)
  }

  // ----- Counters never go back

  lemma StepGrows(g: GroupView, now: Time, step: Step)
    ensures CountersGrow(g, Apply(g, now, step).g)
    ensures g.wakeups <= Apply(g, now, step).g.wakeups
  {
    hide SelectProtocol, Enroll, Expire, CompleteIfReady, LeaderSync;
  }

  lemma {:induction false} RunGrows(run: Run, i: nat, j: nat)
    requires ValidRun(run) && i <= j <= |run|
    ensures CountersGrow(StateAt(run, i), StateAt(run, j))
    ensures StateAt(run, i).wakeups <= StateAt(run, j).wakeups
    decreases j - i
  {
    hide Apply;
    if i < j {
      RunGrows(run, i, j - 1);
      assert Linked(run, j - 1);
      StepGrows(run[j - 1].before, run[j - 1].at, run[j - 1].step);
    }
  }

  // ----- Every reachable group stands, whatever its counters

  lemma StepStands(g: GroupView, now: Time, step: Step)
    requires Standing(g, now) && (step.Submit? ==> step.id != "")
    ensures Standing(Apply(g, now, step).g, now)
  {
    hide Standing, SubmitJoin, SyncPass, Leave, CommitOffsets, Expire, CompleteIfReady;
    match step
    case Submit(id, request, mayAdd) => SubmitStands(g, now, id, request, mayAdd);
    case Poll(id, epoch) =>
      ExpiryStands(g, now, Some(id));
      CompletionStands(Expire(g, now, Some(id)), now);
    case Sync(generation, id, assignments, first) => SyncStands(g, now, generation, id, assignments, first);
    case Beat(generation, id) =>
      ExpiryStands(g, now, None);
      if id in Expire(g, now, None).members {
        TouchStands(Expire(g, now, None), now, id);
      }
    case Depart(id) => LeaveStands(g, now, id);
    case Commit(generation, id, commits) => CommitStands(g, now, generation, id, commits);
    case Describe => ExpiryStands(g, now, None);
    case Drive =>
      ExpiryStands(g, now, None);
      CompletionStands(Expire(g, now, None), now);
  }

  // Membership, timers and heartbeats are sound at every point of every run.
  lemma {:induction false} ReachableStands(run: Run, n: nat)
    requires ValidRun(run) && n <= |run|
    ensures Standing(StateAt(run, n), TimeAt(run, n))
    decreases n
  {
    hide Apply, Standing;
    if n == 0 {
      NewGroupIsSound();
      SoundStands(NewGroup(), 0);
    } else {
      var e := run[n - 1];
      assert Linked(run, n - 1);
      ReachableStands(run, n - 1);
      StandsLater(e.before, TimeAt(run, n - 1), e.at);
      StepStands(e.before, e.at, e.step);
    }
  }

  lemma EventStands(run: Run, i: nat)
    requires ValidRun(run) && i < |run|
    ensures Standing(run[i].before, run[i].at) && Standing(run[i].after, run[i].at)
  {
    hide Apply, Standing;
    assert Linked(run, i);
    ReachableStands(run, i);
    StandsLater(run[i].before, TimeAt(run, i), run[i].at);
    ReachableStands(run, i + 1);
  }

  // ----- The generation is the counter that runs out first

  // The step completes no rebalance at the maximal generation.
  predicate BelowMax(before: GroupView, after: GroupView) {
    Completed(before, after) ==> before.generation < MAX_GENERATION
  }

  predicate EpochTrails(g: GroupView) {
    && g.generation <= MAX_GENERATION
    && g.epoch <= 2 * g.generation + (if g.state == PreparingRebalance || g.state == Empty then 1 else 0)
  }

  lemma ExpiryTrails(g: GroupView, now: Time, active: Option<string>)
    requires EpochTrails(g)
    ensures EpochTrails(Expire(g, now, active)) && Restarted(g, Expire(g, now, active))
  {
    hide RebalanceTimeout;
  }

  // A completion after a sweep, a removal or an enrolment that took `g` to `b`.
  lemma CompletionTrails(g: GroupView, b: GroupView, now: Time)
    requires b.generation == g.generation <= MAX_GENERATION && b.epoch <= 2 * b.generation + 2
    requires Restarted(g, b) && BelowMax(g, CompleteIfReady(b, now).g)
    requires (Ready(b) && !CompleteIfReady(b, now).failed) || EpochTrails(b)
    ensures EpochTrails(CompleteIfReady(b, now).g)
  {
    hide RebalanceTimeout, JoinResultFor, SelectProtocol;
  }

  lemma SubmitTrails(g: GroupView, now: Time, id: string, req: JoinRequest, mayAdd: bool)
    requires EpochTrails(g) && Standing(g, now) && id != "" && BelowMax(g, SubmitJoin(g, now, id, req, mayAdd).g)
    ensures EpochTrails(SubmitJoin(g, now, id, req, mayAdd).g)
  {
    hide Standing, Expire, Enroll, CompleteIfReady, SelectProtocol;
    var swept := Expire(g, now, None);
    ExpiryTrails(g, now, None);
    ExpiryStands(g, now, None);
    if SelectProtocol(swept.members[id := JoiningMember(swept, now, id, req)]).Some? {
      var enrolled := Enroll(swept, now, id, req, mayAdd);
      EnrollStands(swept, now, id, req, mayAdd);
      StandingCompletes(enrolled, now);
      if swept.state == Empty {
        EmptyHasNobody(swept, now);
        assert Ready(enrolled);
      }
      if SubmitJoin(g, now, id, req, mayAdd).g == CompleteIfReady(enrolled, now).g {
        CompletionTrails(g, enrolled, now);
      }
    }
  }

  lemma EmptyHasNobody(g: GroupView, now: Time)
    requires Standing(g, now)
    ensures g.state == Empty <==> g.members == map[]
  {
    hide SelectProtocol;
  }

  lemma SweptTrails(g: GroupView, now: Time, active: Option<string>)
    requires EpochTrails(g) && BelowMax(g, CompleteIfReady(Expire(g, now, active), now).g)
    ensures EpochTrails(CompleteIfReady(Expire(g, now, active), now).g)
  {
    hide Expire, CompleteIfReady;
    ExpiryTrails(g, now, active);
    CompletionTrails(g, Expire(g, now, active), now);
  }

  lemma StepTrails(g: GroupView, now: Time, step: Step)
    requires EpochTrails(g) && Standing(g, now) && (step.Submit? ==> step.id != "")
    requires BelowMax(g, Apply(g, now, step).g)
    ensures EpochTrails(Apply(g, now, step).g)
  {
    hide Standing, SubmitJoin, SyncPass, Leave, Expire, CompleteIfReady, StoreOffsets, BelowMax;
    ExpiryTrails(g, now, None);
    match step
    case Submit(id, request, mayAdd) => SubmitTrails(g, now, id, request, mayAdd);
    case Poll(id, epoch) =>
      if PollJoin(g, now, id, epoch).g != g {
        SweptTrails(g, now, Some(id));
      }
    case Sync(generation, id, assignments, first) => SyncTrails(g, now, generation, id, assignments, first);
    case Depart(id) => LeaveTrails(g, now, id);
    case Drive => SweptTrails(g, now, None);
    case _ =>
  }

  lemma SyncTrails(g: GroupView, now: Time, generation: int, id: string, assignments: seq<SyncAssignment>, first: bool)
    requires EpochTrails(g)
    ensures EpochTrails(SyncPass(g, now, generation, id, assignments, first).g)
  {
    hide Expire, CoversExactly, AssignmentMap, RefreshSynced, AllSynced;
    ExpiryTrails(g, now, if first then None else Some(id));
  }

  lemma LeaveTrails(g: GroupView, now: Time, id: string)
    requires EpochTrails(g) && Standing(g, now) && BelowMax(g, Leave(g, now, id).g)
    ensures EpochTrails(Leave(g, now, id).g)
  {
    hide Standing, Expire, CompleteIfReady, RebalanceTimeout;
    ExpiryTrails(g, now, None);
    ExpiryStands(g, now, None);
    var swept := Expire(g, now, None);
    EmptyHasNobody(swept, now);
    if id in swept.members {
      CompletionTrails(g, TransitionAfterRemoval(swept.(members := swept.members - {id}), now), now);
    }
  }

  // Up to event `n` the run completes no rebalance at the maximal generation.
  ghost predicate NeverSaturates(run: Run, n: nat)
    requires n <= |run|
  {
    forall i | 0 <= i < n :: BelowMax(run[i].before, run[i].after)
  }

  // That is so in particular as long as the generation is below its maximum.
  lemma BelowMaxNeverSaturates(run: Run, n: nat)
    requires ValidRun(run) && n <= |run| && StateAt(run, n).generation < MAX_GENERATION
    ensures NeverSaturates(run, n)
  {
    hide Apply;
    forall i | 0 <= i < n ensures BelowMax(run[i].before, run[i].after) {
      assert Linked(run, i);
      RunGrows(run, i, n);
    }
  }

  // As long as a run completes no rebalance at the maximal generation, its epoch is at most one more than
  // twice the generation, so only the generation can run out.
  lemma {:induction false} OnlyGenerationRunsOut(run: Run, n: nat)
    requires ValidRun(run) && n <= |run| && NeverSaturates(run, n)
    ensures EpochTrails(StateAt(run, n)) && StateAt(run, n).epoch < MAX_EPOCH
    decreases n
  {
    hide Apply, Standing;
    if n > 0 {
      assert Linked(run, n - 1);
      OnlyGenerationRunsOut(run, n - 1);
      EventStands(run, n - 1);
      StepTrails(run[n - 1].before, run[n - 1].at, run[n - 1].step);
    }
  }

  // ----- Every reachable group is sound until the generation runs out

  lemma StepIsSound(g: GroupView, now: Time, step: Step)
    requires Sound(g, now) && (step.Submit? ==> step.id != "") && Counting(g, Apply(g, now, step).g)
    ensures Sound(Apply(g, now, step).g, now)
  {
    hide Sound, SubmitJoin, PollJoin, SyncPass, Heartbeat, Leave, CommitOffsets, Expire, DriveDeadlines;
    match step
    case Submit(id, request, mayAdd) => SubmitJoinIsSound(g, now, id, request, mayAdd);
    case Poll(id, epoch) => PollJoinIsSound(g, now, id, epoch);
    case Sync(generation, id, assignments, first) => SyncIsSound(g, now, generation, id, assignments, first);
    case Beat(generation, id) => HeartbeatIsSound(g, now, generation, id);
    case Depart(id) => LeaveIsSound(g, now, id);
    case Commit(generation, id, commits) => CommitIsSound(g, now, generation, id, commits);
    case Describe => ExpiryIsSound(g, now, None);
    case Drive => DriverIsSound(g, now);
  }

  lemma SoundLater(g: GroupView, now: Time, later: Time)
    requires Sound(g, now) && now <= later
    ensures Sound(g, later)
  {
    hide SelectProtocol, Agreed;
  }

  // The joint invariant holds at every point of every run that completes no rebalance at the maximal
  // generation.
  lemma {:induction false} ReachableIsSound(run: Run, n: nat)
    requires ValidRun(run) && n <= |run| && NeverSaturates(run, n)
    ensures Sound(StateAt(run, n), TimeAt(run, n))
    decreases n
  {
    hide Apply, Sound;
    if n == 0 {
      NewGroupIsSound();
    } else {
      var e := run[n - 1];
      assert Linked(run, n - 1);
      OnlyGenerationRunsOut(run, n);
      ReachableIsSound(run, n - 1);
      SoundLater(e.before, TimeAt(run, n - 1), e.at);
      StepIsSound(e.before, e.at, e.step);
    }
  }

  lemma EventIsSound(run: Run, i: nat)
    requires ValidRun(run) && i < |run| && NeverSaturates(run, i + 1)
    ensures Sound(run[i].before, run[i].at) && Sound(run[i].after, run[i].at)
    ensures Counting(run[i].before, run[i].after)
  {
    hide Apply, Sound;
    assert Linked(run, i);
    OnlyGenerationRunsOut(run, i + 1);
    ReachableIsSound(run, i);
    SoundLater(run[i].before, TimeAt(run, i), run[i].at);
    ReachableIsSound(run, i + 1);
  }

  // ----- Completing never fails

  // A failed join has not touched the group beyond the sweep.
  lemma FailedJoinChangesNothing(g: GroupView, now: Time, id: string, req: JoinRequest, mayAdd: bool)
    requires Standing(g, now) && id != ""
    requires SubmitJoin(g, now, id, req, mayAdd).reply.JoinFailed?
    ensures SubmitJoin(g, now, id, req, mayAdd).g in {g, Expire(g, now, None)}
  {
    hide Standing, SelectProtocol, Enroll, Expire, CompleteIfReady;
    var swept := Expire(g, now, None);
    ExpiryStands(g, now, None);
    if SelectProtocol(swept.members[id := JoiningMember(swept, now, id, req)]).Some? {
      EnrollStands(swept, now, id, req, mayAdd);
      StandingCompletes(Enroll(swept, now, id, req, mayAdd), now);
    }
  }

  lemma PollNeverInconsistent(g: GroupView, now: Time, id: string, epoch: nat)
    requires Standing(g, now)
    ensures PollJoin(g, now, id, epoch).reply != JoinFailed(InconsistentGroupProtocol)
  {
    hide Standing, Expire, CompleteIfReady;
    ExpiryStands(g, now, Some(id));
    StandingCompletes(Expire(g, now, Some(id)), now);
  }

  lemma LeaveNeverInconsistent(g: GroupView, now: Time, id: string)
    requires Standing(g, now)
    ensures Leave(g, now, id).error in {None, Some(UnknownMemberId)}
  {
    hide Standing, Expire, CompleteIfReady, TransitionAfterRemoval;
    var swept := Expire(g, now, None);
    ExpiryStands(g, now, None);
    if id in swept.members {
      RemovalStands(swept, now, {id});
      StandingCompletes(TransitionAfterRemoval(swept.(members := swept.members - {id}), now), now);
    }
  }

  lemma DriverLeavesNothingReady(g: GroupView, now: Time)
    requires Standing(g, now)
    ensures !CompleteIfReady(Expire(g, now, None), now).failed && !Ready(DriveDeadlines(g, now))
  {
    hide Standing, Expire, CompleteIfReady;
    ExpiryStands(g, now, None);
    StandingCompletes(Expire(g, now, None), now);
  }

  // No run ever fails to complete a ready rebalance: no waiting join, leave or driver round reports
  // it, and a join that reports an inconsistent protocol never entered the group.
  lemma CompletionNeverFailsInRuns(run: Run, i: nat)
    requires ValidRun(run) && i < |run|
    ensures run[i].step.Submit? && run[i].reply.JoinAnswer? && run[i].reply.join.JoinFailed? ==>
              run[i].after in {run[i].before, Expire(run[i].before, run[i].at, None)}
    ensures run[i].step.Poll? ==> run[i].reply != JoinAnswer(JoinFailed(InconsistentGroupProtocol))
    ensures run[i].step.Depart? ==> run[i].reply in {Answer(None), Answer(Some(UnknownMemberId))}
    ensures run[i].step.Drive? ==> !Ready(run[i].after)
  {
    hide Standing, SubmitJoin, PollJoin, SyncPass, Heartbeat, Leave, CommitOffsets, Expire, DriveDeadlines;
    assert Linked(run, i);
    EventStands(run, i);
    var g, now := run[i].before, run[i].at;
    match run[i].step
    case Submit(id, request, mayAdd) =>
      if run[i].reply.join.JoinFailed? {
        FailedJoinChangesNothing(g, now, id, request, mayAdd);
      }
    case Poll(id, epoch) => PollNeverInconsistent(g, now, id, epoch);
    case Depart(id) => LeaveNeverInconsistent(g, now, id);
    case Drive => DriverLeavesNothingReady(g, now);
    case _ =>
  }

  // ----- The driver never oversleeps

  lemma StepIsHeard(g: GroupView, now: Time, step: Step)
    requires TimersSound(g) && HeartbeatsSound(g, now)
    ensures WakesOrQuiet(g, Apply(g, now, step).g)
  {
    hide WakesOrQuiet, SubmitJoin, PollJoin, SyncPass, Heartbeat, Leave, CommitOffsets, Expire, DriveDeadlines;
    match step
    case Submit(id, request, mayAdd) => SubmitJoinIsHeard(g, now, id, request, mayAdd);
    case Poll(id, epoch) => RemainingStepsAreHeard(g, now, id, epoch, None);
    case Sync(generation, id, assignments, first) => SyncIsHeard(g, now, generation, id, assignments, first);
    case Beat(generation, id) => HeartbeatIsHeard(g, now, generation, id);
    case Depart(id) => RemainingStepsAreHeard(g, now, id, 0, None);
    case Commit(generation, id, commits) => CommitIsHeard(g, now, generation, id, commits);
    case Describe => RemainingStepsAreHeard(g, now, "", 0, None);
    case Drive => RemainingStepsAreHeard(g, now, "", 0, None);
  }

  // The driver that last ran on `slept` need not look at `g` before its timer, or has been woken.
  ghost predicate Covered(slept: GroupView, g: GroupView) {
    || slept.wakeups < g.wakeups
    || (NotEarlier(NextExpiry(slept, None), NextExpiry(g, None)) && !Ready(g))
  }

  lemma CoveredStep(slept: GroupView, a: GroupView, b: GroupView)
    requires Covered(slept, a) && WakesOrQuiet(a, b) && slept.wakeups <= a.wakeups <= b.wakeups
    ensures Covered(slept, b)
  {
    hide NextExpiry, Ready;
  }

  // Let the driver last run at event `d`.  At any later point either it has been woken since, or
  // nothing falls due before the timer it sleeps on and no rebalance is ready to complete.
  lemma {:induction false} DriverNeverOversleeps(run: Run, d: nat, n: nat)
    requires ValidRun(run) && d < n <= |run| && run[d].step.Drive?
    ensures Covered(run[d].after, StateAt(run, n))
    decreases n
  {
    hide Apply, Standing, NextExpiry, Ready, WakesOrQuiet;
    if n == d + 1 {
      CompletionNeverFailsInRuns(run, d);
    } else {
      hide Covered;
      var e := run[n - 1];
      assert Linked(run, n - 1);
      RunGrows(run, d + 1, n - 1);
      StepGrows(e.before, e.at, e.step);
      DriverNeverOversleeps(run, d, n - 1);
      EventStands(run, n - 1);
      StandingTimers(e.before, e.at);
      StepIsHeard(e.before, e.at, e.step);
      CoveredStep(run[d].after, e.before, e.after);
    }
  }

  lemma StandingTimers(g: GroupView, now: Time)
    requires Standing(g, now)
    ensures TimersSound(g) && HeartbeatsSound(g, now)
  {
  }
}
