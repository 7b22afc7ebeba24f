/** A group that gets no further requests empties, whatever its blocked joins and syncs still do. */
module GroupSilence {
  import opened Text
  import opened GroupModel
  import opened GroupInvariant
  import opened GroupStanding
  import opened GroupDeadlines
  import opened GroupRuns

  // ----- Winding down

  // The rebalance deadline runs against every member.
  ghost predicate AllAwaited(g: GroupView) {
    && (g.state == PreparingRebalance || g.state == CompletingRebalance)
    && g.members != map[]
    && g.deadline.Some?
    && forall id | id in g.members :: Awaited(g, g.members[id])
  }

  // How many firings are left.
  ghost function Phase(g: GroupView): nat {
    if g.state == Empty then 0 else if AllAwaited(g) then 1 else 2
  }

  // What a group that winds down keeps: full soundness while it has both firings to go, and room for
  // one more epoch while it completes.
  ghost predicate Calm(g: GroupView, now: Time) {
    && Standing(g, now)
    && (Phase(g) == 2 ==> Sound(g, now) && Unsaturated(g))
    && (Phase(g) == 1 && g.state == CompletingRebalance ==>
          g.epoch < MAX_EPOCH && forall id | id in g.members :: g.members[id].joinedEpoch <= g.epoch)
  }

  lemma SoundIsCalm(g: GroupView, now: Time)
    requires Sound(g, now) && Unsaturated(g)
    ensures Calm(g, now)
  {
    hide SelectProtocol, Agreed;
  }

  lemma CalmLater(g: GroupView, now: Time, later: Time)
    requires Calm(g, now) && now <= later
    ensures Calm(g, later)
  {
    hide Standing, Sound, AllAwaited;
    StandsLater(g, now, later);
    if Phase(g) == 2 {
      SoundLater(g, now, later);
    }
  }

  // ----- Completion

  // Completing a ready group leaves every member awaited exactly when nobody has already synced in
  // the generation it completes to: below the maximal generation nobody can have.
  lemma CompletionAwaitsAll(g: GroupView, now: Time)
    requires Standing(g, now) && Ready(g)
    ensures var c := CompleteIfReady(g, now).g;
            && c.state == CompletingRebalance && c.epoch == g.epoch && c.generation == NextGeneration(g.generation)
            && (AllAwaited(c) <==> forall id | id in g.members :: g.members[id].syncedGeneration != c.generation)
            && forall id | id in c.members :: c.members[id].joinedEpoch == c.epoch
  {
    hide SelectProtocol, JoinResultFor, RebalanceTimeout;
    var c := CompleteIfReady(g, now).g;
    CompletionNeverFails(g, now);
    assert forall id | id in g.members :: c.members[id].syncedGeneration == g.members[id].syncedGeneration;
  }

  // The same for a firing of the driver.
  lemma ReadyFiring(g: GroupView, now: Time)
    requires Standing(g, now) && Ready(g)
    ensures AllAwaited(DriveDeadlines(g, now)) <==>
            forall id | id in g.members :: g.members[id].syncedGeneration != NextGeneration(g.generation)
  {
    hide Standing, CompleteIfReady, AllAwaited;
    assert StaleMembers(g, now, None) == {};
    CompletionAwaitsAll(g, now);
  }

  lemma CompletionWindsDown(g: GroupView, now: Time)
    requires Calm(g, now)
    ensures var c := CompleteIfReady(g, now).g;
            && Calm(c, now) && Phase(c) <= Phase(g) && (Ready(g) ==> Phase(c) < Phase(g)) && (!Ready(g) ==> c == g)
  {
    hide Standing, GenerationSound, CompleteIfReady;
    if Ready(g) {
      ReadyIsNotAwaited(g);
      CompletionAwaitsAll(g, now);
      CompletionStands(g, now);
    } else {
      UnreadyStays(g, now);
    }
  }

  lemma ReadyIsNotAwaited(g: GroupView)
    requires Ready(g)
    ensures Phase(g) == 2
  {
    var id := Pick(g.members.Keys);
    assert !Awaited(g, g.members[id]);
  }

  // ----- Sweeps

  lemma AwaitedSweep(g: GroupView, now: Time, active: Option<string>)
    requires Calm(g, now) && Phase(g) == 1
    ensures var swept := Expire(g, now, active);
            && Calm(swept, now) && Phase(swept) <= 1
            && (active.None? && DueBy(NextExpiry(g, None), now) ==> Phase(swept) == 0)
  {
    hide Standing, RebalanceTimeout, NextExpiry;
    TimerAgreesWithSweep(g, now, active);
    ExpiryStands(g, now, active);
    var swept := Expire(g, now, active);
    if swept != g {
      assert forall id | id in swept.members :: swept.members[id] == g.members[id] && active == Some(id);
      if active.None? {
        assert swept.members == map[];
      }
    }
  }

  lemma PreparingSweep(g: GroupView, now: Time, active: Option<string>)
    requires Calm(g, now) && Phase(g) == 2 && g.state == PreparingRebalance
    ensures var swept := Expire(g, now, active);
            && Calm(swept, now)
            && (active.None? && DueBy(NextExpiry(g, None), now) ==> Phase(swept) == 0 || Ready(swept))
  {
    hide Standing, Sound, RebalanceTimeout, NextExpiry, AllAwaited;
    TimerAgreesWithSweep(g, now, active);
    ExpiryStands(g, now, active);
    ExpiryIsSound(g, now, active);
    var swept := Expire(g, now, active);
    if swept != g && active.None? {
      assert forall id | id in swept.members :: swept.members[id].joinedEpoch == g.epoch;
    }
  }

  lemma CohortSweep(g: GroupView, now: Time, active: Option<string>)
    requires Calm(g, now) && Phase(g) == 2 && g.state != PreparingRebalance
    ensures var swept := Expire(g, now, active);
            && Calm(swept, now) && (swept == g || Phase(swept) <= 1)
            && (active.None? && DueBy(NextExpiry(g, None), now) ==> swept != g)
  {
    hide SelectProtocol, JoinResultFor, RebalanceTimeout, NextExpiry, Standing;
    TimerAgreesWithSweep(g, now, active);
    ExpiryStands(g, now, active);
    var swept := Expire(g, now, active);
    if swept != g && swept.state != Empty {
      forall id | id in swept.members ensures swept.members[id].joinedEpoch != swept.epoch {
        assert Published(g, id);
      }
    }
  }

  lemma SweepWindsDown(g: GroupView, now: Time, active: Option<string>)
    requires Calm(g, now)
    ensures var swept := Expire(g, now, active);
            && Calm(swept, now) && Phase(swept) <= Phase(g)
            && (active.None? && DueBy(NextExpiry(g, None), now) ==> Phase(swept) < Phase(g) || Ready(swept))
            && (swept == g || swept.state == Empty || swept.state == PreparingRebalance)
  {
    hide Calm, AllAwaited, NextExpiry, Expire, Ready;
    if Phase(g) == 0 {
      EmptyStays(g, now, active);
    } else if Phase(g) == 1 {
      AwaitedSweep(g, now, active);
    } else if g.state == PreparingRebalance {
      PreparingSweep(g, now, active);
    } else {
      CohortSweep(g, now, active);
    }
  }

  lemma EmptyStays(g: GroupView, now: Time, active: Option<string>)
    requires g.state == Empty
    ensures Expire(g, now, active) == g && !DueBy(NextExpiry(g, None), now)
  {
    TimerAgreesWithSweep(g, now, None);
  }

  // A sweep and the completion after it, as the driver and every poll make them.
  lemma RoundWindsDown(g: GroupView, now: Time, active: Option<string>)
    requires Calm(g, now)
    ensures var r := CompleteIfReady(Expire(g, now, active), now).g;
            && Calm(r, now) && Phase(r) <= Phase(g)
            && (active.None? && (Ready(g) || DueBy(NextExpiry(g, None), now)) && Phase(g) > 0 ==> Phase(r) < Phase(g))
  {
    hide Calm, Phase, Expire, CompleteIfReady, NextExpiry, Ready;
    var swept := Expire(g, now, active);
    SweepWindsDown(g, now, active);
    CompletionWindsDown(swept, now);
    if active.None? && Ready(g) {
      assert swept == g by { ReadyIsNotSwept(g, now); }
    }
  }

  lemma ReadyIsNotSwept(g: GroupView, now: Time)
    requires Ready(g)
    ensures Expire(g, now, None) == g
  {
    assert StaleMembers(g, now, None) == {};
  }

  // ----- Blocked syncs

  // In the generation it waits in, a blocked sync has been recorded.
  predicate Recorded(g: GroupView, generation: int, id: string) {
    g.state == CompletingRebalance && g.generation == generation && id in g.members ==>
      g.members[id].syncedGeneration == generation
  }

  // A later round of a recorded sync only sweeps, or settles a stable group.
  lemma LaterSync(g: GroupView, now: Time, generation: int, id: string, assignments: seq<SyncAssignment>)
    requires Calm(g, now) && Recorded(g, generation, id)
    ensures var swept, r := Expire(g, now, Some(id)), SyncPass(g, now, generation, id, assignments, false).g;
            r == swept || (g.state == Stable && r.state == Stable && CountersKept(g, r))
  {
    hide Standing, RebalanceTimeout, SelectProtocol, JoinResultFor, LeaderSync;
    var swept := Expire(g, now, Some(id));
    if swept == g && Validate(g, generation, id).None? && g.state == CompletingRebalance {
      assert Phase(g) == 2;
      assert MarkSynced(g, id, generation) == g by {
        assert g.members[id := g.members[id]] == g.members;
      }
    }
  }

  predicate CountersKept(a: GroupView, b: GroupView) {
    a.epoch == b.epoch && a.generation == b.generation
  }

  lemma SyncWindsDown(g: GroupView, now: Time, generation: int, id: string, assignments: seq<SyncAssignment>)
    requires Calm(g, now) && Recorded(g, generation, id)
    ensures var r := SyncPass(g, now, generation, id, assignments, false).g;
            Calm(r, now) && Phase(r) <= Phase(g)
  {
    hide Standing, Sound, SyncPass, Expire;
    LaterSync(g, now, generation, id, assignments);
    SweepWindsDown(g, now, Some(id));
    if Phase(g) == 2 {
      SyncIsSound(g, now, generation, id, assignments, false);
    }
    SyncStands(g, now, generation, id, assignments, false);
  }

  // Event `j` is a later round of a sync that an earlier event left waiting.
  ghost predicate Resumes(run: Run, j: nat)
    requires j < |run|
  {
    && run[j].step.Sync? && !run[j].step.first
    && exists i :: 0 <= i < j && WaitsAt(run, i) && run[i].step.id == run[j].step.id
                   && run[i].step.generation == run[j].step.generation
  }

  predicate WaitsAt(run: Run, i: nat)
    requires i < |run|
  {
    run[i].step.Sync? && run[i].reply == SyncAnswer(SyncWaiting)
  }

  // Nothing but the driver and the rounds of joins and syncs already blocked.
  ghost predicate SilentAt(run: Run, j: nat)
    requires j < |run|
  {
    run[j].step.Drive? || run[j].step.Poll? || Resumes(run, j)
  }

  ghost predicate SilentFrom(run: Run, s: nat) {
    forall j | s <= j < |run| :: SilentAt(run, j)
  }

  lemma WaitingIsRecorded(g: GroupView, now: Time, generation: int, id: string,
                          assignments: seq<SyncAssignment>, first: bool)
    requires SyncPass(g, now, generation, id, assignments, first).reply.SyncWaiting?
    ensures var r := SyncPass(g, now, generation, id, assignments, first).g;
            r.state == CompletingRebalance && r.generation == generation && Recorded(r, generation, id)
  {
    hide Expire, LeaderSync;
    var swept := Expire(g, now, if first then None else Some(id));
    var touched := if first && id in swept.members then Touch(swept, id, now) else swept;
    if id in touched.members {
      LeaderNeverWaits(touched, now, id, generation, assignments);
    }
  }

  // Below the maximal generation nothing but a sync touches what is recorded while a generation completes.
  lemma StepKeepsRecorded(g: GroupView, now: Time, step: Step, generation: int, id: string)
    requires generation < MAX_GENERATION && g.generation >= generation && Recorded(g, generation, id)
    ensures Recorded(Apply(g, now, step).g, generation, id)
  {
    hide SelectProtocol, RebalanceTimeout, JoinResultFor, Expire, Enroll, TransitionAfterRemoval, StaleMembers,
         Overdue;
    StepGrows(g, now, step);
    if step.Sync? {
      SyncKeepsRecorded(g, now, step.generation, step.id, step.assignments, step.first, generation, id);
    }
  }

  lemma SyncKeepsRecorded(g: GroupView, now: Time, asked: int, who: string, assignments: seq<SyncAssignment>,
                          first: bool, generation: int, id: string)
    requires Recorded(g, generation, id)
    ensures Recorded(SyncPass(g, now, asked, who, assignments, first).g, generation, id)
  {
    hide Expire, CoversExactly, AssignmentMap, AllSynced;
  }

  // ----- Silent runs

  lemma {:induction false} WaiterStaysRecorded(run: Run, i: nat, n: nat)
    requires ValidRun(run) && i < n <= |run| && WaitsAt(run, i) && run[i].step.generation < MAX_GENERATION
    ensures StateAt(run, n).generation >= run[i].step.generation
    ensures Recorded(StateAt(run, n), run[i].step.generation, run[i].step.id)
    decreases n
  {
    hide Apply, SyncPass, Recorded;
    var e := run[n - 1];
    assert Linked(run, n - 1);
    if n == i + 1 {
      AnsweredAt(run, i);
      WaitingIsRecorded(e.before, e.at, e.step.generation, e.step.id, e.step.assignments, e.step.first);
    } else {
      WaiterStaysRecorded(run, i, n - 1);
      StepGrows(e.before, e.at, e.step);
      StepKeepsRecorded(e.before, e.at, e.step, run[i].step.generation, run[i].step.id);
    }
  }

  lemma AnsweredAt(run: Run, i: nat)
    requires ValidRun(run) && i < |run| && run[i].step.Sync?
    ensures var step := run[i].step;
            var r := SyncPass(run[i].before, run[i].at, step.generation, step.id, step.assignments, step.first);
            run[i].after == r.g && run[i].reply == SyncAnswer(r.reply)
  {
    hide SyncPass;
    assert Linked(run, i);
  }

  // Nobody starts to wait in a silent run, so whoever waits does so in a generation from before it.
  lemma {:induction false} ResumedBelowMax(run: Run, s: nat, j: nat)
    requires ValidRun(run) && SilentFrom(run, s) && s <= j < |run| && Resumes(run, j)
    requires StateAt(run, s).generation < MAX_GENERATION
    ensures run[j].step.generation < MAX_GENERATION
    decreases j
  {
    hide ValidRun, SyncPass;
    var i :| 0 <= i < j && WaitsAt(run, i) && run[i].step.id == run[j].step.id
             && run[i].step.generation == run[j].step.generation;
    if i < s {
      var e := run[i];
      AnsweredAt(run, i);
      WaitingIsRecorded(e.before, e.at, e.step.generation, e.step.id, e.step.assignments, e.step.first);
      RunGrows(run, i + 1, s);
    } else {
      assert SilentAt(run, i);
      ResumedBelowMax(run, s, i);
    }
  }

  lemma ResumedIsRecorded(run: Run, s: nat, j: nat)
    requires ValidRun(run) && SilentFrom(run, s) && s <= j < |run| && Resumes(run, j)
    requires StateAt(run, s).generation < MAX_GENERATION
    ensures Recorded(run[j].before, run[j].step.generation, run[j].step.id)
  {
    hide Apply, Recorded;
    ResumedBelowMax(run, s, j);
    var i :| 0 <= i < j && WaitsAt(run, i) && run[i].step.id == run[j].step.id
             && run[i].step.generation == run[j].step.generation;
    WaiterStaysRecorded(run, i, j);
    assert Linked(run, j);
  }

  // The driver runs with something to do: a deadline is due or a rebalance is ready.
  ghost predicate FiresAt(run: Run, j: nat)
    requires j < |run|
  {
    run[j].step.Drive? && (Ready(run[j].before) || DueBy(NextExpiry(run[j].before, None), run[j].at))
  }

  lemma SilentEvent(run: Run, s: nat, j: nat)
    requires ValidRun(run) && SilentFrom(run, s) && s <= j < |run| && StateAt(run, s).generation < MAX_GENERATION
    requires Calm(run[j].before, run[j].at)
    ensures Calm(run[j].after, run[j].at) && Phase(run[j].after) <= Phase(run[j].before)
    ensures FiresAt(run, j) && Phase(run[j].before) > 0 ==> Phase(run[j].after) < Phase(run[j].before)
  {
    hide Calm, Phase, SyncPass, Expire, CompleteIfReady, NextExpiry, Ready, SilentFrom;
    var e := run[j];
    assert Linked(run, j);
    assert SilentAt(run, j) by { SilentlyAt(run, s, j); }
    match e.step
    case Drive => RoundWindsDown(e.before, e.at, None);
    case Poll(id, epoch) => RoundWindsDown(e.before, e.at, Some(id));
    case Sync(generation, id, assignments, first) =>
      ResumedIsRecorded(run, s, j);
      SyncWindsDown(e.before, e.at, generation, id, assignments);
  }

  lemma SilentlyAt(run: Run, s: nat, j: nat)
    requires SilentFrom(run, s) && s <= j < |run|
    ensures SilentAt(run, j)
  {
  }

  // The phases never go up, and every firing of the driver takes one off.
  lemma {:induction false} SilentRunWindsDown(run: Run, s: nat, i: nat, n: nat)
    requires ValidRun(run) && SilentFrom(run, s) && s <= i <= n <= |run| && StateAt(run, s).generation < MAX_GENERATION
    ensures Calm(StateAt(run, n), TimeAt(run, n)) && Phase(StateAt(run, n)) <= Phase(StateAt(run, i))
    decreases n
  {
    hide Apply, Calm, Phase, Sound, SilentFrom;
    if n == s {
      BelowMaxNeverSaturates(run, s);
      ReachableIsSound(run, s);
      OnlyGenerationRunsOut(run, s);
      SoundIsCalm(StateAt(run, s), TimeAt(run, s));
    } else {
      SilentRunWindsDown(run, s, if i < n then i else n - 1, n - 1);
      assert Linked(run, n - 1);
      CalmLater(run[n - 1].before, TimeAt(run, n - 1), run[n - 1].at);
      SilentEvent(run, s, n - 1);
    }
  }

  lemma FiringWindsDown(run: Run, s: nat, d: nat)
    requires ValidRun(run) && SilentFrom(run, s) && s <= d < |run| && StateAt(run, s).generation < MAX_GENERATION
    requires FiresAt(run, d)
    ensures Phase(run[d].after) < Phase(run[d].before) || Phase(run[d].after) == 0
  {
    hide Apply, Calm, Phase, SilentFrom, FiresAt;
    SilentRunWindsDown(run, s, d, d);
    assert Linked(run, d);
    CalmLater(run[d].before, TimeAt(run, d), run[d].at);
    SilentEvent(run, s, d);
  }

  lemma PhaseOf(g: GroupView)
    ensures Phase(g) <= 2 && (Phase(g) == 0 <==> g.state == Empty)
  {
  }

  // Let a run get no further requests from event `s` on: the driver fires, and joins and syncs that are
  // already blocked make their rounds, in any order and at any times.  After two firings of the driver
  // the group is empty.
  lemma SilenceEmptiesTheGroup(run: Run, s: nat, first: nat, second: nat, n: nat)
    requires s <= first < second < n <= |run| && FiresAt(run, first) && FiresAt(run, second)
    requires ValidRun(run) && SilentFrom(run, s) && StateAt(run, s).generation < MAX_GENERATION
    ensures StateAt(run, n).state == Empty
  {
    hide ValidRun, Calm, Phase, SilentFrom, FiresAt;
    FiringWindsDown(run, s, first);
    SilentRunWindsDown(run, s, first + 1, second);
    FiringWindsDown(run, s, second);
    SilentRunWindsDown(run, s, second + 1, n);
    BeforeIs(run, second);
    PhaseOf(run[first].before);
    PhaseOf(StateAt(run, n));
  }

  lemma BeforeIs(run: Run, j: nat)
    requires ValidRun(run) && j < |run|
    ensures run[j].before == StateAt(run, j)
  {
    hide Follows;
    assert Linked(run, j);
  }

  lemma SoundHasTimer(g: GroupView, now: Time)
    requires Sound(g, now) && g.state != Empty && !Ready(g)
    ensures NextExpiry(g, None).Some?
  {
    hide SelectProtocol, Agreed;
    SessionTimerIsLeast(g, None);
    assert g.leader in g.members;
    if g.state == PreparingRebalance {
      var id :| id in g.members && g.members[id].joinedEpoch != g.epoch;
      assert Awaited(g, g.members[id]);
    } else if g.state == CompletingRebalance {
      assert Awaited(g, g.members[g.leader]);
    } else {
      assert InSession(g, g.members[g.leader]);
    }
  }

  lemma AwaitedHasTimer(g: GroupView)
    requires AllAwaited(g)
    ensures NextExpiry(g, None).Some?
  {
    var id := Pick(g.members.Keys);
    assert Awaited(g, g.members[id]);
  }

  // Until it is empty, a silent group always gives the driver a reason to fire: a timer or a rebalance
  // that is ready.
  lemma SilentGroupIsDriven(run: Run, s: nat, n: nat)
    requires ValidRun(run) && SilentFrom(run, s) && s <= n <= |run| && StateAt(run, s).generation < MAX_GENERATION
    ensures var g := StateAt(run, n);
            g.state == Empty || Ready(g) || NextExpiry(g, None).Some?
  {
    hide ValidRun, SilentFrom, Standing, Sound, NextExpiry, Ready, AllAwaited;
    SilentRunWindsDown(run, s, s, n);
    var g := StateAt(run, n);
    if Phase(g) == 1 {
      AwaitedHasTimer(g);
    } else if Phase(g) == 2 && !Ready(g) {
      SoundHasTimer(g, TimeAt(run, n));
    }
  }
}
