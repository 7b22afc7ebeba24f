/** The timers of a consumer group: they agree with the sweep, never oversleep, and no waiter lacks one. */
module GroupDeadlines {
  import opened Text
  import opened GroupModel
  import opened GroupInvariant
  import opened GroupStanding

  // ----- The timer and the sweep

  predicate DueBy(timer: Option<Time>, now: Time) {
    timer.Some? && timer.value <= now
  }

  lemma SessionTimerIsLeast(g: GroupView, active: Option<string>)
    ensures forall id | id in g.members && active != Some(id) && InSession(g, g.members[id]) ::
      SessionTimer(g, active).Some? && SessionTimer(g, active).value <= MemberDeadline(g.members[id])
    ensures SessionTimer(g, active).Some? ==>
      exists id :: id in g.members && active != Some(id) && InSession(g, g.members[id])
                   && SessionTimer(g, active).value == MemberDeadline(g.members[id])
  {
    var deadlines := set id | id in g.members && active != Some(id) && InSession(g, g.members[id])
                       :: MemberDeadline(g.members[id]) as int;
    forall id | id in g.members && active != Some(id) && InSession(g, g.members[id])
      ensures SessionTimer(g, active).Some? && SessionTimer(g, active).value <= MemberDeadline(g.members[id])
    {
      assert MemberDeadline(g.members[id]) in deadlines;
    }
  }

  // For every group, instant and exempted member: the sweep removes someone exactly when the timer
  // that a waiter would sleep on is due.
  lemma TimerAgreesWithSweep(g: GroupView, now: Time, active: Option<string>)
    ensures StaleMembers(g, now, active) != {} <==> DueBy(NextExpiry(g, active), now)
  {
    SessionTimerIsLeast(g, active);
    if DueBy(NextExpiry(g, active), now) {
      var id: string;
      if DueBy(RebalanceTimer(g, active), now) {
        id :| id in g.members && active != Some(id) && Awaited(g, g.members[id]);
      } else {
        id :| id in g.members && active != Some(id) && InSession(g, g.members[id])
              && SessionTimer(g, active).value == MemberDeadline(g.members[id]);
      }
      assert id in StaleMembers(g, now, active);
    }
    if StaleMembers(g, now, active) != {} {
      var id := Pick(StaleMembers(g, now, active));
      assert Awaited(g, g.members[id]) || InSession(g, g.members[id]);
    }
  }

  // ----- Steps that do not notify leave the timer where it was, or later

  predicate NotEarlier(before: Option<Time>, after: Option<Time>) {
    after.None? || (before.Some? && before.value <= after.value)
  }

  ghost predicate TimersRise(a: GroupView, b: GroupView) {
    && (a.deadline.Some? ==> NotEarlier(a.deadline, b.deadline))
    && (a.deadline.None? ==> b.deadline.None?)
    && forall id | id in b.members ::
         && (Awaited(b, b.members[id]) ==> id in a.members && Awaited(a, a.members[id]))
         && (InSession(b, b.members[id]) ==>
               && id in a.members && InSession(a, a.members[id])
               && MemberDeadline(a.members[id]) <= MemberDeadline(b.members[id]))
  }

  lemma RisingTimersAreNotEarlier(a: GroupView, b: GroupView)
    requires TimersRise(a, b)
    ensures NotEarlier(NextExpiry(a, None), NextExpiry(b, None))
  {
    SessionTimerIsLeast(a, None);
    SessionTimerIsLeast(b, None);
    if RebalanceTimer(b, None).Some? {
      var id :| id in b.members && Awaited(b, b.members[id]);
      assert id in a.members && Awaited(a, a.members[id]);
      assert RebalanceTimer(a, None) == a.deadline;
    }
    if SessionTimer(b, None).Some? {
      var id :| id in b.members && InSession(b, b.members[id])
                && SessionTimer(b, None).value == MemberDeadline(b.members[id]);
      assert id in a.members && InSession(a, a.members[id]);
    }
  }

  // A step the driver may sleep through: nothing falls due earlier, and no rebalance became ready.
  ghost predicate Quiet(a: GroupView, b: GroupView) {
    NotEarlier(NextExpiry(a, None), NextExpiry(b, None)) && (Ready(b) ==> Ready(a))
  }

  // Either the waiters are woken or the step is quiet.
  ghost predicate WakesOrQuiet(a: GroupView, b: GroupView) {
    a.wakeups < b.wakeups || Quiet(a, b)
  }

  lemma RisingIsQuiet(a: GroupView, b: GroupView)
    requires TimersRise(a, b) && (Ready(b) ==> Ready(a))
    ensures Quiet(a, b)
  {
    RisingTimersAreNotEarlier(a, b);
  }

  lemma TouchRises(g: GroupView, id: string, now: Time)
    requires id in g.members && HeartbeatsSound(g, now)
    ensures TimersRise(g, Touch(g, id, now)) && (Ready(Touch(g, id, now)) ==> Ready(g))
  {
    var touched := Touch(g, id, now);
    if Ready(touched) {
      forall other | other in g.members ensures g.members[other].joinedEpoch == g.epoch {
        assert touched.members[other].joinedEpoch == g.epoch;
      }
    }
  }

  lemma SubmitJoinIsHeard(g: GroupView, now: Time, id: string, req: JoinRequest, mayAdd: bool)
    requires TimersSound(g) && HeartbeatsSound(g, now)
    ensures WakesOrQuiet(g, SubmitJoin(g, now, id, req, mayAdd).g)
  {
    hide SelectProtocol, RebalanceTimeout, NextExpiry, StaleMembers, TransitionAfterRemoval, JoinResultFor;
    var r := SubmitJoin(g, now, id, req, mayAdd);
    if r.g.wakeups == g.wakeups && r.g != g {
      assert Expire(g, now, None) == g;
      if r.reply.Joined? {
        TouchRises(g, id, now);
        RisingIsQuiet(g, r.g);
      } else {
        var enrolled := Enroll(g, now, id, req, mayAdd);
        assert r.g == enrolled && !Ready(enrolled) by { hide Enroll; }
        EnrollRises(g, now, id, req, mayAdd);
        RisingIsQuiet(g, r.g);
      }
    } else if r.g == g {
      RisingIsQuiet(g, g);
    }
  }

  lemma EnrollRises(g: GroupView, now: Time, id: string, req: JoinRequest, mayAdd: bool)
    requires TimersSound(g) && g.state == PreparingRebalance
    ensures TimersRise(g, Enroll(g, now, id, req, mayAdd))
  {
    hide RebalanceTimeout;
  }

  lemma SyncIsHeard(g: GroupView, now: Time, generation: int, id: string,
                    assignments: seq<SyncAssignment>, first: bool)
    requires TimersSound(g) && HeartbeatsSound(g, now)
    ensures WakesOrQuiet(g, SyncPass(g, now, generation, id, assignments, first).g)
  {
    hide SelectProtocol, RebalanceTimeout, NextExpiry, Agreed, LeaderSync;
    var r := SyncPass(g, now, generation, id, assignments, first);
    if r.g.wakeups == g.wakeups {
      assert Expire(g, now, if first then None else Some(id)) == g;
      RisingIsQuiet(g, g);
      if Validate(g, generation, id).None? {
        TouchRises(g, id, now);
        var touched := if first then Touch(g, id, now) else g;
        RisingIsQuiet(g, touched);
        if touched.state == CompletingRebalance {
          RisingIsQuiet(g, MarkSynced(touched, id, generation));
        }
      }
    }
  }

  lemma HeartbeatIsHeard(g: GroupView, now: Time, generation: int, id: string)
    requires TimersSound(g) && HeartbeatsSound(g, now)
    ensures WakesOrQuiet(g, Heartbeat(g, now, generation, id).g)
  {
    hide SelectProtocol, RebalanceTimeout, NextExpiry, Agreed;
    var r := Heartbeat(g, now, generation, id);
    if r.g.wakeups == g.wakeups {
      assert Expire(g, now, None) == g;
      RisingIsQuiet(g, g);
      if id in g.members {
        TouchRises(g, id, now);
        RisingIsQuiet(g, Touch(g, id, now));
      }
    }
  }

  lemma CommitIsHeard(g: GroupView, now: Time, generation: int, id: string, commits: seq<OffsetCommit>)
    requires TimersSound(g) && HeartbeatsSound(g, now)
    ensures WakesOrQuiet(g, CommitOffsets(g, now, generation, id, commits).g)
  {
    hide SelectProtocol, RebalanceTimeout, NextExpiry, Agreed;
    var r := CommitOffsets(g, now, generation, id, commits);
    if r.g.wakeups == g.wakeups {
      assert Expire(g, now, None) == g;
      RisingIsQuiet(g, r.g);
    }
  }

  // The steps whose every change goes through a removal or a completion.
  lemma RemainingStepsAreHeard(g: GroupView, now: Time, id: string, epoch: nat, active: Option<string>)
    ensures WakesOrQuiet(g, PollJoin(g, now, id, epoch).g)
    ensures WakesOrQuiet(g, Leave(g, now, id).g)
    ensures WakesOrQuiet(g, Expire(g, now, active))
    ensures WakesOrQuiet(g, DriveDeadlines(g, now))
  {
    hide SelectProtocol, RebalanceTimeout, NextExpiry, Agreed;
    RisingIsQuiet(g, g);
  }

  // ----- A caller that waits always has a timer to wait on

  lemma WaitingIsPreparing(g: GroupView, now: Time, id: string)
    requires Standing(g, now) && id in g.members && CachedJoin(g, id, g.epoch).None?
    ensures g.state == PreparingRebalance && g.deadline.Some?
  {
    hide SelectProtocol, JoinResultFor;
    assert g.state == CompletingRebalance || g.state == Stable ==> Published(g, id);
  }

  lemma SweepKeepsPreparing(g: GroupView, now: Time, id: string)
    requires g.state == PreparingRebalance && id in g.members
    ensures var swept := Expire(g, now, Some(id));
            swept.state == PreparingRebalance && swept.epoch == g.epoch && swept.deadline == g.deadline
            && id in swept.members
  {
    assert id in g.members - StaleMembers(g, now, Some(id));
  }

  // A join waits only for a rebalance that it has joined and somebody else has not, and never
  // without a timer.
  lemma WaitingJoinHasTimer(g: GroupView, now: Time, id: string, epoch: nat)
    requires Standing(g, now) && PollJoin(g, now, id, epoch).reply.JoinWaiting?
    requires id in g.members && g.epoch == epoch ==> g.members[id].joinedEpoch == epoch
    ensures var w := PollJoin(g, now, id, epoch).g;
            && w.state == PreparingRebalance && w.epoch == epoch && id in w.members
            && (exists other :: other in w.members && w.members[other].joinedEpoch != epoch)
            && NextExpiry(w, Some(id)).Some?
  {
    hide SelectProtocol, Agreed, SessionTimer, Expire, Standing;
    var swept := Expire(g, now, Some(id));
    WaitingIsPreparing(g, now, id);
    SweepKeepsPreparing(g, now, id);
    if Ready(swept) {
      CompletedIsCached(swept, now, id);
    }
    var other :| other in swept.members && swept.members[other].joinedEpoch != epoch;
    assert other != id && Awaited(swept, swept.members[other]);
  }

  lemma CompletedIsCached(g: GroupView, now: Time, id: string)
    requires Ready(g) && id in g.members && !CompleteIfReady(g, now).failed
    ensures CachedJoin(CompleteIfReady(g, now).g, id, g.epoch).Some?
  {
    hide MembersForLeader, RebalanceTimeout;
  }

  // A sync waits only in a generation whose leader has not assigned yet, and never without a timer.
  lemma WaitingSyncHasTimer(g: GroupView, now: Time, generation: int, id: string,
                            assignments: seq<SyncAssignment>, first: bool)
    requires Sound(g, now) && SyncPass(g, now, generation, id, assignments, first).reply.SyncWaiting?
    requires Counting(g, SyncPass(g, now, generation, id, assignments, first).g)
    ensures var w := SyncPass(g, now, generation, id, assignments, first).g;
            && w.state == CompletingRebalance && w.leader in w.members && w.leader != id
            && w.members[w.leader].syncedGeneration != w.generation
            && NextExpiry(w, Some(id)).Some?
  {
    hide SelectProtocol, Agreed, SessionTimer, Expire, LeaderSync;
    var w := SyncPass(g, now, generation, id, assignments, first).g;
    SyncIsSound(g, now, generation, id, assignments, first);
    LeaderNeverWaits(Touch(Expire(g, now, if first then None else Some(id)), id, now), now, id, generation,
                     assignments);
    LeaderNeverWaits(Expire(g, now, if first then None else Some(id)), now, id, generation, assignments);
    assert Awaited(w, w.members[w.leader]);
  }

  lemma LeaderNeverWaits(g: GroupView, now: Time, id: string, generation: int, assignments: seq<SyncAssignment>)
    requires id in g.members
    ensures !LeaderSync(g, now, id, generation, assignments).reply.SyncWaiting?
  {
  }
}
