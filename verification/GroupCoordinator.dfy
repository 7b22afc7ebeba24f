/** The coordinator's group as the mutable object it is; every method is proved against GroupModel. */
module GroupCoordinator {
  import opened Text
  import opened GroupModel
  import M = GroupModel
  import opened ProtocolElection

  // ----- Offsets as they are fetched

  datatype FetchedOffset = FetchedOffset(key: TopicPartition, offset: Option<int>, metadata: Option<string>)

  function Fetch(offsets: map<TopicPartition, StoredOffset>, key: TopicPartition): FetchedOffset {
    if key in offsets then FetchedOffset(key, Some(offsets[key].offset), offsets[key].metadata)
    else FetchedOffset(key, None, None)
  }

  function FetchEach(offsets: map<TopicPartition, StoredOffset>, keys: seq<TopicPartition>): seq<FetchedOffset> {
    seq(|keys|, i requires 0 <= i < |keys| => Fetch(offsets, keys[i]))
  }

  lemma FetchTellsKey(offsets: map<TopicPartition, StoredOffset>, key: TopicPartition)
    ensures forall other :: Fetch(offsets, other) == Fetch(offsets, key) ==> other == key
  {
    assert forall other :: Fetch(offsets, other).key == other;
  }

  lemma NothingIsOrdered()
    ensures KeysOrdered([])
  {
  }

  predicate KeyLe(a: TopicPartition, b: TopicPartition) {
    Lt(a.topic, b.topic) || (a.topic == b.topic && a.partition <= b.partition)
  }

  predicate KeysOrdered(s: seq<FetchedOffset>) {
    forall i, j | 0 <= i < j < |s| :: KeyLe(s[i].key, s[j].key)
  }

  lemma KeyLeIsTotal(a: TopicPartition, b: TopicPartition)
    ensures KeyLe(a, b) || KeyLe(b, a)
  {
    LeIsTotal(a.topic, b.topic);
  }

  lemma KeyLeIsTransitive(a: TopicPartition, b: TopicPartition, c: TopicPartition)
    requires KeyLe(a, b) && KeyLe(b, c)
    ensures KeyLe(a, c)
  {
    if a.topic != b.topic && b.topic != c.topic {
      LtIsTransitive(a.topic, b.topic, c.topic);
    }
  }

  lemma InsertedIsOrdered(s: seq<FetchedOffset>, i: nat, x: FetchedOffset)
    requires KeysOrdered(s) && i <= |s|
    requires i > 0 ==> KeyLe(s[i - 1].key, x.key)
    requires forall j | i <= j < |s| :: KeyLe(x.key, s[j].key)
    ensures KeysOrdered(s[..i] + [x] + s[i..])
  {
    hide KeyLe;
    var r := s[..i] + [x] + s[i..];
    forall j | 0 <= j < i ensures KeyLe(s[j].key, x.key) {
      if j < i - 1 {
        KeyLeIsTransitive(s[j].key, s[i - 1].key, x.key);
      }
    }
    assert forall k | 0 <= k < |r| :: r[k] == if k < i then s[k] else if k == i then x else s[k - 1];
  }

  // One place of a stable insertion sort.
  method InsertByKey(s: seq<FetchedOffset>, x: FetchedOffset) returns (r: seq<FetchedOffset>)
    requires KeysOrdered(s)
    ensures KeysOrdered(r) && multiset(r) == multiset(s) + multiset{x}
  {
    hide KeyLe;
    var i := |s|;
    while i > 0 && !KeyLe(s[i - 1].key, x.key)
      invariant 0 <= i <= |s|
      invariant forall j | i <= j < |s| :: KeyLe(x.key, s[j].key)
    {
      i := i - 1;
      KeyLeIsTotal(s[i].key, x.key);
    }
    r := s[..i] + [x] + s[i..];
    assert s == s[..i] + s[i..];
    InsertedIsOrdered(s, i, x);
  }

  method SortByKey(s: seq<FetchedOffset>) returns (r: seq<FetchedOffset>)
    ensures KeysOrdered(r) && multiset(r) == multiset(s)
  {
    r := [];
    for i := 0 to |s|
      invariant KeysOrdered(r) && multiset(r) == multiset(s[..i])
    {
      r := InsertByKey(r, s[i]);
      assert s[..i + 1] == s[..i] + [s[i]];
    }
    assert s[..|s|] == s;
  }

  class Group {
    var state: GroupState
    var generation: int
    var epoch: nat
    var protocolType: string
    var selectedProtocol: string
    var leader: string
    var members: Members
    var assignments: map<string, Payload>
    var offsets: map<TopicPartition, StoredOffset>
    var deadline: Option<Time>
    var wakeups: nat

    ghost function View(): GroupView
      reads this
    {
      GroupView(state, generation, epoch, protocolType, selectedProtocol, leader, members, assignments,
                offsets, deadline, wakeups)
    }

    constructor ()
      ensures View() == NewGroup()
    {
      state, generation, epoch := Empty, 0, 0;
      protocolType, selectedProtocol, leader := "", "", "";
      members, assignments, offsets := map[], map[], map[];
      deadline, wakeups := None, 0;
    }

    // ----- Deadlines

    method LongestTimeout() returns (timeout: nat)
      ensures timeout == RebalanceTimeout(members)
    {
      ghost var timeouts := set id | id in members :: members[id].rebalanceTimeoutMs;
      if members == map[] {
        assert timeouts == {};
        return 0;
      }
      var first :| first in members;
      var longest := members[first].rebalanceTimeoutMs;
      assert longest in timeouts;
      var rest := members.Keys;
      while rest != {}
        invariant rest <= members.Keys && longest in timeouts
        invariant forall id | id in members.Keys - rest :: members[id].rebalanceTimeoutMs <= longest
        decreases rest
      {
        var id :| id in rest;
        if longest < members[id].rebalanceTimeoutMs {
          longest := members[id].rebalanceTimeoutMs;
        }
        rest := rest - {id};
      }
      return NonNegative(longest);
    }

    method NextExpiryDeadline(active: Option<string>) returns (timer: Option<Time>)
      ensures timer == NextExpiry(View(), active)
    {
      var awaited := false;
      var session: Option<Time> := None;
      ghost var deadlines := set id | id in members && active != Some(id) && InSession(View(), members[id])
                               :: MemberDeadline(members[id]) as int;
      var rest := members.Keys;
      while rest != {}
        invariant rest <= members.Keys
        invariant awaited <==>
                  exists id :: id in members.Keys - rest && active != Some(id) && Awaited(View(), members[id])
        invariant session.Some? ==> session.value in deadlines
        invariant forall id | id in members.Keys - rest && active != Some(id) && InSession(View(), members[id]) ::
          session.Some? && session.value <= MemberDeadline(members[id])
        decreases rest
      {
        var id :| id in rest;
        var m := members[id];
        if active != Some(id) {
          match state {
            case Empty =>
            case PreparingRebalance => awaited := awaited || m.joinedEpoch != epoch;
            case CompletingRebalance => awaited := awaited || m.syncedGeneration != generation;
            case Stable =>
              if m.syncedGeneration != generation {
                awaited := true;
              } else {
                assert MemberDeadline(m) in deadlines;
                session := Earlier(session, Some(MemberDeadline(m)));
              }
          }
        }
        rest := rest - {id};
      }
      timer := Earlier(if awaited then deadline else None, session);
      assert session == SessionTimer(View(), active);
      assert (if awaited then deadline else None) == RebalanceTimer(View(), active);
    }

    // ----- Transitions

    method NotifyWaiters()
      modifies `wakeups
      ensures wakeups == old(wakeups) + 1
    {
      wakeups := wakeups + 1;
    }

    method BeginRebalance(now: Time)
      modifies this
      ensures View() == M.BeginRebalance(old(View()), now)
    {
      hide RebalanceTimeout;
      epoch := NextEpoch(epoch);
      state := PreparingRebalance;
      assignments := map[];
      var timeout := LongestTimeout();
      deadline := Some(now + timeout);
      NotifyWaiters();
    }

    static method SmallestId(ids: set<string>) returns (least: string)
      requires ids != {}
      ensures least == Minimum(ids)
    {
      var sorted := SortIds(ids);
      FirstOfSorted(sorted);
      least := sorted[0];
    }

    method TransitionAfterRemoval(now: Time)
      modifies this
      ensures View() == M.TransitionAfterRemoval(old(View()), now)
    {
      hide RebalanceTimeout;
      if members == map[] {
        state := Empty;
        leader, protocolType, selectedProtocol := "", "", "";
        assignments := map[];
        deadline := None;
        NotifyWaiters();
        return;
      }
      if leader !in members {
        leader := SmallestId(members.Keys);
      }
      if state != PreparingRebalance {
        BeginRebalance(now);
      } else {
        assignments := map[];
        NotifyWaiters();
      }
    }

    method ExpireStaleMembers(now: Time, active: Option<string>)
      modifies this
      ensures View() == M.Expire(old(View()), now, active)
    {
      hide RebalanceTimeout;
      var expired := StaleMembersNow(now, active);
      if expired == {} {
        return;
      }
      label before:
      var rest := expired;
      while rest != {}
        invariant rest <= expired && members == old(members) - (expired - rest)
        invariant View().(members := old(members), assignments := old(assignments)) == old(View())
        decreases rest
      {
        var id :| id in rest;
        members := members - {id};
        assignments := assignments - {id};
        rest := rest - {id};
      }
      assert members == old(members) - expired;
      AssignmentsAreCleared(old(View()).(members := members), assignments, now);
      TransitionAfterRemoval(now);
    }

    function StaleMembersNow(now: Time, active: Option<string>): (stale: set<string>)
      reads this
      ensures stale == StaleMembers(View(), now, active)
    {
      var rebalanceExpired := deadline.Some? && deadline.value <= now;
      set id | id in members && active != Some(id) &&
               (match state
                case Empty => false
                case PreparingRebalance => rebalanceExpired && members[id].joinedEpoch != epoch
                case CompletingRebalance => rebalanceExpired && members[id].syncedGeneration != generation
                case Stable =>
                  if members[id].syncedGeneration != generation then rebalanceExpired
                  else MemberDeadline(members[id]) <= now)
    }

    // ----- Completion

    static method ListInOrder(members: Members, name: string, ids: seq<string>) returns (listed: seq<JoinedMember>)
      ensures listed == ListMembers(members, name, ids)
    {
      listed := [];
      var i := |ids|;
      while i > 0
        invariant 0 <= i <= |ids|
        invariant listed == ListMembers(members, name, ids[i..])
      {
        i := i - 1;
        assert ids[i..][1..] == ids[i + 1..];
        if ids[i] in members {
          match MetadataFor(members[ids[i]].protocols, name)
          case None =>
          case Some(metadata) => listed := [JoinedMember(ids[i], metadata)] + listed;
        }
      }
      assert ids[0..] == ids;
    }

    method MembersForLeader() returns (listed: seq<JoinedMember>)
      ensures listed == M.MembersForLeader(members, selectedProtocol)
    {
      var ids := SortIds(members.Keys);
      listed := ListInOrder(members, selectedProtocol, ids);
    }

    // Caches the join reply of the new generation with every member.
    method PublishJoins(leaderMembers: seq<JoinedMember>)
      requires leaderMembers == M.MembersForLeader(members, selectedProtocol)
      modifies `members
      ensures View() == Publish(old(View()))
    {
      hide M.MembersForLeader;
      ghost var before := View();
      ghost var published := Publish(before).members;
      var rest := members.Keys;
      while rest != {}
        invariant rest <= members.Keys && members.Keys == published.Keys == before.members.Keys
        invariant forall id | id in members :: members[id] == if id in rest then before.members[id] else published[id]
        decreases rest
      {
        var id :| id in rest;
        var listed := if id == leader then leaderMembers else [];
        var result := JoinedGroup(generation, protocolType, selectedProtocol, leader, id, listed);
        assert result == JoinResultFor(before, id);
        members := members[id := members[id].(completedJoin := Some(CompletedJoin(epoch, result)))];
        rest := rest - {id};
      }
      assert members == published;
    }

    method StartGeneration(now: Time, protocol: string)
      modifies this
      ensures View() == CompleteWith(old(View()), now, protocol)
    {
      hide RebalanceTimeout, M.MembersForLeader, Publish;
      selectedProtocol := protocol;
      generation := NextGeneration(generation);
      assignments := map[];
      state := CompletingRebalance;
      var timeout := LongestTimeout();
      deadline := Some(now + timeout);
      NotifyWaiters();
      var leaderMembers := MembersForLeader();
      PublishJoins(leaderMembers);
    }

    method CompleteRebalanceIfReady(now: Time) returns (failed: bool)
      modifies this
      ensures Completion(View(), failed) == CompleteIfReady(old(View()), now)
    {
      hide SelectProtocol, CompleteWith;
      if state != PreparingRebalance || members == map[]
         || exists id :: id in members && members[id].joinedEpoch != epoch {
        return false;
      }
      var choice := ChooseProtocol(members);
      if choice.None? {
        return true;
      }
      StartGeneration(now, choice.value);
      return false;
    }

    // ----- Requests

    // `join` up to its first wait.
    method SubmitJoin(now: Time, id: string, req: JoinRequest, mayAdd: bool) returns (reply: JoinReply)
      modifies this
      ensures Joining(View(), reply) == M.SubmitJoin(old(View()), now, id, req, mayAdd)
    {
      hide SelectProtocol, Expire, CompleteIfReady, Enroll;
      if req.protocols == [] || req.protocolType == "" {
        return JoinFailed(InconsistentGroupProtocol);
      }
      ExpireStaleMembers(now, None);
      if !mayAdd && id !in members {
        return JoinFailed(UnknownMemberId);
      }
      if members != map[] && protocolType != req.protocolType {
        return JoinFailed(InconsistentGroupProtocol);
      }
      var canReuse := state == CompletingRebalance || (state == Stable && leader != id);
      if canReuse && id in members && JoinMatches(members[id], req)
         && members[id].completedJoin.Some? && members[id].completedJoin.value.epoch == epoch {
        reply := Joined(members[id].completedJoin.value.result);
        members := members[id := members[id].(lastHeartbeat := now)];
        return;
      }
      var prospective := Prospective(now, id, req);
      var choice := ChooseProtocol(prospective);
      if choice.None? {
        return JoinFailed(InconsistentGroupProtocol);
      }
      var targetEpoch := EnrollMember(now, id, req, mayAdd, prospective);
      var failed := CompleteRebalanceIfReady(now);
      return if failed then JoinFailed(InconsistentGroupProtocol) else JoinWaiting(targetEpoch);
    }

    // The membership as it would be once the request is admitted.
    function Prospective(now: Time, id: string, req: JoinRequest): (prospective: Members)
      reads this
      ensures prospective == members[id := JoiningMember(View(), now, id, req)]
    {
      var targetEpoch := if state != PreparingRebalance then NextEpoch(epoch) else epoch;
      var synced := if id in members then members[id].syncedGeneration else -1;
      var completed := if id in members then members[id].completedJoin else None;
      members[id := Member(req.clientId, req.sessionTimeoutMs, req.rebalanceTimeoutMs, now, req.protocols,
                           targetEpoch, synced, completed)]
    }

    method EnrollMember(now: Time, id: string, req: JoinRequest, mayAdd: bool, prospective: Members)
      returns (targetEpoch: nat)
      requires prospective == members[id := JoiningMember(View(), now, id, req)]
      modifies this
      ensures View() == Enroll(old(View()), now, id, req, mayAdd) && targetEpoch == TargetEpoch(old(View()))
    {
      hide RebalanceTimeout;
      var starts := state != PreparingRebalance;
      targetEpoch := if starts then NextEpoch(epoch) else epoch;
      members := prospective;
      if starts {
        BeginRebalance(now);
      } else if mayAdd {
        var timeout := LongestTimeout();
        if deadline.None? || now + timeout > deadline.value {
          deadline := Some(now + timeout);
        }
      }
      protocolType := req.protocolType;
      if leader == "" {
        leader := id;
      }
    }

    // One round of `join`'s waiting loop.
    method PollJoin(now: Time, id: string, target: nat) returns (reply: JoinReply)
      modifies this
      ensures Joining(View(), reply) == M.PollJoin(old(View()), now, id, target)
    {
      hide Expire, CompleteIfReady;
      var cached := Cached(id, target);
      if cached.Some? {
        return Joined(cached.value);
      }
      if id !in members {
        return JoinFailed(UnknownMemberId);
      }
      if epoch != target {
        return JoinFailed(RebalanceInProgress);
      }
      ExpireStaleMembers(now, Some(id));
      var failed := CompleteRebalanceIfReady(now);
      if failed {
        return JoinFailed(InconsistentGroupProtocol);
      }
      cached := Cached(id, target);
      return if cached.Some? then Joined(cached.value) else JoinWaiting(target);
    }

    function Cached(id: string, target: nat): (cached: Option<JoinedGroup>)
      reads this
      ensures cached == CachedJoin(View(), id, target)
    {
      if id in members && members[id].completedJoin.Some? && members[id].completedJoin.value.epoch == target
      then Some(members[id].completedJoin.value.result)
      else None
    }

    // One round of `sync`'s loop.
    method SyncPass(now: Time, generationId: int, id: string, given: seq<SyncAssignment>, first: bool)
      returns (reply: SyncReply)
      modifies this
      ensures Syncing(View(), reply) == M.SyncPass(old(View()), now, generationId, id, given, first)
    {
      hide Expire, LeaderSync;
      ExpireStaleMembers(now, if first then None else Some(id));
      var invalid := ValidateMember(generationId, id);
      if invalid.Some? {
        return SyncFailed(invalid.value);
      }
      if first {
        members := members[id := members[id].(lastHeartbeat := now)];
      }
      match state {
        case Stable =>
          members := members[id := members[id].(syncedGeneration := generationId)];
          ClearDeadlineWhenAllSynced();
          NotifyWaiters();
          return if id in assignments then Assigned(assignments[id]) else SyncFailed(RebalanceInProgress);
        case PreparingRebalance => return SyncFailed(RebalanceInProgress);
        case Empty => return SyncFailed(RebalanceInProgress);
        case CompletingRebalance =>
      }
      if id == leader {
        reply := AcceptAssignments(now, id, generationId, given);
      } else {
        members := members[id := members[id].(syncedGeneration := generationId)];
        reply := SyncWaiting;
      }
    }

    method AcceptAssignments(now: Time, id: string, generationId: int, given: seq<SyncAssignment>)
      returns (reply: SyncReply)
      requires id in members
      modifies this
      ensures Syncing(View(), reply) == LeaderSync(old(View()), now, id, generationId, given)
    {
      hide AssignmentMap, CoversExactly, RefreshSynced, ClearDeadlineIfAllSynced;
      if !CoversExactly(given, members) {
        return SyncFailed(InvalidAssignment);
      }
      members := members[id := members[id].(syncedGeneration := generationId)];
      ghost var marked := MarkSynced(old(View()), id, generationId);
      assert View() == marked;
      assignments := CollectAssignments(given);
      RefreshSyncedMembers(generationId, now);
      state := Stable;
      assert View() == marked.(assignments := AssignmentMap(given),
                               members := RefreshSynced(marked.members, generationId, now),
                               state := Stable);
      ClearDeadlineWhenAllSynced();
      NotifyWaiters();
      return if id in assignments then Assigned(assignments[id]) else SyncFailed(RebalanceInProgress);
    }

    static method CollectAssignments(given: seq<SyncAssignment>) returns (table: map<string, Payload>)
      ensures table == AssignmentMap(given)
    {
      table := map[];
      for i := 0 to |given|
        invariant table == AssignmentMap(given[..i])
      {
        AssignmentMapStep(given, i);
        table := table[given[i].memberId := given[i].assignment];
      }
      assert given[..|given|] == given;
    }

    method RefreshSyncedMembers(generationId: int, now: Time)
      modifies `members
      ensures members == RefreshSynced(old(members), generationId, now)
    {
      var rest := members.Keys;
      while rest != {}
        invariant rest <= members.Keys && members.Keys == old(members).Keys
        invariant forall id | id in members ::
          members[id] == if id in rest then old(members)[id] else RefreshSynced(old(members), generationId, now)[id]
        decreases rest
      {
        var id :| id in rest;
        if members[id].syncedGeneration == generationId {
          members := members[id := members[id].(lastHeartbeat := now)];
        }
        rest := rest - {id};
      }
    }

    method ClearDeadlineWhenAllSynced()
      modifies `deadline
      ensures View() == ClearDeadlineIfAllSynced(old(View()))
    {
      if forall id | id in members :: members[id].syncedGeneration == generation {
        deadline := None;
      }
    }

    function ValidateMember(generationId: int, id: string): (error: Option<GroupError>)
      reads this
      ensures error == Validate(View(), generationId, id)
    {
      if id !in members then Some(UnknownMemberId)
      else if generation != generationId then Some(IllegalGeneration)
      else None
    }

    method Heartbeat(now: Time, generationId: int, id: string) returns (error: Option<GroupError>)
      modifies this
      ensures Outcome(View(), error) == M.Heartbeat(old(View()), now, generationId, id)
    {
      hide Expire;
      ExpireStaleMembers(now, None);
      error := ValidateMember(generationId, id);
      if error.Some? {
        return;
      }
      members := members[id := members[id].(lastHeartbeat := now)];
      if state == Empty || state == PreparingRebalance {
        error := Some(RebalanceInProgress);
      }
    }

    method Leave(now: Time, id: string) returns (error: Option<GroupError>)
      modifies this
      ensures Outcome(View(), error) == M.Leave(old(View()), now, id)
    {
      hide Expire, CompleteIfReady, M.TransitionAfterRemoval;
      ExpireStaleMembers(now, None);
      if id !in members {
        return Some(UnknownMemberId);
      }
      members := members - {id};
      AssignmentsAreCleared(View(), assignments - {id}, now);
      assignments := assignments - {id};
      TransitionAfterRemoval(now);
      var failed := CompleteRebalanceIfReady(now);
      return if failed then Some(InconsistentGroupProtocol) else None;
    }

    method CommitOffsets(now: Time, generationId: int, id: string, commits: seq<OffsetCommit>)
      returns (error: Option<GroupError>)
      modifies this
      ensures Outcome(View(), error) == M.CommitOffsets(old(View()), now, generationId, id, commits)
    {
      hide Expire;
      ExpireStaleMembers(now, None);
      error := ValidateMember(generationId, id);
      if error.Some? {
        return;
      }
      if state != Stable {
        return Some(RebalanceInProgress);
      }
      ghost var swept := View();
      for i := 0 to |commits|
        invariant View() == swept.(offsets := offsets)
        invariant StoreOffsets(offsets, commits[i..]) == StoreOffsets(swept.offsets, commits)
      {
        assert commits[i..][1..] == commits[i + 1..];
        offsets := offsets[commits[i].key := commits[i].stored];
      }
    }

    // What is stored for each requested key, or for every key, ordered by topic and partition.
    method FetchOffsets(requested: Option<seq<TopicPartition>>) returns (fetched: seq<FetchedOffset>)
      ensures KeysOrdered(fetched)
      ensures requested.Some? ==> multiset(fetched) == multiset(FetchEach(offsets, requested.value))
      ensures requested.None? ==> multiset(fetched) == multiset(set key | key in offsets :: Fetch(offsets, key))
    {
      hide Fetch, KeysOrdered;
      match requested
      case Some(keys) => fetched := SortByKey(FetchEach(offsets, keys));
      case None =>
        fetched := [];
        assert KeysOrdered(fetched) by { NothingIsOrdered(); }
        var rest := offsets.Keys;
        while rest != {}
          invariant rest <= offsets.Keys && KeysOrdered(fetched)
          invariant multiset(fetched) == multiset(set key | key in offsets.Keys - rest :: Fetch(offsets, key))
          decreases rest
        {
          var key :| key in rest;
          ghost var done := set k | k in offsets.Keys - rest :: Fetch(offsets, k);
          assert Fetch(offsets, key) !in done by { FetchTellsKey(offsets, key); }
          fetched := InsertByKey(fetched, Fetch(offsets, key));
          rest := rest - {key};
          assert (set k | k in offsets.Keys - rest :: Fetch(offsets, k)) == done + {Fetch(offsets, key)};
        }
        assert (set k | k in offsets.Keys - rest :: Fetch(offsets, k))
               == set key | key in offsets :: Fetch(offsets, key);
    }

    // One round of the deadline driver; its error is only logged.
    method DriveDeadlines(now: Time) returns (timer: Option<Time>)
      modifies this
      ensures View() == M.DriveDeadlines(old(View()), now)
      ensures timer == NextExpiry(View(), None)
    {
      hide Expire, CompleteIfReady, NextExpiry;
      ExpireStaleMembers(now, None);
      var _ := CompleteRebalanceIfReady(now);
      timer := NextExpiryDeadline(None);
    }
  }

  lemma AssignmentMapStep(given: seq<SyncAssignment>, i: nat)
    requires i < |given|
    ensures AssignmentMap(given[..i + 1]) == AssignmentMap(given[..i])[given[i].memberId := given[i].assignment]
  {
    assert given[..i + 1][..i] == given[..i];
  }

  // Every transition clears the assignments, so it does not matter which were removed before it.
  lemma AssignmentsAreCleared(g: GroupView, assignments: map<string, Payload>, now: Time)
    ensures M.TransitionAfterRemoval(g, now) == M.TransitionAfterRemoval(g.(assignments := assignments), now)
  {
  }
}
