/**
 A consumer group as a value, and every lock-holding block of the coordinator as a function on it.
 One block is one atomic step at one instant.  The counter `wakeups` counts the calls of
 `notify_waiters`.
 */
module GroupModel {
  import opened Text

  type Time = nat
  type Payload = seq<nat>

  const MAX_GENERATION: int := 0x7fff_ffff
  const MAX_EPOCH: int := 0xffff_ffff_ffff_ffff

  datatype GroupState = Empty | PreparingRebalance | CompletingRebalance | Stable

  datatype GroupError =
    | UnknownMemberId
    | IllegalGeneration
    | RebalanceInProgress
    | InconsistentGroupProtocol
    | InvalidAssignment

  datatype JoinProtocol = JoinProtocol(name: string, metadata: Payload)

  datatype JoinedMember = JoinedMember(memberId: string, metadata: Payload)

  datatype JoinedGroup = JoinedGroup(
    generation: int,
    protocolType: string,
    protocolName: string,
    leader: string,
    memberId: string,
    members: seq<JoinedMember>)

  datatype CompletedJoin = CompletedJoin(epoch: nat, result: JoinedGroup)

  datatype Member = Member(
    clientId: string,
    sessionTimeoutMs: int,
    rebalanceTimeoutMs: int,
    lastHeartbeat: Time,
    protocols: seq<JoinProtocol>,
    joinedEpoch: nat,
    syncedGeneration: int,
    completedJoin: Option<CompletedJoin>)

  datatype TopicPartition = TopicPartition(topic: string, partition: int)
  datatype StoredOffset = StoredOffset(offset: int, metadata: Option<string>)
  datatype OffsetCommit = OffsetCommit(key: TopicPartition, stored: StoredOffset)
  datatype SyncAssignment = SyncAssignment(memberId: string, assignment: Payload)

  datatype JoinRequest = JoinRequest(
    clientId: string,
    sessionTimeoutMs: int,
    rebalanceTimeoutMs: int,
    protocolType: string,
    protocols: seq<JoinProtocol>)

  type Members = map<string, Member>

  datatype GroupView = GroupView(
    state: GroupState,
    generation: int,
    epoch: nat,
    protocolType: string,
    selectedProtocol: string,
    leader: string,
    members: Members,
    assignments: map<string, Payload>,
    offsets: map<TopicPartition, StoredOffset>,
    deadline: Option<Time>,
    wakeups: nat)

  function NewGroup(): GroupView {
    GroupView(Empty, 0, 0, "", "", "", map[], map[], map[], None, 0)
  }

  // The two counters saturate instead of wrapping.
  function NextEpoch(epoch: nat): nat {
    if epoch < MAX_EPOCH then epoch + 1 else epoch
  }

  function NextGeneration(generation: int): int {
    if generation < MAX_GENERATION then generation + 1 else generation
  }

  predicate Unsaturated(g: GroupView) {
    g.generation < MAX_GENERATION && g.epoch < MAX_EPOCH
  }

  function NonNegative(ms: int): nat {
    if ms < 0 then 0 else ms
  }

  // ----- Protocol selection

  predicate Advertises(m: Member, name: string) {
    exists i :: 0 <= i < |m.protocols| && m.protocols[i].name == name
  }

  predicate Common(members: Members, name: string) {
    forall id | id in members :: Advertises(members[id], name)
  }

  // The index of the first protocol of `m` that every member advertises, or |m.protocols|.
  function FirstCommon(members: Members, m: Member, from: nat): (i: nat)
    requires from <= |m.protocols|
    ensures from <= i <= |m.protocols|
    ensures i < |m.protocols| ==> Common(members, m.protocols[i].name)
    ensures forall j | from <= j < i :: !Common(members, m.protocols[j].name)
    decreases |m.protocols| - from
  {
    if from == |m.protocols| || Common(members, m.protocols[from].name) then from
    else FirstCommon(members, m, from + 1)
  }

  predicate VotesFor(members: Members, id: string, name: string)
    requires id in members
  {
    var m := members[id];
    var i := FirstCommon(members, m, 0);
    i < |m.protocols| && m.protocols[i].name == name
  }

  function Voters(members: Members, name: string): set<string> {
    set id | id in members && VotesFor(members, id, name)
  }

  // The plurality of first common preferences, ties to the smallest name.
  ghost predicate IsElected(members: Members, name: string) {
    && Voters(members, name) != {}
    && forall other: string | Voters(members, other) != {} ::
         || |Voters(members, other)| < |Voters(members, name)|
         || (|Voters(members, other)| == |Voters(members, name)| && Le(name, other))
  }

  ghost function SelectProtocol(members: Members): Option<string> {
    if exists name :: IsElected(members, name) then
      var name :| IsElected(members, name);
      Some(name)
    else
      None
  }

  function MetadataFor(protocols: seq<JoinProtocol>, name: string): Option<Payload> {
    if protocols == [] then None
    else if protocols[0].name == name then Some(protocols[0].metadata)
    else MetadataFor(protocols[1..], name)
  }

  // `filter_map` over the members, sorted by id.
  function ListMembers(members: Members, name: string, ids: seq<string>): seq<JoinedMember> {
    if ids == [] then []
    else
      var rest := ListMembers(members, name, ids[1..]);
      if ids[0] !in members then rest
      else match MetadataFor(members[ids[0]].protocols, name)
        case None => rest
        case Some(metadata) => [JoinedMember(ids[0], metadata)] + rest
  }

  ghost function MembersForLeader(members: Members, name: string): seq<JoinedMember> {
    ListMembers(members, name, Sorted(members.Keys))
  }

  // ----- Deadlines

  ghost function RebalanceTimeout(members: Members): nat {
    var timeouts := set id | id in members :: members[id].rebalanceTimeoutMs;
    if timeouts == {} then 0 else NonNegative(Greatest(timeouts))
  }

  function MemberDeadline(m: Member): Time {
    m.lastHeartbeat + NonNegative(m.sessionTimeoutMs)
  }

  predicate DeadlinePassed(g: GroupView, now: Time) {
    g.deadline.Some? && g.deadline.value <= now
  }

  // Whom the rebalance deadline is waiting for.
  predicate Awaited(g: GroupView, m: Member) {
    match g.state
    case Empty => false
    case PreparingRebalance => m.joinedEpoch != g.epoch
    case CompletingRebalance => m.syncedGeneration != g.generation
    case Stable => m.syncedGeneration != g.generation
  }

  // Who lives by its own session deadline.
  predicate InSession(g: GroupView, m: Member) {
    g.state == Stable && m.syncedGeneration == g.generation
  }

  predicate Overdue(g: GroupView, now: Time, m: Member) {
    match g.state
    case Empty => false
    case PreparingRebalance => DeadlinePassed(g, now) && m.joinedEpoch != g.epoch
    case CompletingRebalance => DeadlinePassed(g, now) && m.syncedGeneration != g.generation
    case Stable =>
      var pending := m.syncedGeneration != g.generation;
      (DeadlinePassed(g, now) && pending) || (!pending && MemberDeadline(m) <= now)
  }

  function StaleMembers(g: GroupView, now: Time, active: Option<string>): set<string> {
    set id | id in g.members && active != Some(id) && Overdue(g, now, g.members[id])
  }

  function Earlier(a: Option<Time>, b: Option<Time>): Option<Time> {
    if a.None? then b
    else if b.None? || a.value <= b.value then a
    else b
  }

  ghost function RebalanceTimer(g: GroupView, active: Option<string>): Option<Time> {
    if exists id :: id in g.members && active != Some(id) && Awaited(g, g.members[id]) then g.deadline else None
  }

  ghost function SessionTimer(g: GroupView, active: Option<string>): Option<Time> {
    var deadlines := set id | id in g.members && active != Some(id) && InSession(g, g.members[id])
                       :: MemberDeadline(g.members[id]) as int;
    if deadlines == {} then None else Some(Least(deadlines))
  }

  ghost function NextExpiry(g: GroupView, active: Option<string>): Option<Time> {
    Earlier(RebalanceTimer(g, active), SessionTimer(g, active))
  }

  // ----- Transitions

  ghost function BeginRebalance(g: GroupView, now: Time): GroupView {
    g.(epoch := NextEpoch(g.epoch),
       state := PreparingRebalance,
       assignments := map[],
       deadline := Some(now + RebalanceTimeout(g.members)),
       wakeups := g.wakeups + 1)
  }

  ghost function TransitionAfterRemoval(g: GroupView, now: Time): (r: GroupView)
    ensures r.members == g.members && r.assignments == map[] && r.offsets == g.offsets
    ensures r.generation == g.generation && r.epoch >= g.epoch && r.wakeups == g.wakeups + 1
    ensures r.state == Empty || r.state == PreparingRebalance
  {
    if g.members == map[] then
      g.(state := Empty, leader := "", protocolType := "", selectedProtocol := "",
         assignments := map[], deadline := None, wakeups := g.wakeups + 1)
    else
      var led := if g.leader in g.members then g else g.(leader := Minimum(g.members.Keys));
      if g.state != PreparingRebalance then BeginRebalance(led, now)
      else led.(assignments := map[], wakeups := g.wakeups + 1)
  }

  ghost function Expire(g: GroupView, now: Time, active: Option<string>): (r: GroupView)
    ensures r.members == g.members - StaleMembers(g, now, active) && r.offsets == g.offsets
    ensures r.generation == g.generation && r.epoch >= g.epoch
    ensures r == g || (r.wakeups == g.wakeups + 1 && (r.state == Empty || r.state == PreparingRebalance))
  {
    var stale := StaleMembers(g, now, active);
    if stale == {} then g
    else TransitionAfterRemoval(g.(members := g.members - stale), now)
  }

  predicate AllRejoined(g: GroupView) {
    forall id | id in g.members :: g.members[id].joinedEpoch == g.epoch
  }

  predicate Ready(g: GroupView) {
    g.state == PreparingRebalance && g.members != map[] && AllRejoined(g)
  }

  ghost function JoinResultFor(g: GroupView, id: string): JoinedGroup {
    JoinedGroup(g.generation, g.protocolType, g.selectedProtocol, g.leader, id,
                if id == g.leader then MembersForLeader(g.members, g.selectedProtocol) else [])
  }

  ghost function Publish(g: GroupView): GroupView {
    g.(members := map id | id in g.members ::
         g.members[id].(completedJoin := Some(CompletedJoin(g.epoch, JoinResultFor(g, id)))))
  }

  ghost function CompleteWith(g: GroupView, now: Time, protocol: string): GroupView {
    Publish(g.(selectedProtocol := protocol,
               generation := NextGeneration(g.generation),
               assignments := map[],
               state := CompletingRebalance,
               deadline := Some(now + RebalanceTimeout(g.members)),
               wakeups := g.wakeups + 1))
  }

  datatype Completion = Completion(g: GroupView, failed: bool)

  ghost function CompleteIfReady(g: GroupView, now: Time): (c: Completion)
    ensures c.g.members.Keys == g.members.Keys && c.g.offsets == g.offsets
    ensures c.g.generation >= g.generation && c.g.epoch == g.epoch
    ensures c.g == g || (c.g.wakeups == g.wakeups + 1 && c.g.state == CompletingRebalance)
  {
    if !Ready(g) then Completion(g, false)
    else match SelectProtocol(g.members)
      case None => Completion(g, true)
      case Some(protocol) => Completion(CompleteWith(g, now, protocol), false)
  }

  // ----- Joining

  datatype JoinReply = Joined(result: JoinedGroup) | JoinWaiting(epoch: nat) | JoinFailed(error: GroupError)

  predicate JoinMatches(m: Member, req: JoinRequest) {
    && m.clientId == req.clientId
    && m.sessionTimeoutMs == req.sessionTimeoutMs
    && m.rebalanceTimeoutMs == req.rebalanceTimeoutMs
    && m.protocols == req.protocols
  }

  function CachedJoin(g: GroupView, id: string, epoch: nat): Option<JoinedGroup> {
    if id in g.members && g.members[id].completedJoin.Some? && g.members[id].completedJoin.value.epoch == epoch
    then Some(g.members[id].completedJoin.value.result)
    else None
  }

  predicate CanReuseJoin(g: GroupView, id: string) {
    g.state == CompletingRebalance || (g.state == Stable && g.leader != id)
  }

  function Touch(g: GroupView, id: string, now: Time): GroupView
    requires id in g.members
  {
    g.(members := g.members[id := g.members[id].(lastHeartbeat := now)])
  }

  function TargetEpoch(g: GroupView): nat {
    if g.state == PreparingRebalance then g.epoch else NextEpoch(g.epoch)
  }

  function JoiningMember(g: GroupView, now: Time, id: string, req: JoinRequest): Member {
    Member(req.clientId, req.sessionTimeoutMs, req.rebalanceTimeoutMs, now, req.protocols, TargetEpoch(g),
           if id in g.members then g.members[id].syncedGeneration else -1,
           if id in g.members then g.members[id].completedJoin else None)
  }

  ghost function ExtendDeadline(g: GroupView, now: Time): GroupView {
    var candidate := now + RebalanceTimeout(g.members);
    if g.deadline.None? || candidate > g.deadline.value then g.(deadline := Some(candidate)) else g
  }

  // The group once the joining member is in it and the rebalance is on.
  ghost function Enroll(g: GroupView, now: Time, id: string, req: JoinRequest, mayAdd: bool): (r: GroupView)
    ensures r.generation == g.generation && r.epoch == TargetEpoch(g) && r.offsets == g.offsets
    ensures r.state == PreparingRebalance && r.members == g.members[id := JoiningMember(g, now, id, req)]
    ensures r.wakeups >= g.wakeups
  {
    var added := g.(members := g.members[id := JoiningMember(g, now, id, req)]);
    var timed := if g.state != PreparingRebalance then BeginRebalance(added, now)
                 else if mayAdd then ExtendDeadline(added, now)
                 else added;
    timed.(protocolType := req.protocolType, leader := if timed.leader == "" then id else timed.leader)
  }

  datatype Joining = Joining(g: GroupView, reply: JoinReply)

  // The block of `join` that admits the member, up to its first wait.  `id` is the requested id or
  // the allocated one; `mayAdd` says that the id was just allocated or is pending.
  ghost function SubmitJoin(g0: GroupView, now: Time, id: string, req: JoinRequest, mayAdd: bool): Joining {
    if req.protocols == [] || req.protocolType == "" then Joining(g0, JoinFailed(InconsistentGroupProtocol))
    else
      var g := Expire(g0, now, None);
      if !mayAdd && id !in g.members then Joining(g, JoinFailed(UnknownMemberId))
      else if g.members != map[] && g.protocolType != req.protocolType then
        Joining(g, JoinFailed(InconsistentGroupProtocol))
      else if CanReuseJoin(g, id) && CachedJoin(g, id, g.epoch).Some? && JoinMatches(g.members[id], req) then
        Joining(Touch(g, id, now), Joined(CachedJoin(g, id, g.epoch).value))
      else if SelectProtocol(g.members[id := JoiningMember(g, now, id, req)]).None? then
        Joining(g, JoinFailed(InconsistentGroupProtocol))
      else
        var c := CompleteIfReady(Enroll(g, now, id, req, mayAdd), now);
        Joining(c.g, if c.failed then JoinFailed(InconsistentGroupProtocol) else JoinWaiting(TargetEpoch(g)))
  }

  // One round of `join`'s waiting loop.
  ghost function PollJoin(g0: GroupView, now: Time, id: string, epoch: nat): Joining {
    if CachedJoin(g0, id, epoch).Some? then Joining(g0, Joined(CachedJoin(g0, id, epoch).value))
    else if id !in g0.members then Joining(g0, JoinFailed(UnknownMemberId))
    else if g0.epoch != epoch then Joining(g0, JoinFailed(RebalanceInProgress))
    else
      var c := CompleteIfReady(Expire(g0, now, Some(id)), now);
      if c.failed then Joining(c.g, JoinFailed(InconsistentGroupProtocol))
      else if CachedJoin(c.g, id, epoch).Some? then Joining(c.g, Joined(CachedJoin(c.g, id, epoch).value))
      else Joining(c.g, JoinWaiting(epoch))
  }

  // ----- Syncing

  function Validate(g: GroupView, generation: int, id: string): Option<GroupError> {
    if id !in g.members then Some(UnknownMemberId)
    else if g.generation != generation then Some(IllegalGeneration)
    else None
  }

  function MarkSynced(g: GroupView, id: string, generation: int): GroupView
    requires id in g.members
  {
    g.(members := g.members[id := g.members[id].(syncedGeneration := generation)])
  }

  predicate AllSynced(g: GroupView) {
    forall id | id in g.members :: g.members[id].syncedGeneration == g.generation
  }

  function ClearDeadlineIfAllSynced(g: GroupView): GroupView {
    if AllSynced(g) then g.(deadline := None) else g
  }

  function AssignedIds(assignments: seq<SyncAssignment>): set<string> {
    set i | 0 <= i < |assignments| :: assignments[i].memberId
  }

  // Every member exactly once and nobody else.
  predicate CoversExactly(assignments: seq<SyncAssignment>, members: Members) {
    && |AssignedIds(assignments)| == |assignments|
    && |AssignedIds(assignments)| == |members|
    && forall id | id in members :: id in AssignedIds(assignments)
  }

  function AssignmentMap(assignments: seq<SyncAssignment>): map<string, Payload> {
    if assignments == [] then map[]
    else
      var last := assignments[|assignments| - 1];
      AssignmentMap(assignments[..|assignments| - 1])[last.memberId := last.assignment]
  }

  // Everybody who has synced is alive as of the leader's sync.
  function RefreshSynced(members: Members, generation: int, now: Time): Members {
    map id | id in members ::
      if members[id].syncedGeneration == generation then members[id].(lastHeartbeat := now) else members[id]
  }

  datatype SyncReply = Assigned(assignment: Payload) | SyncWaiting | SyncFailed(error: GroupError)
  datatype Syncing = Syncing(g: GroupView, reply: SyncReply)

  function AssignmentReply(g: GroupView, id: string): SyncReply {
    if id in g.assignments then Assigned(g.assignments[id]) else SyncFailed(RebalanceInProgress)
  }

  function LeaderSync(g: GroupView, now: Time, id: string, generation: int,
                      assignments: seq<SyncAssignment>): (r: Syncing)
    requires id in g.members
    ensures r.g.generation == g.generation && r.g.epoch == g.epoch && r.g.offsets == g.offsets
    ensures r.g == g || r.g.wakeups == g.wakeups + 1
  {
    if !CoversExactly(assignments, g.members) then Syncing(g, SyncFailed(InvalidAssignment))
    else
      var marked := MarkSynced(g, id, generation);
      var stable := ClearDeadlineIfAllSynced(
                      marked.(assignments := AssignmentMap(assignments),
                              members := RefreshSynced(marked.members, generation, now),
                              state := Stable)).(wakeups := g.wakeups + 1);
      Syncing(stable, AssignmentReply(stable, id))
  }

  // One round of `sync`'s loop; only the first round refreshes the member's heartbeat and leaves it
  // open to expiry.
  ghost function SyncPass(g0: GroupView, now: Time, generation: int, id: string,
                          assignments: seq<SyncAssignment>, first: bool): Syncing
  {
    var swept := Expire(g0, now, if first then None else Some(id));
    match Validate(swept, generation, id)
    case Some(error) => Syncing(swept, SyncFailed(error))
    case None =>
      var g := if first then Touch(swept, id, now) else swept;
      match g.state
      case Stable =>
        var synced := ClearDeadlineIfAllSynced(MarkSynced(g, id, generation)).(wakeups := g.wakeups + 1);
        Syncing(synced, AssignmentReply(synced, id))
      case PreparingRebalance => Syncing(g, SyncFailed(RebalanceInProgress))
      case Empty => Syncing(g, SyncFailed(RebalanceInProgress))
      case CompletingRebalance =>
        if id == g.leader then LeaderSync(g, now, id, generation, assignments)
        else Syncing(MarkSynced(g, id, generation), SyncWaiting)
  }

  // ----- The remaining requests

  datatype Outcome = Outcome(g: GroupView, error: Option<GroupError>)

  ghost function Heartbeat(g0: GroupView, now: Time, generation: int, id: string): Outcome {
    var g := Expire(g0, now, None);
    match Validate(g, generation, id)
    case Some(error) => Outcome(g, Some(error))
    case None =>
      Outcome(Touch(g, id, now),
              if g.state == CompletingRebalance || g.state == Stable then None else Some(RebalanceInProgress))
  }

  ghost function Leave(g0: GroupView, now: Time, id: string): Outcome {
    var g := Expire(g0, now, None);
    if id !in g.members then Outcome(g, Some(UnknownMemberId))
    else
      var c := CompleteIfReady(TransitionAfterRemoval(g.(members := g.members - {id}), now), now);
      Outcome(c.g, if c.failed then Some(InconsistentGroupProtocol) else None)
  }

  function StoreOffsets(offsets: map<TopicPartition, StoredOffset>, commits: seq<OffsetCommit>)
    : map<TopicPartition, StoredOffset>
    decreases |commits|
  {
    if commits == [] then offsets
    else StoreOffsets(offsets[commits[0].key := commits[0].stored], commits[1..])
  }

  ghost function CommitOffsets(g0: GroupView, now: Time, generation: int, id: string,
                               commits: seq<OffsetCommit>): Outcome {
    var g := Expire(g0, now, None);
    match Validate(g, generation, id)
    case Some(error) => Outcome(g, Some(error))
    case None =>
      if g.state != Stable then Outcome(g, Some(RebalanceInProgress))
      else Outcome(g.(offsets := StoreOffsets(g.offsets, commits)), None)
  }

  // The body of the deadline driver's loop; an error is only logged.
  ghost function DriveDeadlines(g: GroupView, now: Time): GroupView {
    CompleteIfReady(Expire(g, now, None), now).g
  }
}
