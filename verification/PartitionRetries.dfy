/** Idempotent producers over whole runs: the retry window, resends and exactly-once storage. */
module PartitionRetries {
  import opened Octets
  import opened RecordFormat
  import opened PartitionModel
  import opened PartitionSafety
  import opened PartitionRuns

  // ----- Accepted sets

  datatype AcceptedSet = AcceptedSet(records: Bytes, result: AppendResult)

  function ProducerOf(ext: Externals, records: Bytes): int {
    match ValidateRecordSet(ext, records)
    case Err(_) => NO_PRODUCER_ID
    case Ok(v) => if v == [] then NO_PRODUCER_ID else v[0].producerId
  }

  // The sets of `pid` stored during the run, in order, each with its reply.
  ghost function AcceptedFrom(ext: Externals, sets: seq<Bytes>, pid: int): seq<AcceptedSet> {
    if sets == [] then []
    else
      var n := |sets| - 1;
      var before := AcceptedFrom(ext, sets[..n], pid);
      var reply := ReplyTo(ext, sets, n);
      if Fresh(reply) && ProducerOf(ext, sets[n]) == pid then before + [AcceptedSet(sets[n], reply.value)] else before
  }

  function RecordsIn(accepted: seq<AcceptedSet>): int {
    if accepted == [] then 0
    else RecordsIn(accepted[..|accepted| - 1]) + accepted[|accepted| - 1].result.recordCount
  }

  function EntryOf(v: seq<ValidatedBatch>, result: AppendResult): RecentAppend {
    RecentAppend(if v == [] then NO_SEQUENCE else v[0].baseSequence, Fingerprints(v), EncodedBatches(v), result)
  }

  function EntryFor(ext: Externals, a: AcceptedSet): RecentAppend {
    match ValidateRecordSet(ext, a.records)
    case Err(_) => EntryOf([], a.result)
    case Ok(v) => EntryOf(v, a.result)
  }

  function LastFive(ext: Externals, accepted: seq<AcceptedSet>): seq<RecentAppend> {
    if |accepted| <= RECENT_APPEND_LIMIT then
      seq(|accepted|, i requires 0 <= i < |accepted| => EntryFor(ext, accepted[i]))
    else
      var d := |accepted| - RECENT_APPEND_LIMIT;
      seq(RECENT_APPEND_LIMIT, i requires 0 <= i < RECENT_APPEND_LIMIT => EntryFor(ext, accepted[d + i]))
  }

  lemma RememberIsLastFive(ext: Externals, accepted: seq<AcceptedSet>, a: AcceptedSet)
    ensures Remember(LastFive(ext, accepted), EntryFor(ext, a)) == LastFive(ext, accepted + [a])
  {
    hide EntryFor, LastFive;
    LastFiveAt(ext, accepted);
    LastFiveAt(ext, accepted + [a]);
    var before, after := LastFive(ext, accepted), LastFive(ext, accepted + [a]);
    var kept := if |before| < RECENT_APPEND_LIMIT then before else before[1..];
    forall i | 0 <= i < |kept| ensures kept[i] == after[i] {
      var at := |accepted| - |kept| + i;
      assert (accepted + [a])[at] == accepted[at];
    }
    assert after[|kept|] == EntryFor(ext, (accepted + [a])[|accepted|]);
    assert after == kept + [EntryFor(ext, a)];
  }

  lemma LastFiveAt(ext: Externals, accepted: seq<AcceptedSet>)
    ensures var five := LastFive(ext, accepted);
            && |five| == (if |accepted| <= RECENT_APPEND_LIMIT then |accepted| else RECENT_APPEND_LIMIT)
            && forall i | 0 <= i < |five| :: five[i] == EntryFor(ext, accepted[|accepted| - |five| + i])
  {
    hide EntryFor;
  }

  // What is known of one accepted set: it validates, for this producer and epoch.
  predicate AcceptedSound(ext: Externals, a: AcceptedSet, pid: int, epoch: int) {
    && ValidateRecordSet(ext, a.records).Ok?
    && var v := ValidateRecordSet(ext, a.records).value;
    && Storable(v) && v[0].producerId == pid && v[0].producerEpoch == epoch
    && 0 < a.result.recordCount && a.result.appended
  }

  ghost predicate Follows(ext: Externals, log: LogView, accepted: seq<AcceptedSet>, pid: int) {
    if accepted == [] then pid !in log.producers
    else
      && pid in log.producers
      && log.producers[pid].recent == LastFive(ext, accepted)
      && log.producers[pid].nextSequence == RecordsIn(accepted) % SEQUENCE_MODULUS
      && forall k | 0 <= k < |accepted| :: AcceptedSound(ext, accepted[k], pid, log.producers[pid].epoch)
  }

  lemma FreshFollows(ext: Externals, log: LogView, accepted: seq<AcceptedSet>, records: Bytes, pid: int)
    requires LogSound(ext, log) && Follows(ext, log, accepted, pid) && pid != NO_PRODUCER_ID
    requires Fresh(Append(ext, log, records).result) && ProducerOf(ext, records) == pid
    ensures Follows(ext, Append(ext, log, records).log,
                    accepted + [AcceptedSet(records, Append(ext, log, records).result.value)], pid)
  {
    hide Append, ValidateRecordSet, Stamp, Sequenced, Tiled, AllStored, EpochsSound, WindowSound, LastFive, Remember,
         Fingerprints, EncodedBatches, Checked, JoinValidated;
    AppendStoresOrLeaves(ext, log, records);
    ValidatedIsChecked(ext, records);
    var v := ValidateRecordSet(ext, records).value;
    var r := Append(ext, log, records);
    var a := AcceptedSet(records, r.result.value);
    TotalIsPositive(v);
    RememberIsLastFive(ext, accepted, a);
    assert (accepted + [a])[..|accepted|] == accepted;
    assert v[0].baseSequence == RecordsIn(accepted) % SEQUENCE_MODULUS;
    AddThenReduce(RecordsIn(accepted), TotalCount(v));
    assert accepted == [] ==> LastFive(ext, accepted) == [] by {
      LastFiveOfNone(ext);
    }
  }

  lemma LastFiveOfNone(ext: Externals)
    ensures LastFive(ext, []) == []
  {
  }

  // The retained window is the last five accepted sets, and the next sequence the records accepted.
  lemma {:induction false} WindowIsLastFive(ext: Externals, sets: seq<Bytes>, pid: int)
    requires pid != NO_PRODUCER_ID
    ensures Follows(ext, LogAfter(ext, sets), AcceptedFrom(ext, sets, pid), pid)
    decreases |sets|
  {
    hide Append, Follows, LogSound, ValidateRecordSet, StoredAtEnd, ProducerOf, LastFive;
    if sets == [] {
      assert Follows(ext, EmptyLog(), [], pid) by { EmptyFollows(ext, pid); }
    } else {
      var n := |sets| - 1;
      WindowIsLastFive(ext, sets[..n], pid);
      var log, accepted := LogAfter(ext, sets[..n]), AcceptedFrom(ext, sets[..n], pid);
      AppendStoresOrLeaves(ext, log, sets[n]);
      if Fresh(ReplyTo(ext, sets, n)) {
        if ProducerOf(ext, sets[n]) == pid {
          FreshFollows(ext, log, accepted, sets[n], pid);
        } else {
          OtherFollows(ext, log, accepted, sets[n], pid);
        }
      }
    }
  }

  lemma EmptyFollows(ext: Externals, pid: int)
    ensures Follows(ext, EmptyLog(), [], pid)
  {
  }

  lemma OtherFollows(ext: Externals, log: LogView, accepted: seq<AcceptedSet>, records: Bytes, pid: int)
    requires LogSound(ext, log) && Follows(ext, log, accepted, pid) && pid != NO_PRODUCER_ID
    requires Fresh(Append(ext, log, records).result) && ProducerOf(ext, records) != pid
    ensures Follows(ext, Append(ext, log, records).log, accepted, pid)
  {
    hide Append, ValidateRecordSet, Stamp, Sequenced, Tiled, AllStored, EpochsSound, WindowSound, LastFive, Remember,
         Fingerprints, EncodedBatches, AcceptedSound, RecordsIn, TotalCount;
    AppendStoresOrLeaves(ext, log, records);
  }

  // ----- Exactly once

  lemma {:induction false} RecordsGrow(ext: Externals, accepted: seq<AcceptedSet>, i: nat, j: nat)
    requires i <= j <= |accepted| && forall k | 0 <= k < |accepted| :: accepted[k].result.recordCount > 0
    ensures 0 <= RecordsIn(accepted[..i]) <= RecordsIn(accepted[..j])
    ensures i < j ==> RecordsIn(accepted[..i]) < RecordsIn(accepted[..j])
    decreases j
  {
    if j > 0 {
      assert accepted[..j][..j - 1] == accepted[..j - 1];
      RecordsGrow(ext, accepted, if i < j then i else i - 1, j - 1);
    }
  }

  // Every accepted set starts at the number of records accepted before it, modulo 2^31.
  lemma {:induction false} AcceptedInSequence(ext: Externals, sets: seq<Bytes>, pid: int, k: nat)
    requires pid != NO_PRODUCER_ID && k < |AcceptedFrom(ext, sets, pid)|
    ensures var accepted := AcceptedFrom(ext, sets, pid);
            EntryFor(ext, accepted[k]).baseSequence == RecordsIn(accepted[..k]) % SEQUENCE_MODULUS
    decreases |sets|
  {
    hide Append, LogSound, ValidateRecordSet, LastFive, AcceptedSound, RecordsIn, Fingerprints, EncodedBatches;
    var n := |sets| - 1;
    var before, accepted := AcceptedFrom(ext, sets[..n], pid), AcceptedFrom(ext, sets, pid);
    if k < |before| {
      AcceptedInSequence(ext, sets[..n], pid, k);
      assert accepted[..k] == before[..k] && accepted[k] == before[k];
    } else {
      assert accepted[..k] == before;
      var log := LogAfter(ext, sets[..n]);
      WindowIsLastFive(ext, sets[..n], pid);
      AppendStoresOrLeaves(ext, log, sets[n]);
      assert before == [] ==> RecordsIn(before) == 0 by { NoRecords(); }
    }
  }

  lemma NoRecords()
    ensures RecordsIn([]) == 0
  {
  }

  // No set is stored twice while its producer has stored no more than 2^31 records.
  lemma StoredAtMostOnce(ext: Externals, sets: seq<Bytes>, pid: int, i: nat, j: nat)
    requires pid != NO_PRODUCER_ID && i < j < |AcceptedFrom(ext, sets, pid)|
    requires RecordsIn(AcceptedFrom(ext, sets, pid)) <= SEQUENCE_MODULUS
    ensures AcceptedFrom(ext, sets, pid)[i].records != AcceptedFrom(ext, sets, pid)[j].records
  {
    hide LogAfter, AcceptedFrom, RecordsIn, ValidateRecordSet, LastFive, Fingerprints, EncodedBatches, LogSound,
         Storable;
    var accepted := AcceptedFrom(ext, sets, pid);
    AcceptedInSequence(ext, sets, pid, i);
    AcceptedInSequence(ext, sets, pid, j);
    WindowIsLastFive(ext, sets, pid);
    assert forall k | 0 <= k < |accepted| ::
           AcceptedSound(ext, accepted[k], pid, LogAfter(ext, sets).producers[pid].epoch);
    RecordsGrow(ext, accepted, i, j);
    RecordsGrow(ext, accepted, j, |accepted|);
    assert accepted[..|accepted|] == accepted;
  }

  // ----- The window

  lemma {:induction false} SuffixTotals(recent: seq<RecentAppend>, j: nat, k: nat)
    requires j <= k <= |recent| && forall i | 0 <= i < |recent| :: recent[i].result.recordCount > 0
    ensures 0 <= WindowTotal(recent[k..]) <= WindowTotal(recent[j..]) <= WindowTotal(recent)
    ensures j < k ==> WindowTotal(recent[k..]) < WindowTotal(recent[j..])
    decreases |recent|
  {
    if recent != [] {
      var rest := recent[1..];
      assert j > 0 ==> recent[j..] == rest[j - 1..];
      assert k > 0 ==> recent[k..] == rest[k - 1..];
      assert recent[0..] == recent && rest[0..] == rest;
      SuffixTotals(rest, if j > 0 then j - 1 else 0, if k > 0 then k - 1 else 0);
    }
  }

  lemma SameResidue(next: int, x: int, y: int)
    requires 0 <= x <= y < x + SEQUENCE_MODULUS && (next - x) % SEQUENCE_MODULUS == (next - y) % SEQUENCE_MODULUS
    ensures x == y
  {
  }

  // Records a producer's window holds.
  function Retained(log: LogView, pid: int): int {
    if pid in log.producers then WindowTotal(log.producers[pid].recent) else 0
  }

  // Two entries of a window below 2^31 records start at different sequences.
  lemma EntriesAreDistinct(ext: Externals, state: ProducerState, j: nat, k: nat)
    requires WindowSound(ext, state) && WindowTotal(state.recent) < SEQUENCE_MODULUS
    requires j < |state.recent| && k < |state.recent|
    requires state.recent[j].baseSequence == state.recent[k].baseSequence
    ensures j == k
  {
    hide ValidateBatch, WindowTotal;
    var x, y := if j < k then j else k, if j < k then k else j;
    SuffixTotals(state.recent, x, y);
    SuffixTotals(state.recent, y, |state.recent|);
    assert Behind(state.recent[x..], state.nextSequence) && Behind(state.recent[y..], state.nextSequence);
    SameResidue(state.nextSequence, WindowTotal(state.recent[y..]), WindowTotal(state.recent[x..]));
  }

  // Resending any of the last five accepted sets returns the original offsets and changes nothing.
  lemma ResendIsRecognised(ext: Externals, sets: seq<Bytes>, pid: int, k: nat)
    requires pid != NO_PRODUCER_ID
    requires |AcceptedFrom(ext, sets, pid)| - RECENT_APPEND_LIMIT <= k < |AcceptedFrom(ext, sets, pid)|
    requires Retained(LogAfter(ext, sets), pid) < SEQUENCE_MODULUS
    ensures var a := AcceptedFrom(ext, sets, pid)[k];
            Append(ext, LogAfter(ext, sets), a.records)
              == Appended(LogAfter(ext, sets), Ok(a.result.(appended := false)))
  {
    hide LogAfter, AcceptedFrom, RecordsIn, ValidateRecordSet, Fingerprints, EncodedBatches, WindowTotal,
         ValidateSequences, Sequenced, Tiled, AllStored, EpochsSound, Store, EntrySound, Behind;
    var log, accepted := LogAfter(ext, sets), AcceptedFrom(ext, sets, pid);
    WindowIsLastFive(ext, sets, pid);
    var a, state := accepted[k], log.producers[pid];
    assert AcceptedSound(ext, a, pid, state.epoch);
    var v := ValidateRecordSet(ext, a.records).value;
    var at := k - (|accepted| - |state.recent|);
    assert state.recent[at] == EntryFor(ext, accepted[k]);
    assert Matches(state.recent[at], v);
    var found := FindRecent(state.recent, v);
    EntriesAreDistinct(ext, state, found.value, at);
  }

  // ----- Sets that are not retries

  lemma EqualBaseIsWrapped(recent: seq<RecentAppend>, k: nat, nextSequence: int)
    requires k < |recent| && forall i | 0 <= i < |recent| :: recent[i].result.recordCount > 0
    requires Behind(recent[k..], nextSequence) && recent[k].baseSequence == nextSequence
    ensures WindowTotal(recent[k..]) > 0 && WindowTotal(recent[k..]) % SEQUENCE_MODULUS == 0
    ensures WindowTotal(recent[k..]) <= WindowTotal(recent)
  {
    hide WindowTotal;
    SuffixTotals(recent, k, |recent|);
    MultipleOfModulus(nextSequence, WindowTotal(recent[k..]));
  }

  lemma MultipleOfModulus(next: int, held: int)
    requires next == (next - held) % SEQUENCE_MODULUS
    ensures held % SEQUENCE_MODULUS == 0
  {
    assert held == -SEQUENCE_MODULUS * ((next - held) / SEQUENCE_MODULUS);
  }

  // A set that starts at the expected sequence is taken for a retry only if the window holds a positive
  // multiple of 2^31 records from the entry it equals.
  lemma SwallowedOnlyAtWrap(ext: Externals, state: ProducerState, v: seq<ValidatedBatch>)
    requires WindowSound(ext, state) && v != [] && v[0].baseSequence == state.nextSequence
    requires FindRecent(state.recent, v).Some?
    ensures var held := WindowTotal(state.recent[FindRecent(state.recent, v).value..]);
            held > 0 && held % SEQUENCE_MODULUS == 0 && held <= WindowTotal(state.recent)
  {
    hide ValidateBatch, WindowTotal, Fingerprints, EncodedBatches, EntrySound, Behind, FindRecent;
    CountsArePositive(ext, state);
    EqualBaseIsWrapped(state.recent, FindRecent(state.recent, v).value, state.nextSequence);
  }

  lemma CountsArePositive(ext: Externals, state: ProducerState)
    requires WindowSound(ext, state)
    ensures forall i | 0 <= i < |state.recent| :: state.recent[i].result.recordCount > 0
  {
    hide ValidateBatch, Behind;
  }

  // The bytes alone decide a retry.
  lemma RetryIffSameBytes(ext: Externals, state: ProducerState, v: seq<ValidatedBatch>)
    requires WindowSound(ext, state) && v != [] && Checked(ext, v)
    ensures FindRecent(state.recent, v).Some? <==>
            exists k :: 0 <= k < |state.recent| && state.recent[k].encodedBatches == EncodedBatches(v)
  {
    hide ValidateBatch, WindowTotal, Behind;
    forall k | 0 <= k < |state.recent| && state.recent[k].encodedBatches == EncodedBatches(v)
      ensures Matches(state.recent[k], v)
    {
      var e := state.recent[k];
      assert EntrySound(ext, e);
      assert forall i | 0 <= i < |v| :: e.encodedBatches[i] == v[i].bytes;
      assert e.fingerprints == Fingerprints(v);
    }
  }

  // The set is well formed, and from a known producer in its epoch.
  predicate FromKnown(ext: Externals, log: LogView, records: Bytes, pid: int) {
    && ValidateRecordSet(ext, records).Ok?
    && var v := ValidateRecordSet(ext, records).value;
    && v != [] && TotalCount(v) <= MAX_I32 && v[0].producerId == pid
    && pid != NO_PRODUCER_ID && pid in log.producers && log.producers[pid].epoch == v[0].producerEpoch
  }

  predicate IsRetained(state: ProducerState, v: seq<ValidatedBatch>) {
    exists k :: 0 <= k < |state.recent| && state.recent[k].encodedBatches == EncodedBatches(v)
  }

  // A set that starts at the expected sequence is not swallowed while the window holds fewer than 2^31 records.
  lemma ExpectedIsNotSwallowed(ext: Externals, log: LogView, records: Bytes, pid: int)
    requires LogSound(ext, log) && FromKnown(ext, log, records, pid)
    requires ValidateRecordSet(ext, records).value[0].baseSequence == log.producers[pid].nextSequence
    requires Retained(log, pid) < SEQUENCE_MODULUS
    ensures Append(ext, log, records).result.Ok? ==> Fresh(Append(ext, log, records).result)
    ensures !IsRetained(log.producers[pid], ValidateRecordSet(ext, records).value)
  {
    hide ValidateRecordSet, Fingerprints, EncodedBatches, WindowTotal, ValidateSequences, Sequenced, Tiled, AllStored,
         EpochsSound, EntrySound, Behind, TotalCount, Stamp, Remember, Checked, JoinValidated;
    ValidatedIsChecked(ext, records);
    var v, state := ValidateRecordSet(ext, records).value, log.producers[pid];
    RetryIffSameBytes(ext, state, v);
    if FindRecent(state.recent, v).Some? {
      SwallowedOnlyAtWrap(ext, state, v);
    }
  }

  // Any other set behind the expected sequence by at most 2^30 is a duplicate; ahead by less, out of order.
  lemma MismatchIsClassified(ext: Externals, log: LogView, records: Bytes, pid: int)
    requires LogSound(ext, log) && FromKnown(ext, log, records, pid)
    requires !IsRetained(log.producers[pid], ValidateRecordSet(ext, records).value)
    requires ValidateRecordSet(ext, records).value[0].baseSequence != log.producers[pid].nextSequence
    ensures var base, next := ValidateRecordSet(ext, records).value[0].baseSequence, log.producers[pid].nextSequence;
            var a := Append(ext, log, records);
            && a.log == log
            && (a.result == Err(DuplicateSequence) <==> exists d :: 1 <= d <= 0x4000_0000 && next == Shifted(base, d))
            && (a.result == Err(OutOfOrderSequence) <==> exists d :: 1 <= d < 0x4000_0000 && base == Shifted(next, d))
            && (a.result == Err(DuplicateSequence) || a.result == Err(OutOfOrderSequence))
  {
    hide ValidateRecordSet, Fingerprints, EncodedBatches, WindowTotal, Sequenced, Tiled, AllStored, EpochsSound,
         EntrySound, Behind, TotalCount, Stamp, Remember, JoinValidated, ClassifyMismatch, Shifted;
    ValidatedIsChecked(ext, records);
    var v, state := ValidateRecordSet(ext, records).value, log.producers[pid];
    RetryIffSameBytes(ext, state, v);
    var base := v[0].baseSequence;
    assert ValidateBatch(ext, v[0].bytes) == Ok(v[0]);
    ClassifiedByDistance(base, state.nextSequence);
  }

  // A sequence number moved along the circle of 2^31.
  function Shifted(sequence: int, d: int): int {
    (sequence + d) % SEQUENCE_MODULUS
  }

  lemma ClassifiedByDistance(base: int, next: int)
    requires 0 <= base < SEQUENCE_MODULUS && 0 <= next < SEQUENCE_MODULUS && base != next
    ensures ClassifyMismatch(base, next) in {DuplicateSequence, OutOfOrderSequence}
    ensures ClassifyMismatch(base, next) == DuplicateSequence <==>
              exists d :: 1 <= d <= 0x4000_0000 && next == Shifted(base, d)
    ensures ClassifyMismatch(base, next) == OutOfOrderSequence <==>
              exists d :: 1 <= d < 0x4000_0000 && base == Shifted(next, d)
  {
    var ahead := (base - next) % SEQUENCE_MODULUS;
    assert base == Shifted(next, ahead) && next == Shifted(base, SEQUENCE_MODULUS - ahead);
    forall d | 1 <= d <= 0x4000_0000 && next == Shifted(base, d)
      ensures ahead == SEQUENCE_MODULUS - d
    {
    }
    forall d | 1 <= d < 0x4000_0000 && base == Shifted(next, d)
      ensures ahead == d
    {
    }
  }
}
