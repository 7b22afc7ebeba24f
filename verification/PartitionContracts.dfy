/** Exactly when a record set is stored, and what it is answered otherwise. */
module PartitionContracts {
  import opened Text
  import opened Octets
  import opened RecordFormat
  import opened PartitionModel
  import opened PartitionSafety
  import opened PartitionRuns
  import opened PartitionRetries

  // ----- One batch, by the positions of its bytes

  predicate Anonymous(batch: Bytes)
    requires |batch| >= 61
  {
    && I64Value(batch[43..51]) == -1 && I16Value(batch[51..53]) == -1
    && -1 <= I32Value(batch[53..57]) <= 0
  }

  predicate Identified(batch: Bytes)
    requires |batch| >= 61
  {
    I64Value(batch[43..51]) != -1 && I16Value(batch[51..53]) >= 0 && I32Value(batch[53..57]) >= 0
  }

  // Version 2, the announced checksum, a known codec, neither transactional nor control, a consistent
  // producer, and as many records as offsets.
  function BatchVerdict(ext: Externals, batch: Bytes): Result<ValidatedBatch>
    requires |batch| >= 61
  {
    var count := I32Value(batch[57..61]);
    if batch[16] != 2 then Err(UnsupportedBatch)
    else if U32Value(batch[17..21]) != ext.crc(batch[21..]) || batch[22] % 8 > 4 || count < 0 then Err(Malformed)
    else if batch[22] / 16 % 2 == 1 || batch[22] / 32 % 2 == 1 then Err(UnsupportedBatch)
    else if !Anonymous(batch) && !Identified(batch) then Err(Malformed)
    else if count == 0 || I32Value(batch[23..27]) != count - 1 then Err(Malformed)
    else Ok(ValidatedBatch(|batch| - 12, count, I64Value(batch[43..51]), I16Value(batch[51..53]),
                           I32Value(batch[53..57]), U32Value(batch[17..21]), batch))
  }

  lemma BatchIsExact(ext: Externals, batch: Bytes)
    requires Framed(batch)
    ensures ValidateBatch(ext, batch) == BatchVerdict(ext, batch)
  {
    hide I64Value, I32Value, I16Value, U32Value, DecodeHeader;
    HeaderOf(ext, batch);
  }

  // ----- A record set

  // No whole batch is at the front.
  predicate Unframed(records: Bytes) {
    || |records| < 61
    || I32Value(records[8..12]) < 49
    || 12 + I32Value(records[8..12]) > |records|
  }

  function Front(records: Bytes): Bytes
    requires !Unframed(records)
  {
    records[..12 + I32Value(records[8..12])]
  }

  // The bytes are exactly these batches, one after the other, and each of them is admitted.
  predicate CutInto(ext: Externals, records: Bytes, v: seq<ValidatedBatch>) {
    && JoinValidated(v) == records
    && forall i | 0 <= i < |v| :: Framed(v[i].bytes) && BatchVerdict(ext, v[i].bytes) == Ok(v[i])
  }

  lemma {:induction false} CutIsSplit(ext: Externals, records: Bytes, v: seq<ValidatedBatch>)
    requires CutInto(ext, records, v)
    ensures SplitBatches(ext, records) == Ok(v)
    decreases |v|
  {
    hide ValidateBatch, BatchVerdict, SplitBatches;
    if v == [] {
      SplitNothing(ext);
    } else {
      var rest := JoinValidated(v[1..]);
      assert records == v[0].bytes + rest;
      CutIsSplit(ext, rest, v[1..]);
      SplitStep(ext, v[0].bytes, rest);
      BatchIsExact(ext, v[0].bytes);
      assert v == [v[0]] + v[1..];
    }
  }

  lemma SplitNothing(ext: Externals)
    ensures SplitBatches(ext, []) == Ok([])
  {
  }

  // A set is admitted exactly as the batches of one producer and epoch that its bytes are.
  lemma SetIsExact(ext: Externals, records: Bytes, v: seq<ValidatedBatch>)
    ensures ValidateRecordSet(ext, records) == Ok(v) <==>
              && v != [] && CutInto(ext, records, v)
              && forall i, j | 0 <= i < j < |v| ::
                   v[i].producerId == v[j].producerId && v[i].producerEpoch == v[j].producerEpoch
  {
    hide ValidateBatch, BatchVerdict, SplitBatches;
    if SplitBatches(ext, records) == Ok(v) {
      SplitConcatenates(ext, records);
      SplitIsStorable(ext, records);
      forall i | 0 <= i < |v| ensures BatchVerdict(ext, v[i].bytes) == Ok(v[i]) {
        BatchIsExact(ext, v[i].bytes);
      }
    }
    if CutInto(ext, records, v) {
      CutIsSplit(ext, records, v);
    }
    SplitNothing(ext);
  }

  // A set that is not admitted fails at the first batch that is not there or not admitted, or for mixing
  // producers.
  ghost predicate FailsAt(ext: Externals, records: Bytes, good: seq<ValidatedBatch>, rest: Bytes, e: AppendError) {
    && records == JoinValidated(good) + rest && CutInto(ext, JoinValidated(good), good)
    && if rest == [] then e == Malformed
       else if Unframed(rest) then e == Malformed
       else BatchVerdict(ext, Front(rest)) == Err(e)
  }

  lemma {:induction false} SplitFails(ext: Externals, records: Bytes) returns (good: seq<ValidatedBatch>, rest: Bytes)
    requires SplitBatches(ext, records).Err?
    ensures rest != [] && FailsAt(ext, records, good, rest, SplitBatches(ext, records).error)
    decreases |records|
  {
    hide ValidateBatch, BatchVerdict;
    if Unframed(records) || BatchVerdict(ext, Front(records)).Err? {
      good, rest := [], records;
      if !Unframed(records) {
        assert Front(records)[8..12] == records[8..12];
        BatchIsExact(ext, Front(records));
      }
      assert JoinValidated(good) + rest == rest;
    } else {
      var front := Front(records);
      assert front[8..12] == records[8..12];
      BatchIsExact(ext, front);
      var first := ValidateBatch(ext, front).value;
      good, rest := SplitFails(ext, records[|front|..]);
      assert records == front + records[|front|..];
      assert JoinValidated([first] + good) == front + JoinValidated(good);
      assert records == JoinValidated([first] + good) + rest;
      good := [first] + good;
    }
  }

  lemma SetFails(ext: Externals, records: Bytes) returns (good: seq<ValidatedBatch>, rest: Bytes)
    requires ValidateRecordSet(ext, records).Err?
    ensures FailsAt(ext, records, good, rest, ValidateRecordSet(ext, records).error)
    ensures rest == [] && good != [] ==>
              exists i | 0 <= i < |good| ::
                good[i].producerId != good[0].producerId || good[i].producerEpoch != good[0].producerEpoch
  {
    hide ValidateBatch, BatchVerdict, SplitBatches;
    if records == [] {
      good, rest := [], [];
    } else if SplitBatches(ext, records).Err? {
      good, rest := SplitFails(ext, records);
    } else {
      good, rest := SplitBatches(ext, records).value, [];
      SplitConcatenates(ext, records);
      SplitIsStorable(ext, records);
      forall i | 0 <= i < |good| ensures BatchVerdict(ext, good[i].bytes) == Ok(good[i]) {
        BatchIsExact(ext, good[i].bytes);
      }
      assert JoinValidated(good) + rest == records;
    }
  }

  // ----- Sequences

  // The records in the first `n` batches.
  function RecordsBefore(v: seq<ValidatedBatch>, n: nat): int
    requires n <= |v|
  {
    if n == 0 then 0 else RecordsBefore(v, n - 1) + v[n - 1].recordCount
  }

  lemma {:induction false} RecordsBeforeStep(v: seq<ValidatedBatch>, n: nat)
    requires 0 < n <= |v|
    ensures RecordsBefore(v, n) == v[0].recordCount + RecordsBefore(v[1..], n - 1)
  {
    if n > 1 {
      RecordsBeforeStep(v, n - 1);
    }
  }

  lemma {:induction false} AllRecords(v: seq<ValidatedBatch>)
    ensures RecordsBefore(v, |v|) == TotalCount(v)
  {
    if v != [] {
      RecordsBeforeStep(v, |v|);
      AllRecords(v[1..]);
    }
  }

  // Where batch `i` of the set is expected to start.
  function Due(v: seq<ValidatedBatch>, i: nat, expected: int): int
    requires i < |v|
  {
    (expected + RecordsBefore(v, i)) % 0x8000_0000
  }

  predicate Consecutive(v: seq<ValidatedBatch>, expected: int) {
    forall i | 0 <= i < |v| :: v[i].baseSequence == Due(v, i, expected)
  }

  // Batch `i` is the first that does not start where it is expected to.
  predicate FirstStray(v: seq<ValidatedBatch>, i: nat, expected: int) {
    && i < |v| && v[i].baseSequence != Due(v, i, expected)
    && forall j | 0 <= j < i :: v[j].baseSequence == Due(v, j, expected)
  }

  // A stray batch is a duplicate if it is at most 2^30 behind, and out of order if it is ahead by less.
  ghost predicate StrayError(received: int, due: int, e: AppendError) {
    && (e == DuplicateSequence || e == OutOfOrderSequence)
    && (e == DuplicateSequence <==> exists d :: 1 <= d <= 0x4000_0000 && due == Shifted(received, d))
    && (e == OutOfOrderSequence <==> exists d :: 1 <= d < 0x4000_0000 && received == Shifted(due, d))
  }

  lemma DueStep(v: seq<ValidatedBatch>, i: nat, expected: int)
    requires 0 < i < |v|
    ensures Due(v, i, expected) == Due(v[1..], i - 1, NextSequence(expected, v[0].recordCount))
  {
    RecordsBeforeStep(v, i);
    SumThenReduce(expected + v[0].recordCount, RecordsBefore(v[1..], i - 1));
  }

  lemma SumThenReduce(x: int, y: int)
    ensures (x % 0x8000_0000 + y) % 0x8000_0000 == (x + y) % 0x8000_0000
  {
    var k := x / 0x8000_0000;
    assert x % 0x8000_0000 + y == (x + y) - 0x8000_0000 * k;
  }

  lemma {:induction false} SequencesAreExact(v: seq<ValidatedBatch>, expected: int) returns (i: nat)
    requires 0 <= expected < 0x8000_0000
    requires forall j | 0 <= j < |v| :: 0 <= v[j].baseSequence < 0x8000_0000
    ensures ValidateSequences(v, expected).None? <==> Consecutive(v, expected)
    ensures ValidateSequences(v, expected).Some? ==>
              && FirstStray(v, i, expected)
              && StrayError(v[i].baseSequence, Due(v, i, expected), ValidateSequences(v, expected).value)
    decreases |v|
  {
    hide ClassifyMismatch, Due;
    i := 0;
    if v != [] {
      DueAtFront(v, expected);
      if v[0].baseSequence != expected {
        ClassifiedByDistance(v[0].baseSequence, expected);
      } else {
        var next := NextSequence(expected, v[0].recordCount);
        var k := SequencesAreExact(v[1..], next);
        forall j | 0 < j < |v| ensures v[j].baseSequence == v[1..][j - 1].baseSequence
            && Due(v, j, expected) == Due(v[1..], j - 1, next) {
          DueStep(v, j, expected);
        }
        if Consecutive(v[1..], next) {
          assert Consecutive(v, expected);
        }
        if Consecutive(v, expected) {
          forall j | 0 <= j < |v| - 1 ensures v[1..][j].baseSequence == Due(v[1..], j, next) {
            assert v[j + 1].baseSequence == Due(v, j + 1, expected);
          }
        }
        if ValidateSequences(v[1..], next).Some? {
          i := k + 1;
        }
      }
    }
  }

  lemma DueAtFront(v: seq<ValidatedBatch>, expected: int)
    requires v != [] && 0 <= expected < 0x8000_0000
    ensures Due(v, 0, expected) == expected
  {
  }

  // ----- Retries

  // The entry was made from the very bytes of the set.
  predicate HoldsBytes(entry: RecentAppend, v: seq<ValidatedBatch>) {
    && |entry.encodedBatches| == |v|
    && forall i | 0 <= i < |v| :: entry.encodedBatches[i] == v[i].bytes
  }

  // Entry `k` is the first of the producer's window that was made from the bytes of the set.
  predicate FirstHolder(recent: seq<RecentAppend>, v: seq<ValidatedBatch>, k: nat) {
    && k < |recent| && HoldsBytes(recent[k], v)
    && forall j | 0 <= j < k :: !HoldsBytes(recent[j], v)
  }

  lemma MatchIsSameBytes(ext: Externals, e: RecentAppend, v: seq<ValidatedBatch>)
    requires EntrySound(ext, e) && v != [] && Checked(ext, v)
    ensures Matches(e, v) <==> HoldsBytes(e, v)
  {
    hide ValidateBatch;
    if HoldsBytes(e, v) {
      assert e.encodedBatches == EncodedBatches(v);
      assert e.fingerprints == Fingerprints(v);
    }
    if Matches(e, v) {
      assert e.encodedBatches == EncodedBatches(v);
    }
  }

  lemma {:induction false} FoundIsFirst(recent: seq<RecentAppend>, v: seq<ValidatedBatch>)
    requires v != [] && FindRecent(recent, v).Some?
    ensures forall j | 0 <= j < FindRecent(recent, v).value :: !Matches(recent[j], v)
  {
    hide Matches;
    if !Matches(recent[0], v) {
      FoundIsFirst(recent[1..], v);
    }
  }

  lemma RetryIsExact(ext: Externals, state: ProducerState, v: seq<ValidatedBatch>)
    requires WindowSound(ext, state) && v != [] && Checked(ext, v)
    ensures match FindRecent(state.recent, v)
            case Some(k) => FirstHolder(state.recent, v, k)
            case None => forall k | 0 <= k < |state.recent| :: !HoldsBytes(state.recent[k], v)
  {
    hide Matches, HoldsBytes, FindRecent, Behind, EntrySound;
    forall k | 0 <= k < |state.recent| ensures Matches(state.recent[k], v) <==> HoldsBytes(state.recent[k], v) {
      assert EntrySound(ext, state.recent[k]);
      MatchIsSameBytes(ext, state.recent[k], v);
    }
    if FindRecent(state.recent, v).Some? {
      FoundIsFirst(state.recent, v);
    }
  }

  // ----- Appends

  // What the log expects next of a producer.
  function Expected(log: LogView, pid: int): int {
    if pid in log.producers then log.producers[pid].nextSequence else 0
  }

  // Why the set of an identified producer is not stored.
  ghost predicate Refused(log: LogView, v: seq<ValidatedBatch>, result: Result<AppendResult>)
    requires v != []
  {
    var pid, known := v[0].producerId, v[0].producerId in log.producers;
    if known && log.producers[pid].epoch != v[0].producerEpoch then result == Err(OutOfOrderSequence)
    else if known && exists k: nat :: FirstHolder(log.producers[pid].recent, v, k) then
      exists k: nat :: FirstHolder(log.producers[pid].recent, v, k)
                       && result == Ok(log.producers[pid].recent[k].result.(appended := false))
    else if !known && v[0].baseSequence != 0 then result == Err(OutOfOrderSequence)
    else exists i: nat :: FirstStray(v, i, Expected(log, pid)) && result.Err?
                          && StrayError(v[i].baseSequence, Due(v, i, Expected(log, pid)), result.error)
  }

  // The set may be stored: it is nobody's, or it continues its producer's sequence in its epoch and is no retry.
  predicate Continues(log: LogView, v: seq<ValidatedBatch>)
    requires v != []
  {
    var pid := v[0].producerId;
    || pid == -1
    || (&& Consecutive(v, Expected(log, pid))
        && (pid in log.producers ==>
              && log.producers[pid].epoch == v[0].producerEpoch
              && forall k | 0 <= k < |log.producers[pid].recent| :: !HoldsBytes(log.producers[pid].recent[k], v)))
  }

  // What an append does with an admitted set.
  ghost predicate AppendRule(log: LogView, v: seq<ValidatedBatch>, a: Appended)
    requires v != []
  {
    var total := RecordsBefore(v, |v|);
    if total > 0x7fff_ffff then a == Appended(log, Err(OffsetOverflow))
    else if !Continues(log, v) then a.log == log && Refused(log, v, a.result)
    else if log.nextOffset + total > 0x7fff_ffff_ffff_ffff then a == Appended(log, Err(OffsetOverflow))
    else a.result == Ok(AppendResult(log.nextOffset, log.nextOffset + total - 1, total, true))
  }

  lemma StoreAnswers(log: LogView, v: seq<ValidatedBatch>)
    requires Storable(v) && 0 <= log.nextOffset && IsI64(log.nextOffset)
    ensures var total, a := TotalCount(v), Store(log, v);
            && (a.result == Err(OffsetOverflow) <==> log.nextOffset + total > 0x7fff_ffff_ffff_ffff)
            && (a.result == Err(OffsetOverflow) ==> a.log == log)
            && (a.result != Err(OffsetOverflow) ==>
                  a.result == Ok(AppendResult(log.nextOffset, log.nextOffset + total - 1, total, true)))
  {
    hide Stamp, Fingerprints, EncodedBatches, Remember;
    TotalIsPositive(v);
  }

  lemma IdentifiedSequences(ext: Externals, v: seq<ValidatedBatch>)
    requires v != [] && Checked(ext, v) && SameProducer(v) && v[0].producerId != NO_PRODUCER_ID
    ensures forall j | 0 <= j < |v| :: 0 <= v[j].baseSequence < 0x8000_0000
  {
    hide ValidateBatch;
    forall j | 0 <= j < |v| ensures 0 <= v[j].baseSequence < 0x8000_0000 {
      assert ValidateBatch(ext, v[j].bytes) == Ok(v[j]);
    }
  }

  lemma AppendBatchesIsExact(ext: Externals, log: LogView, v: seq<ValidatedBatch>)
    requires LogSound(ext, log) && Storable(v) && Checked(ext, v) && SameProducer(v)
    ensures AppendRule(log, v, AppendBatches(log, v))
  {
    hide Sequenced, Tiled, AllStored, EpochsSound, EntrySound, Behind, Checked, Store, FindRecent, Matches, HoldsBytes,
         ValidateSequences, Consecutive, FirstStray, StrayError, Due, Countable, TotalCount, SameProducer;
    StoreAnswers(log, v);
    AllRecords(v);
    var pid := v[0].producerId;
    if pid != NO_PRODUCER_ID {
      IdentifiedSequences(ext, v);
      var expected := Expected(log, pid);
      assert pid in log.producers ==> WindowSound(ext, log.producers[pid]);
      var i := SequencesAreExact(v, expected);
      if pid in log.producers {
        RetryIsExact(ext, log.producers[pid], v);
      } else {
        FirstIsDue(v);
      }
    }
  }

  lemma FirstIsDue(v: seq<ValidatedBatch>)
    requires v != []
    ensures Consecutive(v, 0) ==> v[0].baseSequence == 0
  {
    DueAtFront(v, 0);
  }

  // Whether a set is stored, at which offsets, and what it is answered otherwise.
  lemma AppendIsExact(ext: Externals, log: LogView, records: Bytes)
    requires LogSound(ext, log)
    ensures match ValidateRecordSet(ext, records)
            case Err(e) => Append(ext, log, records) == Appended(log, Err(e))
            case Ok(v) => v != [] && AppendRule(log, v, Append(ext, log, records))
  {
    hide LogSound, ValidateRecordSet, AppendBatches, Continues, Refused, Checked, TotalCount, RecordsBefore;
    assert 0 <= log.nextOffset && IsI64(log.nextOffset) by {
      OffsetIsSound(ext, log);
    }
    if ValidateRecordSet(ext, records).Ok? {
      ValidatedIsChecked(ext, records);
      var v := ValidateRecordSet(ext, records).value;
      AllRecords(v);
      if TotalCount(v) <= MAX_I32 {
        AppendBatchesIsExact(ext, log, v);
      }
    }
  }

  lemma OffsetIsSound(ext: Externals, log: LogView)
    requires LogSound(ext, log)
    ensures 0 <= log.nextOffset && IsI64(log.nextOffset)
  {
  }

  // A set is stored, at the end of the log, exactly if it is admitted, its records can be counted and numbered,
  // and it is nobody's or the next of its producer.
  lemma StoredIff(ext: Externals, log: LogView, records: Bytes)
    requires LogSound(ext, log)
    ensures var a := Append(ext, log, records);
            match ValidateRecordSet(ext, records)
            case Err(_) => !Fresh(a.result)
            case Ok(v) =>
              var total := RecordsBefore(v, |v|);
              && v != []
              && (Fresh(a.result) <==>
                    total <= 0x7fff_ffff && log.nextOffset + total <= 0x7fff_ffff_ffff_ffff && Continues(log, v))
              && (Fresh(a.result) ==>
                    a.result.value == AppendResult(log.nextOffset, log.nextOffset + total - 1, total, true))
  {
    hide LogSound, ValidateRecordSet, Append, Continues, RecordsBefore, FirstHolder, FirstStray;
    AppendIsExact(ext, log, records);
  }

  // ----- What is stored

  // The batch as it is stored at an offset: the same bytes but for the eight that name the offset.
  predicate StoredAs(b: ValidatedBatch, offset: int, s: StoredBatch) {
    && s.baseOffset == offset && s.lastOffset == offset + b.recordCount - 1 && s.recordCount == b.recordCount
    && |s.bytes| == |b.bytes| >= 8 && I64Value(s.bytes[..8]) == offset && s.bytes[8..] == b.bytes[8..]
  }

  lemma {:induction false} StampIsExact(v: seq<ValidatedBatch>, base: int, i: nat)
    requires Countable(v) && IsI64(base) && IsI64(base + TotalCount(v)) && i < |v|
    ensures |Stamp(v, base)| == |v| && StoredAs(v[i], base + RecordsBefore(v, i), Stamp(v, base)[i])
    decreases |v|
  {
    hide I64Value, Rewrite, I64Bytes;
    TotalIsPositive(v[1..]);
    if |v| > 1 {
      var j := if i > 0 then i - 1 else 0;
      StampIsExact(v[1..], base + v[0].recordCount, j);
      if i > 0 {
        RecordsBeforeStep(v, i);
      }
    }
  }

  // The producer's state after a set that it continued with.
  predicate Remembers(log: LogView, v: seq<ValidatedBatch>, result: AppendResult, s: ProducerState)
    requires v != []
  {
    var pid, n := v[0].producerId, |s.recent|;
    var recent := if pid in log.producers then log.producers[pid].recent else [];
    && s.epoch == v[0].producerEpoch
    && s.nextSequence == (Expected(log, pid) + RecordsBefore(v, |v|)) % 0x8000_0000
    && n == (if |recent| < 5 then |recent| + 1 else 5)
    && s.recent[..n - 1] == recent[|recent| - (n - 1)..]
    && HoldsBytes(s.recent[n - 1], v) && s.recent[n - 1].result == result
    && s.recent[n - 1].baseSequence == v[0].baseSequence
  }

  // The log after a set was stored: its batches at the end, one after the other, and its producer's state.
  ghost predicate Extends(log: LogView, v: seq<ValidatedBatch>, result: AppendResult, after: LogView)
    requires v != []
  {
    && after.nextOffset == log.nextOffset + RecordsBefore(v, |v|)
    && EndsWith(log.batches, v, log.nextOffset, after.batches)
    && (if v[0].producerId == -1 then after.producers == log.producers
        else
          && v[0].producerId in after.producers
          && after.producers == log.producers[v[0].producerId := after.producers[v[0].producerId]]
          && Remembers(log, v, result, after.producers[v[0].producerId]))
  }

  lemma StoreRemembers(ext: Externals, log: LogView, v: seq<ValidatedBatch>)
    requires LogSound(ext, log) && Storable(v) && IsI64(log.nextOffset + TotalCount(v))
    requires v[0].producerId != NO_PRODUCER_ID && Continues(log, v)
    ensures var a := Store(log, v);
            && v[0].producerId in a.log.producers && a.result.Ok?
            && a.log.producers == log.producers[v[0].producerId := a.log.producers[v[0].producerId]]
            && Remembers(log, v, a.result.value, a.log.producers[v[0].producerId])
  {
    hide LogSound, Stamp, TotalCount, Consecutive, Remember, Fingerprints, EncodedBatches, HoldsBytes, Store,
         RecordsBefore, Countable;
    var pid, expected := v[0].producerId, Expected(log, v[0].producerId);
    OffsetIsSound(ext, log);
    AllRecords(v);
    StoreParts(log, v);
    StartsAtExpected(ext, log, v);
    var recent := if pid in log.producers then log.producers[pid].recent else [];
    WindowIsShort(ext, log, pid);
    var entry := RecentAppend(v[0].baseSequence, Fingerprints(v), EncodedBatches(v), Store(log, v).result.value);
    StoreAdvances(log, v, recent, entry);
    RememberIsExact(recent, entry);
    EntryHolds(entry, v);
  }

  lemma StoreAdvances(log: LogView, v: seq<ValidatedBatch>, recent: seq<RecentAppend>, entry: RecentAppend)
    requires Storable(v) && 0 <= log.nextOffset && IsI64(log.nextOffset) && IsI64(log.nextOffset + TotalCount(v))
    requires v[0].producerId != NO_PRODUCER_ID && Store(log, v).result.Ok?
    requires recent == if v[0].producerId in log.producers then log.producers[v[0].producerId].recent else []
    requires entry == RecentAppend(v[0].baseSequence, Fingerprints(v), EncodedBatches(v), Store(log, v).result.value)
    ensures var pid, next := v[0].producerId, NextSequence(v[0].baseSequence, TotalCount(v));
            var epoch := if pid in log.producers then log.producers[pid].epoch else v[0].producerEpoch;
            Store(log, v).log.producers == log.producers[pid := ProducerState(epoch, next, Remember(recent, entry))]
  {
    hide Stamp, TotalCount, Remember, Fingerprints, EncodedBatches, NextSequence, Countable;
  }

  lemma StartsAtExpected(ext: Externals, log: LogView, v: seq<ValidatedBatch>)
    requires LogSound(ext, log) && v != [] && Consecutive(v, Expected(log, v[0].producerId))
    ensures v[0].baseSequence == Expected(log, v[0].producerId)
  {
    hide Sequenced, Tiled, AllStored, EpochsSound, EntrySound, Behind, Due;
    var pid := v[0].producerId;
    assert pid in log.producers ==> WindowSound(ext, log.producers[pid]);
    DueAtFront(v, Expected(log, pid));
  }

  lemma WindowIsShort(ext: Externals, log: LogView, pid: int)
    requires LogSound(ext, log)
    ensures pid in log.producers ==> |log.producers[pid].recent| <= 5
  {
    hide Sequenced, Tiled, AllStored, EpochsSound, EntrySound, Behind;
    assert pid in log.producers ==> WindowSound(ext, log.producers[pid]);
  }

  lemma RememberIsExact(recent: seq<RecentAppend>, entry: RecentAppend)
    requires |recent| <= 5
    ensures var r, n := Remember(recent, entry), |Remember(recent, entry)|;
            && n == (if |recent| < 5 then |recent| + 1 else 5)
            && r[..n - 1] == recent[|recent| - (n - 1)..] && r[n - 1] == entry
  {
  }

  lemma EntryHolds(entry: RecentAppend, v: seq<ValidatedBatch>)
    requires entry.encodedBatches == EncodedBatches(v)
    ensures HoldsBytes(entry, v)
  {
  }

  // The batches of the set, stored from `base` on, at the end of `after`.
  predicate EndsWith(before: seq<StoredBatch>, v: seq<ValidatedBatch>, base: int, after: seq<StoredBatch>) {
    && |after| == |before| + |v| && after[..|before|] == before
    && forall i | 0 <= i < |v| :: StoredAs(v[i], base + RecordsBefore(v, i), after[|before| + i])
  }

  lemma StampedAtEnd(before: seq<StoredBatch>, v: seq<ValidatedBatch>, base: int)
    requires v != [] && Countable(v) && IsI64(base) && IsI64(base + TotalCount(v))
    ensures EndsWith(before, v, base, before + Stamp(v, base))
  {
    hide Stamp, TotalCount, StoredAs, Countable, RecordsBefore;
    StampIsExact(v, base, 0);
    var s := Stamp(v, base);
    forall i | 0 <= i < |v| ensures StoredAs(v[i], base + RecordsBefore(v, i), (before + s)[|before| + i]) {
      StampIsExact(v, base, i);
      assert (before + s)[|before| + i] == s[i];
    }
  }

  lemma StoreParts(log: LogView, v: seq<ValidatedBatch>)
    requires Storable(v) && 0 <= log.nextOffset && IsI64(log.nextOffset) && IsI64(log.nextOffset + TotalCount(v))
    ensures var a := Store(log, v);
            && a.result.Ok? && a.log.batches == log.batches + Stamp(v, log.nextOffset)
            && a.log.nextOffset == log.nextOffset + TotalCount(v)
            && (v[0].producerId == NO_PRODUCER_ID ==> a.log.producers == log.producers)
  {
    hide Stamp, TotalCount, Fingerprints, EncodedBatches, Remember, Countable;
  }

  lemma StoreExtends(ext: Externals, log: LogView, v: seq<ValidatedBatch>)
    requires LogSound(ext, log) && Storable(v) && IsI64(log.nextOffset + TotalCount(v)) && Continues(log, v)
    ensures Store(log, v).result.Ok? && Extends(log, v, Store(log, v).result.value, Store(log, v).log)
  {
    hide LogSound, Stamp, TotalCount, Continues, Store, Remembers, EndsWith, Countable, RecordsBefore;
    OffsetIsSound(ext, log);
    AllRecords(v);
    StoreParts(log, v);
    StampedAtEnd(log.batches, v, log.nextOffset);
    if v[0].producerId != NO_PRODUCER_ID {
      StoreRemembers(ext, log, v);
    }
  }

  // A set that is stored extends the log by its batches and nothing else.
  lemma StoredIsExact(ext: Externals, log: LogView, records: Bytes)
    requires LogSound(ext, log) && Fresh(Append(ext, log, records).result)
    ensures var a := Append(ext, log, records);
            && ValidateRecordSet(ext, records).Ok?
            && ValidateRecordSet(ext, records).value != []
            && Extends(log, ValidateRecordSet(ext, records).value, a.result.value, a.log)
  {
    hide LogSound, ValidateRecordSet, Append, Continues, Extends, Store, Stamp, Storable, Admissible;
    AppendStoresOrLeaves(ext, log, records);
    StoredIff(ext, log, records);
    StoreExtends(ext, log, ValidateRecordSet(ext, records).value);
  }
}
