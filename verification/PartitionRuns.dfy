/** Whole runs of appends: offsets, sequences and the retry window. */
module PartitionRuns {
  import opened Octets
  import opened RecordFormat
  import opened PartitionModel
  import opened PartitionSafety

  // ----- The invariant

  function NextFor(log: LogView, pid: int): int {
    if pid in log.producers then log.producers[pid].nextSequence else 0
  }

  // The producer's state, or the one a new producer starts from.
  function StateFor(log: LogView, pid: int, epoch: int): ProducerState {
    if pid in log.producers then log.producers[pid] else ProducerState(epoch, 0, [])
  }

  // An entry of the retry window is the set it was made from.
  predicate EntrySound(ext: Externals, e: RecentAppend) {
    && e.encodedBatches != [] && |e.fingerprints| == |e.encodedBatches|
    && 0 < e.result.recordCount && e.result.appended
    && (forall i | 0 <= i < |e.encodedBatches| ::
          Framed(e.encodedBatches[i]) && ValidateBatch(ext, e.encodedBatches[i]).Ok?)
    && ValidateBatch(ext, e.encodedBatches[0]).value.baseSequence == e.baseSequence
    && forall i | 0 <= i < |e.encodedBatches| ::
         var v := ValidateBatch(ext, e.encodedBatches[i]).value;
         e.fingerprints[i] == RetryFingerprint(v.batchLength, v.recordCount, v.crc)
  }

  // Records held by a window.
  function WindowTotal(recent: seq<RecentAppend>): int {
    if recent == [] then 0 else recent[0].result.recordCount + WindowTotal(recent[1..])
  }

  // An entry starts as far behind the next sequence as the window holds records from it on.
  predicate Behind(suffix: seq<RecentAppend>, nextSequence: int) {
    suffix != [] && suffix[0].baseSequence == (nextSequence - WindowTotal(suffix)) % SEQUENCE_MODULUS
  }

  predicate WindowSound(ext: Externals, state: ProducerState) {
    && 0 <= state.nextSequence < SEQUENCE_MODULUS
    && |state.recent| <= RECENT_APPEND_LIMIT
    && (forall k | 0 <= k < |state.recent| :: EntrySound(ext, state.recent[k]))
    && forall k | 0 <= k < |state.recent| :: Behind(state.recent[k..], state.nextSequence)
  }

  predicate EpochsSound(ext: Externals, log: LogView) {
    forall i | 0 <= i < |log.batches| && Meta(ext, log.batches[i]).producerId != NO_PRODUCER_ID ::
      var m := Meta(ext, log.batches[i]);
      m.producerId in log.producers && log.producers[m.producerId].epoch == m.producerEpoch
  }

  ghost predicate LogSound(ext: Externals, log: LogView) {
    && 0 <= log.nextOffset && IsI64(log.nextOffset)
    && Tiled(log.batches, 0, log.nextOffset)
    && AllStored(ext, log.batches)
    && (forall pid: int | pid != NO_PRODUCER_ID :: Sequenced(ext, log.batches, pid, 0, NextFor(log, pid)))
    && EpochsSound(ext, log)
    && NO_PRODUCER_ID !in log.producers
    && forall pid | pid in log.producers :: WindowSound(ext, log.producers[pid])
  }

  lemma EmptyLogIsSound(ext: Externals)
    ensures LogSound(ext, EmptyLog())
  {
  }

  // ----- The window

  lemma {:induction false} WindowTotalAppend(recent: seq<RecentAppend>, e: RecentAppend)
    ensures WindowTotal(recent + [e]) == WindowTotal(recent) + e.result.recordCount
  {
    if recent == [] {
      assert recent + [e] == [e];
    } else {
      WindowTotalAppend(recent[1..], e);
      assert (recent + [e])[1..] == recent[1..] + [e];
    }
  }

  lemma ShiftedBase(next: int, suffix: int, count: int)
    ensures (NextSequence(next, count) - (suffix + count)) % SEQUENCE_MODULUS == (next - suffix) % SEQUENCE_MODULUS
  {
    assert NextSequence(next, count) - (suffix + count) ==
           (next - suffix) - SEQUENCE_MODULUS * ((next + count) / SEQUENCE_MODULUS);
  }

  lemma BehindAfterAppend(suffix: seq<RecentAppend>, e: RecentAppend, nextSequence: int)
    requires suffix == [] || Behind(suffix, nextSequence)
    requires suffix == [] ==> e.baseSequence == nextSequence && 0 <= nextSequence < SEQUENCE_MODULUS
    ensures Behind(suffix + [e], NextSequence(nextSequence, e.result.recordCount))
  {
    WindowTotalAppend(suffix, e);
    ShiftedBase(nextSequence, WindowTotal(suffix), e.result.recordCount);
  }

  lemma RememberKeepsWindow(ext: Externals, state: ProducerState, e: RecentAppend)
    requires WindowSound(ext, state) && EntrySound(ext, e) && e.baseSequence == state.nextSequence
    ensures WindowSound(ext, ProducerState(state.epoch, NextSequence(state.nextSequence, e.result.recordCount),
                                           Remember(state.recent, e)))
  {
    hide EntrySound, Behind;
    var recent, grown := state.recent, Remember(state.recent, e);
    var d := |recent| + 1 - |grown|;
    assert grown == recent[d..] + [e];
    forall k | 0 <= k < |grown|
      ensures EntrySound(ext, grown[k])
      ensures Behind(grown[k..], NextSequence(state.nextSequence, e.result.recordCount))
    {
      assert grown[k..] == recent[d + k..] + [e];
      BehindAfterAppend(recent[d + k..], e, state.nextSequence);
      assert k < |grown| - 1 ==> grown[k] == recent[d + k];
    }
  }

  lemma NewEntryIsSound(ext: Externals, batches: seq<ValidatedBatch>, result: AppendResult)
    requires Checked(ext, batches) && batches != [] && 0 < result.recordCount && result.appended
    ensures EntrySound(ext,
                       RecentAppend(batches[0].baseSequence, Fingerprints(batches), EncodedBatches(batches), result))
  {
    hide ValidateBatch;
  }

  // ----- One append

  // The set may be stored: its producer is absent, or it continues the producer's sequence and epoch.
  predicate Admissible(log: LogView, batches: seq<ValidatedBatch>)
    requires batches != []
  {
    batches[0].producerId != NO_PRODUCER_ID ==>
      && ValidateSequences(batches, NextFor(log, batches[0].producerId)).None?
      && (batches[0].producerId in log.producers ==>
            log.producers[batches[0].producerId].epoch == batches[0].producerEpoch)
  }

  lemma StoredMetas(ext: Externals, batches: seq<ValidatedBatch>, base: int)
    requires Checked(ext, batches) && Countable(batches) && IsI64(base) && IsI64(base + TotalCount(batches))
    ensures AllStored(ext, Stamp(batches, base)) && |Stamp(batches, base)| == |batches|
    ensures forall i | 0 <= i < |batches| ::
      && Meta(ext, Stamp(batches, base)[i]).producerId == batches[i].producerId
      && Meta(ext, Stamp(batches, base)[i]).producerEpoch == batches[i].producerEpoch
  {
    hide ValidateBatch, StoredSound, Meta;
    StampIsSound(ext, batches, base);
    var s := Stamp(batches, base);
    forall i | 0 <= i < |batches|
      ensures StoredSound(ext, s[i])
      ensures Meta(ext, s[i]).producerId == batches[i].producerId
      ensures Meta(ext, s[i]).producerEpoch == batches[i].producerEpoch
    {
      assert StoredFrom(ext, batches[i], s[i]);
    }
  }

  // The producer's own sequence continues across the stored set.
  lemma OwnSequenceContinues(ext: Externals, stored: seq<StoredBatch>, batches: seq<ValidatedBatch>, base: int,
                             s: seq<StoredBatch>, pid: int, next: int)
    requires Checked(ext, batches) && Countable(batches) && IsI64(base) && IsI64(base + TotalCount(batches))
    requires s == Stamp(batches, base)
    requires forall i | 0 <= i < |batches| :: batches[i].producerId == pid
    requires ValidateSequences(batches, next).None? && 0 <= next < SEQUENCE_MODULUS
    requires Sequenced(ext, stored, pid, 0, next)
    ensures Sequenced(ext, stored + s, pid, 0, NextSequence(next, TotalCount(batches)))
  {
    hide *;
    StampIsSequenced(ext, batches, base, s, pid, next);
    SequencedAppend(ext, stored, s, pid, 0, next, NextSequence(next, TotalCount(batches)));
  }

  // Every other producer's sequence stays.
  lemma OtherSequencesStay(ext: Externals, stored: seq<StoredBatch>, batches: seq<ValidatedBatch>, base: int,
                           s: seq<StoredBatch>, pid: int, next: int)
    requires Checked(ext, batches) && Countable(batches) && IsI64(base) && IsI64(base + TotalCount(batches))
    requires s == Stamp(batches, base)
    requires forall i | 0 <= i < |batches| :: batches[i].producerId != pid
    requires Sequenced(ext, stored, pid, 0, next)
    ensures Sequenced(ext, stored + s, pid, 0, next)
  {
    hide *;
    StoredMetas(ext, batches, base);
    OthersAreSkipped(ext, Stamp(batches, base), pid, next);
    SequencedAppend(ext, stored, s, pid, 0, next, next);
  }

  lemma StoreKeepsBatches(ext: Externals, log: LogView, batches: seq<ValidatedBatch>)
    requires AllStored(ext, log.batches) && Storable(batches) && Checked(ext, batches)
    requires 0 <= log.nextOffset && IsI64(log.nextOffset) && IsI64(log.nextOffset + TotalCount(batches))
    ensures AllStored(ext, Store(log, batches).log.batches)
  {
    hide StoredSound, Meta, Stamp, Fingerprints, EncodedBatches, Remember, Checked;
    StoredMetas(ext, batches, log.nextOffset);
  }

  lemma StoreKeepsEpochs(ext: Externals, log: LogView, batches: seq<ValidatedBatch>)
    requires EpochsSound(ext, log) && Storable(batches) && Checked(ext, batches) && SameProducer(batches)
    requires Admissible(log, batches)
    requires 0 <= log.nextOffset && IsI64(log.nextOffset) && IsI64(log.nextOffset + TotalCount(batches))
    ensures EpochsSound(ext, Store(log, batches).log)
  {
    hide Meta, Stamp, AllStored, ValidateSequences, Fingerprints, EncodedBatches, Remember, Checked;
    StoredMetas(ext, batches, log.nextOffset);
    var s := Stamp(batches, log.nextOffset);
    var stored := Store(log, batches).log;
    forall i | 0 <= i < |stored.batches| && Meta(ext, stored.batches[i]).producerId != NO_PRODUCER_ID
      ensures var m := Meta(ext, stored.batches[i]);
              m.producerId in stored.producers && stored.producers[m.producerId].epoch == m.producerEpoch
    {
      if i < |log.batches| {
        assert stored.batches[i] == log.batches[i];
      } else {
        assert stored.batches[i] == s[i - |log.batches|];
      }
    }
  }

  lemma StoreKeepsWindow(ext: Externals, state: ProducerState, batches: seq<ValidatedBatch>, result: AppendResult)
    requires Checked(ext, batches) && batches != [] && 0 < result.recordCount && result.appended
    requires WindowSound(ext, state) && batches[0].baseSequence == state.nextSequence
    ensures WindowSound(ext, ProducerState(state.epoch, NextSequence(state.nextSequence, result.recordCount),
              Remember(state.recent,
                       RecentAppend(batches[0].baseSequence, Fingerprints(batches), EncodedBatches(batches), result))))
  {
    hide *;
    NewEntryIsSound(ext, batches, result);
    RememberKeepsWindow(ext, state,
      RecentAppend(batches[0].baseSequence, Fingerprints(batches), EncodedBatches(batches), result));
  }

  lemma StoreKeepsWindows(ext: Externals, log: LogView, batches: seq<ValidatedBatch>, pid: int)
    requires Storable(batches) && Checked(ext, batches) && Admissible(log, batches)
    requires forall p | p in log.producers :: WindowSound(ext, log.producers[p])
    requires 0 <= log.nextOffset && IsI64(log.nextOffset) && IsI64(log.nextOffset + TotalCount(batches))
    requires pid in Store(log, batches).log.producers && NO_PRODUCER_ID !in log.producers
    ensures WindowSound(ext, Store(log, batches).log.producers[pid])
    ensures pid == batches[0].producerId ==> Store(log, batches).log.producers[pid].nextSequence
                                             == NextSequence(NextFor(log, pid), TotalCount(batches))
  {
    hide ValidateBatch, EntrySound, Stamp, Checked, Fingerprints, EncodedBatches, Remember, Behind;
    var first := batches[0];
    if pid == first.producerId {
      TotalIsPositive(batches);
      var total := TotalCount(batches);
      StoreKeepsWindow(ext, StateFor(log, pid, first.producerEpoch), batches,
        AppendResult(log.nextOffset, log.nextOffset + total - 1, total, true));
    }
  }

  lemma StoreKeepsSequences(ext: Externals, log: LogView, batches: seq<ValidatedBatch>, pid: int)
    requires LogSound(ext, log) && Storable(batches) && Checked(ext, batches) && SameProducer(batches)
    requires Admissible(log, batches)
    requires IsI64(log.nextOffset + TotalCount(batches)) && pid != NO_PRODUCER_ID
    ensures Sequenced(ext, Store(log, batches).log.batches, pid, 0, NextFor(Store(log, batches).log, pid))
  {
    hide StoredSound, Meta, Sequenced, Tiled, EpochsSound, Fingerprints, EncodedBatches, Remember, ValidateSequences,
         AllStored, Stamp, Checked, EntrySound, Behind;
    var first, s := batches[0], Stamp(batches, log.nextOffset);
    if pid == first.producerId {
      OwnSequenceContinues(ext, log.batches, batches, log.nextOffset, s, pid, NextFor(log, pid));
      StoreKeepsWindows(ext, log, batches, pid);
    } else {
      OtherSequencesStay(ext, log.batches, batches, log.nextOffset, s, pid, NextFor(log, pid));
    }
  }

  lemma StoreKeepsTiling(ext: Externals, log: LogView, batches: seq<ValidatedBatch>)
    requires Tiled(log.batches, 0, log.nextOffset) && Storable(batches) && Checked(ext, batches)
    requires 0 <= log.nextOffset && IsI64(log.nextOffset) && IsI64(log.nextOffset + TotalCount(batches))
    ensures Tiled(Store(log, batches).log.batches, 0, Store(log, batches).log.nextOffset)
  {
    hide Tiled, Stamp, Checked, Fingerprints, EncodedBatches, Remember, StoredFrom;
    StampIsSound(ext, batches, log.nextOffset);
    TiledAppend(log.batches, Stamp(batches, log.nextOffset), 0, log.nextOffset, log.nextOffset + TotalCount(batches));
  }

  lemma StoreKeepsSound(ext: Externals, log: LogView, batches: seq<ValidatedBatch>)
    requires LogSound(ext, log) && Storable(batches) && Checked(ext, batches) && SameProducer(batches)
    requires Admissible(log, batches)
    ensures LogSound(ext, Store(log, batches).log)
  {
    hide StoredSound, Meta, Sequenced, Tiled, WindowSound, EpochsSound, Fingerprints, EncodedBatches, Remember,
         ValidateSequences, Stamp, Admissible, Checked, SameProducer, AllStored;
    if IsI64(log.nextOffset + TotalCount(batches)) {
      var stored := Store(log, batches).log;
      TotalIsPositive(batches);
      StoreKeepsTiling(ext, log, batches);
      StoreKeepsBatches(ext, log, batches);
      StoreKeepsEpochs(ext, log, batches);
      forall pid | pid in stored.producers ensures WindowSound(ext, stored.producers[pid]) {
        StoreKeepsWindows(ext, log, batches, pid);
      }
      forall pid: int | pid != NO_PRODUCER_ID ensures Sequenced(ext, stored.batches, pid, 0, NextFor(stored, pid)) {
        StoreKeepsSequences(ext, log, batches, pid);
      }
    }
  }

  // What a validated set is.
  lemma ValidatedIsChecked(ext: Externals, records: Bytes)
    requires ValidateRecordSet(ext, records).Ok?
    ensures var v := ValidateRecordSet(ext, records).value;
            v != [] && Checked(ext, v) && SameProducer(v) && Countable(v) && JoinValidated(v) == records
  {
    hide ValidateBatch, SplitBatches;
    SplitIsStorable(ext, records);
    SplitConcatenates(ext, records);
  }

  predicate Fresh(result: Result<AppendResult>) {
    result.Ok? && result.value.appended
  }

  // The append stored `v` at the end of the log and named its offsets.
  predicate StoredAtEnd(log: LogView, v: seq<ValidatedBatch>, a: Appended) {
    && 0 <= log.nextOffset && IsI64(log.nextOffset) && Storable(v) && Admissible(log, v)
    && IsI64(log.nextOffset + TotalCount(v))
    && a == Store(log, v)
    && a.log.batches == log.batches + Stamp(v, log.nextOffset)
    && a.log.nextOffset == log.nextOffset + TotalCount(v)
    && a.result == Ok(AppendResult(log.nextOffset, a.log.nextOffset - 1, TotalCount(v), true))
  }

  // An append either stores its set, or changes nothing.
  lemma AppendStoresOrLeaves(ext: Externals, log: LogView, records: Bytes)
    requires LogSound(ext, log)
    ensures var a := Append(ext, log, records);
            if Fresh(a.result) then
              ValidateRecordSet(ext, records).Ok? && StoredAtEnd(log, ValidateRecordSet(ext, records).value, a)
            else a.log == log
  {
    hide Sequenced, Meta, Stamp, Tiled, AllStored, EpochsSound, Fingerprints, EncodedBatches, Remember,
         ValidateSequences, ValidateRecordSet, FindRecent, EntrySound, Behind, JoinValidated, Checked;
    if ValidateRecordSet(ext, records).Ok? {
      ValidatedIsChecked(ext, records);
    }
  }

  lemma AppendKeepsSound(ext: Externals, log: LogView, records: Bytes)
    requires LogSound(ext, log)
    ensures LogSound(ext, Append(ext, log, records).log)
  {
    hide Append, Store, ValidateRecordSet, Sequenced, WindowSound, EpochsSound, Tiled, AllStored, Stamp, Admissible,
         Checked, TotalCount;
    AppendStoresOrLeaves(ext, log, records);
    if Fresh(Append(ext, log, records).result) {
      ValidatedIsChecked(ext, records);
      StoreKeepsSound(ext, log, ValidateRecordSet(ext, records).value);
    }
  }

  // ----- Runs

  // The log after a run of appends to an empty partition.
  ghost function LogAfter(ext: Externals, sets: seq<Bytes>): (log: LogView)
    ensures LogSound(ext, log)
    ensures 0 <= log.nextOffset && IsI64(log.nextOffset)
  {
    if sets == [] then
      EmptyLogIsSound(ext);
      EmptyLog()
    else
      var log := LogAfter(ext, sets[..|sets| - 1]);
      AppendKeepsSound(ext, log, sets[|sets| - 1]);
      Append(ext, log, sets[|sets| - 1]).log
  }

  // The reply to the `i`-th append of the run.
  ghost function ReplyTo(ext: Externals, sets: seq<Bytes>, i: nat): Result<AppendResult>
    requires i < |sets|
  {
    Append(ext, LogAfter(ext, sets[..i]), sets[i]).result
  }

  // After any run: offsets are tiled, every stored batch says so in its bytes, and each producer's
  // base sequences and next sequence are its record totals modulo 2^31.
  lemma RunIsTiledAndSequenced(ext: Externals, sets: seq<Bytes>, pid: int)
    ensures var log := LogAfter(ext, sets);
            && Tiled(log.batches, 0, log.nextOffset)
            && AllStored(ext, log.batches)
            && (pid != NO_PRODUCER_ID ==>
                  && NextFor(log, pid) == ProducerTotal(ext, log.batches, pid) % SEQUENCE_MODULUS
                  && forall i | 0 <= i < |log.batches| && Meta(ext, log.batches[i]).producerId == pid ::
                       Meta(ext, log.batches[i]).baseSequence
                         == ProducerTotal(ext, log.batches[..i], pid) % SEQUENCE_MODULUS)
  {
    hide LogAfter, Sequenced, Meta, Tiled, AllStored, WindowSound, ProducerTotal, EpochsSound;
    var log := LogAfter(ext, sets);
    if pid != NO_PRODUCER_ID {
      SequencesAreTotals(ext, log.batches, pid, NextFor(log, pid));
    }
  }

  // What is stored stays stored.
  lemma {:induction false} LogOnlyGrows(ext: Externals, sets: seq<Bytes>, i: nat)
    requires i <= |sets|
    ensures LogAfter(ext, sets[..i]).batches <= LogAfter(ext, sets).batches
    ensures LogAfter(ext, sets[..i]).nextOffset <= LogAfter(ext, sets).nextOffset
    decreases |sets|
  {
    hide LogSound, Append, Stamp, Storable, Admissible, Store, ValidateRecordSet, TotalCount;
    if i == |sets| {
      assert sets[..i] == sets;
    } else {
      var n := |sets| - 1;
      LogOnlyGrows(ext, sets[..n], i);
      assert sets[..n][..i] == sets[..i];
      AppendStoresOrLeaves(ext, LogAfter(ext, sets[..n]), sets[n]);
      AppendGrows(ext, LogAfter(ext, sets[..n]), sets[n]);
    }
  }

  lemma AppendGrows(ext: Externals, log: LogView, records: Bytes)
    requires LogSound(ext, log)
    ensures log.nextOffset <= Append(ext, log, records).log.nextOffset
  {
    hide Append, Stamp, Admissible, ValidateRecordSet, Sequenced, WindowSound, EpochsSound, Tiled, AllStored;
    AppendStoresOrLeaves(ext, log, records);
    if Fresh(Append(ext, log, records).result) {
      TotalIsPositive(ValidateRecordSet(ext, records).value);
    }
  }

  // From index `from` on, the log holds exactly the batches of `v`, rewritten to the offsets `r` names.
  predicate HeldAt(log: seq<StoredBatch>, from: nat, v: seq<ValidatedBatch>, r: AppendResult) {
    && Countable(v) && IsI64(r.baseOffset) && IsI64(r.baseOffset + TotalCount(v))
    && r.lastOffset == r.baseOffset + TotalCount(v) - 1
    && from + |v| <= |log|
    && log[from..from + |v|] == Stamp(v, r.baseOffset)
    && Tiled(log[from..from + |v|], r.baseOffset, r.lastOffset + 1)
  }

  // A set stored at the end of one log is held by every longer one.
  lemma HeldByLonger(ext: Externals, log: LogView, v: seq<ValidatedBatch>, a: Appended, later: seq<StoredBatch>)
    requires Checked(ext, v) && StoredAtEnd(log, v, a) && a.log.batches <= later
    ensures HeldAt(later, |log.batches|, v, a.result.value)
  {
    hide Stamp, Store, Tiled, Admissible, Checked, StoredFrom, TotalCount;
    var base, from := log.nextOffset, |log.batches|;
    StampIsSound(ext, v, base);
    assert a.log.batches[from..] == Stamp(v, base);
    assert later[from..from + |v|] == a.log.batches[from..];
  }

  // An accepted set is in the log, at the offsets its reply named, for the rest of the run.
  lemma StoredWhereReplied(ext: Externals, sets: seq<Bytes>, i: nat)
    requires i < |sets| && Fresh(ReplyTo(ext, sets, i))
    ensures ValidateRecordSet(ext, sets[i]).Ok?
    ensures HeldAt(LogAfter(ext, sets).batches, |LogAfter(ext, sets[..i]).batches|,
                   ValidateRecordSet(ext, sets[i]).value, ReplyTo(ext, sets, i).value)
  {
    hide Append, ValidateRecordSet, LogSound, LogAfter, HeldAt, StoredAtEnd;
    var log := LogAfter(ext, sets[..i]);
    AppendStoresOrLeaves(ext, log, sets[i]);
    ValidatedIsChecked(ext, sets[i]);
    LogOnlyGrows(ext, sets, i + 1);
    LogAfterOneMore(ext, sets, i);
    HeldByLonger(ext, log, ValidateRecordSet(ext, sets[i]).value, Append(ext, log, sets[i]),
                 LogAfter(ext, sets).batches);
  }

  lemma LogAfterOneMore(ext: Externals, sets: seq<Bytes>, i: nat)
    requires i < |sets|
    ensures LogAfter(ext, sets[..i + 1]) == Append(ext, LogAfter(ext, sets[..i]), sets[i]).log
  {
    hide Append, LogSound;
    var prefix := sets[..i + 1];
    assert prefix[..i] == sets[..i] && prefix[|prefix| - 1] == sets[i];
  }
}
