/** The partition log as it is updated in place, proved against the model. */
module PartitionLog {
  import opened Text
  import opened Octets
  import opened RecordFormat
  import opened PartitionModel
  import opened PartitionSafety
  import opened PartitionRuns
  import opened PartitionFetch

  // ----- Validating a record set

  // What the whole split is once `done` has been split off the front.
  function After(done: seq<ValidatedBatch>, rest: Result<seq<ValidatedBatch>>): Result<seq<ValidatedBatch>> {
    match rest
    case Err(e) => Err(e)
    case Ok(more) => Ok(done + more)
  }

  function Then(first: Result<ValidatedBatch>, rest: Result<seq<ValidatedBatch>>): Result<seq<ValidatedBatch>> {
    if first.Err? then Err(first.error) else After([first.value], rest)
  }

  // The first batch of what remains, and the rest.
  lemma SplitFront(ext: Externals, remaining: Bytes)
    requires remaining != []
    ensures FrontLength(remaining).Err? ==> SplitBatches(ext, remaining) == Err(FrontLength(remaining).error)
    ensures FrontLength(remaining).Ok? ==>
              && Framed(remaining[..FrontLength(remaining).value])
              && SplitBatches(ext, remaining)
                 == Then(ValidateBatch(ext, remaining[..FrontLength(remaining).value]),
                         SplitBatches(ext, remaining[FrontLength(remaining).value..]))
  {
    hide ValidateBatch;
    if FrontLength(remaining).Ok? {
      var length := FrontLength(remaining).value;
      assert remaining[..length][8..12] == remaining[8..12];
    }
  }

  method ValidateRecords(ext: Externals, records: Bytes) returns (result: Result<seq<ValidatedBatch>>)
    ensures result == ValidateRecordSet(ext, records)
  {
    hide ValidateBatch, SplitBatches, FrontLength, After;
    if |records| == 0 {
      return Err(Malformed);
    }
    var validated: seq<ValidatedBatch> := [];
    var position := 0;
    assert records[0..] == records;
    AfterNothing(SplitBatches(ext, records));
    while position < |records|
      invariant 0 <= position <= |records|
      invariant SplitBatches(ext, records) == After(validated, SplitBatches(ext, records[position..]))
      invariant position == 0 || validated != []
    {
      var remaining := records[position..];
      SplitFront(ext, remaining);
      var front := FrontLength(remaining);
      if front.Err? {
        AfterError(validated, front.error);
        return Err(front.error);
      }
      var batch := ValidateBatch(ext, remaining[..front.value]);
      if batch.Err? {
        AfterError(validated, batch.error);
        return Err(batch.error);
      }
      AfterTwice(validated, batch.value, SplitBatches(ext, remaining[front.value..]));
      assert remaining[front.value..] == records[position + front.value..];
      validated := validated + [batch.value];
      position := position + front.value;
    }
    AfterAll(validated);
    assert records[position..] == [];
    SplitNothing(ext);
    var first := validated[0];
    for i := 0 to |validated|
      invariant forall j | 0 <= j < i ::
                  validated[j].producerId == first.producerId && validated[j].producerEpoch == first.producerEpoch
    {
      if validated[i].producerId != first.producerId || validated[i].producerEpoch != first.producerEpoch {
        return Err(Malformed);
      }
    }
    result := Ok(validated);
  }

  lemma AfterNothing(rest: Result<seq<ValidatedBatch>>)
    ensures After([], rest) == rest
  {
    if rest.Ok? {
      assert [] + rest.value == rest.value;
    }
  }

  lemma AfterError(done: seq<ValidatedBatch>, e: AppendError)
    ensures After(done, Err(e)) == Err(e)
  {
  }

  lemma AfterAll(done: seq<ValidatedBatch>)
    ensures After(done, Ok([])) == Ok(done)
  {
    assert done + [] == done;
  }

  lemma AfterTwice(done: seq<ValidatedBatch>, first: ValidatedBatch, rest: Result<seq<ValidatedBatch>>)
    ensures After(done, After([first], rest)) == After(done + [first], rest)
  {
    if rest.Ok? {
      assert done + ([first] + rest.value) == (done + [first]) + rest.value;
    }
  }

  // ----- Loops of an append

  // The checked sum of record counts: none when it leaves the 32-bit range.
  method CheckedTotal(batches: seq<ValidatedBatch>) returns (total: Option<int>)
    requires forall i | 0 <= i < |batches| :: batches[i].recordCount > 0
    ensures total == if TotalCount(batches) <= MAX_I32 then Some(TotalCount(batches)) else None
  {
    var sum := 0;
    assert batches[0..] == batches;
    for i := 0 to |batches|
      invariant sum + TotalCount(batches[i..]) == TotalCount(batches)
      invariant sum <= MAX_I32
    {
      assert batches[i..][1..] == batches[i + 1..];
      if sum + batches[i].recordCount > MAX_I32 {
        TotalIsPositive(batches[i + 1..]);
        return None;
      }
      sum := sum + batches[i].recordCount;
    }
    assert batches[|batches|..] == [];
    total := Some(sum);
  }

  method CheckSequences(batches: seq<ValidatedBatch>, expectedSequence: int) returns (error: Option<AppendError>)
    ensures error == ValidateSequences(batches, expectedSequence)
  {
    var expected := expectedSequence;
    assert batches[0..] == batches;
    for i := 0 to |batches|
      invariant ValidateSequences(batches[i..], expected) == ValidateSequences(batches, expectedSequence)
    {
      assert batches[i..][1..] == batches[i + 1..];
      if batches[i].baseSequence != expected {
        return Some(ClassifyMismatch(batches[i].baseSequence, expected));
      }
      expected := NextSequence(expected, batches[i].recordCount);
    }
    assert batches[|batches|..] == [];
    error := None;
  }

  method FindRetry(recent: seq<RecentAppend>, batches: seq<ValidatedBatch>) returns (found: Option<nat>)
    requires batches != []
    ensures found == FindRecent(recent, batches)
  {
    for i := 0 to |recent|
      invariant forall k | 0 <= k < i :: !Matches(recent[k], batches)
    {
      if Matches(recent[i], batches) {
        FirstMatch(recent, batches, i);
        return Some(i);
      }
    }
    found := None;
  }

  lemma {:induction false} FirstMatch(recent: seq<RecentAppend>, batches: seq<ValidatedBatch>, i: nat)
    requires batches != [] && i < |recent| && Matches(recent[i], batches)
    requires forall k | 0 <= k < i :: !Matches(recent[k], batches)
    ensures FindRecent(recent, batches) == Some(i)
  {
    hide Matches;
    if i > 0 {
      assert forall k | 0 <= k < i - 1 :: recent[1..][k] == recent[k + 1];
      assert recent[1..][i - 1] == recent[i];
      FirstMatch(recent[1..], batches, i - 1);
    }
  }

  lemma StampNext(stored: seq<StoredBatch>, rest: seq<ValidatedBatch>, offset: int, b: StoredBatch,
                  whole: seq<StoredBatch>)
    requires rest != [] && Countable(rest) && IsI64(offset) && IsI64(offset + TotalCount(rest))
    requires b == StoredBatch(offset, offset + rest[0].recordCount - 1, rest[0].recordCount,
                              Rewrite(rest[0].bytes, offset))
    requires stored + Stamp(rest, offset) == whole
    ensures Countable(rest[1..]) && IsI64(b.lastOffset + 1) && IsI64(b.lastOffset + 1 + TotalCount(rest[1..]))
    ensures (stored + [b]) + Stamp(rest[1..], b.lastOffset + 1) == whole
  {
    hide Rewrite, Stamp, TotalCount, Countable;
    StampStep(rest, offset);
    assert stored + ([b] + Stamp(rest[1..], b.lastOffset + 1)) == (stored + [b]) + Stamp(rest[1..], b.lastOffset + 1);
  }

  // Every batch gets the next free offset, written over its first eight bytes.
  method StampAll(batches: seq<ValidatedBatch>, base: int) returns (stored: seq<StoredBatch>)
    requires Countable(batches) && IsI64(base) && IsI64(base + TotalCount(batches))
    ensures stored == Stamp(batches, base)
  {
    hide Rewrite, Stamp, TotalCount;
    stored := [];
    var offset := base;
    ghost var whole, rest := Stamp(batches, base), batches;
    assert stored + whole == whole;
    for i := 0 to |batches|
      invariant rest == batches[i..] && Countable(rest) && IsI64(offset) && IsI64(offset + TotalCount(rest))
      invariant stored + Stamp(rest, offset) == whole
    {
      var batch := batches[i];
      assert rest[0] == batch && |batch.bytes| >= 8;
      var last := offset + batch.recordCount - 1;
      var b := StoredBatch(offset, last, batch.recordCount, Rewrite(batch.bytes, offset));
      StampNext(stored, rest, offset, b, whole);
      stored := stored + [b];
      rest := rest[1..];
      offset := last + 1;
    }
    StampNothing(offset);
  }

  // Pushes an entry, dropping the oldest while the window is full.
  method PushRecent(recent: seq<RecentAppend>, entry: RecentAppend) returns (window: seq<RecentAppend>)
    ensures window == Remember(recent, entry)
  {
    window := recent;
    while |window| >= RECENT_APPEND_LIMIT
      invariant |window| <= |recent| && window == recent[|recent| - |window|..]
      invariant |window| < RECENT_APPEND_LIMIT ==> window == recent || |window| == RECENT_APPEND_LIMIT - 1
    {
      window := window[1..];
    }
    window := window + [entry];
  }

  class Log {
    const ext: Externals
    var nextOffset: int
    var batches: seq<StoredBatch>
    var producers: map<int, ProducerState>

    ghost function View(): LogView
      reads this
    {
      LogView(nextOffset, batches, producers)
    }

    ghost predicate Valid()
      reads this
    {
      LogSound(ext, View())
    }

    constructor (externals: Externals)
      ensures Valid() && View() == EmptyLog() && ext == externals
    {
      ext := externals;
      nextOffset := 0;
      batches := [];
      producers := map[];
      new;
      EmptyLogIsSound(ext);
    }

    method Append(records: Bytes) returns (result: Result<AppendResult>)
      requires Valid()
      modifies this
      ensures Valid() && Appended(View(), result) == PartitionModel.Append(ext, old(View()), records)
    {
      hide ValidateRecordSet, Sequenced, WindowSound, EpochsSound, Tiled, AllStored, Stamp, Fingerprints,
           EncodedBatches, FindRecent, ValidateSequences, Checked, JoinValidated, Matches, Remember;
      AppendKeepsSound(ext, View(), records);
      var validation := ValidateRecords(ext, records);
      if validation.Err? {
        return Err(validation.error);
      }
      ValidatedIsChecked(ext, records);
      var validated := validation.value;
      var total := CheckedTotal(validated);
      if total.None? {
        return Err(OffsetOverflow);
      }
      var first := validated[0];
      if first.producerId != NO_PRODUCER_ID {
        var expected := 0;
        if first.producerId in producers {
          var state := producers[first.producerId];
          if state.epoch != first.producerEpoch {
            return Err(OutOfOrderSequence);
          }
          var retry := FindRetry(state.recent, validated);
          if retry.Some? {
            return Ok(state.recent[retry.value].result.(appended := false));
          }
          expected := state.nextSequence;
        } else if first.baseSequence != 0 {
          return Err(OutOfOrderSequence);
        }
        var mismatch := CheckSequences(validated, expected);
        if mismatch.Some? {
          return Err(mismatch.value);
        }
      }
      var base := nextOffset;
      var next := base + total.value;
      if !IsI64(next) {
        return Err(OffsetOverflow);
      }
      var stored := StampAll(validated, base);
      result := Ok(AppendResult(base, next - 1, total.value, true));
      batches := batches + stored;
      nextOffset := next;
      if first.producerId != NO_PRODUCER_ID {
        var recent := if first.producerId in producers then producers[first.producerId].recent else [];
        var epoch := if first.producerId in producers then producers[first.producerId].epoch else first.producerEpoch;
        var window := PushRecent(recent,
          RecentAppend(first.baseSequence, Fingerprints(validated), EncodedBatches(validated), result.value));
        producers := producers[first.producerId :=
          ProducerState(epoch, NextSequence(first.baseSequence, total.value), window)];
      }
    }

    // None when the offset is out of range.
    method Fetch(offset: int, limit: nat) returns (snapshot: Option<FetchSnapshot>)
      requires Valid()
      ensures snapshot == PartitionModel.Fetch(View(), offset, limit)
    {
      hide LogSound, TakeWithin, JoinBytes;
      if offset < 0 || offset > nextOffset {
        return None;
      }
      var i := 0;
      assert batches[0..] == batches;
      while i < |batches| && batches[i].lastOffset < offset
        invariant 0 <= i <= |batches|
        invariant SkipTo(batches[i..], offset) == SkipTo(batches, offset)
      {
        assert batches[i..][1..] == batches[i + 1..];
        i := i + 1;
      }
      var records: Bytes := [];
      ghost var wanted := JoinBytes(FetchBatches(View(), offset, limit));
      assert SkipTo(batches[i..], offset) == batches[i..] && records + wanted == wanted;
      while i < |batches|
        invariant 0 <= i <= |batches|
        invariant records + JoinBytes(TakeWithin(batches[i..], limit, |records|)) == wanted
      {
        TakeStep(batches, i, limit, |records|);
        var batch := batches[i];
        if |records| > 0 && |records| + |batch.bytes| > limit {
          assert records + [] == records;
          return Some(FetchSnapshot(records, nextOffset));
        }
        ghost var later := JoinBytes(TakeWithin(batches[i + 1..], limit, |records| + |batch.bytes|));
        assert records + (batch.bytes + later) == (records + batch.bytes) + later;
        records := records + batch.bytes;
        i := i + 1;
      }
      TakeEnd(batches, limit, |records|);
      assert records + [] == records;
      snapshot := Some(FetchSnapshot(records, nextOffset));
    }
  }

  lemma TakeStep(batches: seq<StoredBatch>, i: nat, limit: nat, size: nat)
    requires i < |batches|
    ensures var b := batches[i].bytes;
            JoinBytes(TakeWithin(batches[i..], limit, size))
            == if size > 0 && size + |b| > limit then []
               else b + JoinBytes(TakeWithin(batches[i + 1..], limit, size + |b|))
  {
    assert batches[i..][1..] == batches[i + 1..];
    if !(size > 0 && size + |batches[i].bytes| > limit) {
      assert TakeWithin(batches[i..], limit, size)[1..]
             == TakeWithin(batches[i + 1..], limit, size + |batches[i].bytes|);
    }
  }

  lemma TakeEnd(batches: seq<StoredBatch>, limit: nat, size: nat)
    ensures JoinBytes(TakeWithin(batches[|batches|..], limit, size)) == []
  {
  }
}
