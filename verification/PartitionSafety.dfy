/** What every run of appends keeps true of a partition log. */
module PartitionSafety {
  import opened Text
  import opened Octets
  import opened RecordFormat
  import opened PartitionModel

  // ----- Splitting and rewriting

  function JoinValidated(batches: seq<ValidatedBatch>): Bytes {
    if batches == [] then [] else batches[0].bytes + JoinValidated(batches[1..])
  }

  // The pieces concatenate back to the input.
  lemma {:induction false} SplitConcatenates(ext: Externals, records: Bytes)
    requires SplitBatches(ext, records).Ok?
    ensures JoinValidated(SplitBatches(ext, records).value) == records
    decreases |records|
  {
    hide ValidateBatch;
    if records != [] {
      var length := FrontLength(records).value;
      SplitConcatenates(ext, records[length..]);
      assert records == records[..length] + records[length..];
    }
  }

  predicate Framed(bytes: Bytes) {
    |bytes| >= FIXED_BATCH_SIZE && BatchLength(bytes) == |bytes| - 12
  }

  // A batch in front of anything is split off exactly.
  lemma SplitStep(ext: Externals, batch: Bytes, rest: Bytes)
    requires Framed(batch)
    ensures SplitBatches(ext, batch + rest)
            == match ValidateBatch(ext, batch)
               case Err(e) => Err(e)
               case Ok(first) => match SplitBatches(ext, rest) case Err(e) => Err(e) case Ok(more) => Ok([first] + more)
  {
    hide ValidateBatch;
    var records := batch + rest;
    assert records[8..12] == batch[8..12];
    assert records[..|batch|] == batch && records[|batch|..] == rest;
  }

  // Rewriting the base offset keeps the batch valid and its metadata unchanged.
  lemma RewriteKeepsMetadata(ext: Externals, bytes: Bytes, offset: int)
    requires Framed(bytes) && IsI64(offset)
    ensures Framed(Rewrite(bytes, offset))
    ensures ValidateBatch(ext, Rewrite(bytes, offset))
            == match ValidateBatch(ext, bytes) case Err(e) => Err(e)
               case Ok(v) => Ok(v.(bytes := Rewrite(bytes, offset)))
  {
    hide HeaderAccepted, HeaderFields, Rewrite;
    var r := Rewrite(bytes, offset);
    SameTail(bytes, r);
    HeaderOf(ext, bytes);
    HeaderOf(ext, r);
  }

  lemma SameTail(a: Bytes, b: Bytes)
    requires |a| == |b| >= FIXED_BATCH_SIZE && a[8..] == b[8..]
    ensures a[8..12] == b[8..12] && a[16] == b[16] && a[17..21] == b[17..21]
    ensures a[23..27] == b[23..27] && a[57..61] == b[57..61]
    ensures forall ext: Externals :: HeaderAccepted(ext, a) == HeaderAccepted(ext, b)
    ensures HeaderFields(b) == HeaderFields(a).(minOffset := HeaderFields(b).minOffset)
  {
    hide I16Value, I32Value, I64Value, U32Value;
    assert forall i | 8 <= i < |a| :: a[i] == a[8..][i - 8] && b[i] == b[8..][i - 8];
    assert a[12..16] == b[12..16] && a[21..] == b[21..] && a[27..35] == b[27..35];
    assert a[43..51] == b[43..51] && a[51..53] == b[51..53] && a[53..57] == b[53..57];
  }

  lemma HeaderOf(ext: Externals, batch: Bytes)
    requires Framed(batch)
    ensures DecodeHeader(ext, batch)
            == if HeaderAccepted(ext, batch)
               then Some(DecodedHeader(HeaderFields(batch), batch[FIXED_BATCH_SIZE..], [])) else None
  {
    hide HeaderAccepted, HeaderFields;
    assert batch + [] == batch;
    DecodeHeaderOf(ext, batch, []);
  }

  // ----- Tiling

  // The batches cover [start, end) without gap or overlap.
  predicate Tiled(batches: seq<StoredBatch>, start: int, end: int) {
    if batches == [] then start == end
    else
      && batches[0].baseOffset == start
      && batches[0].recordCount > 0
      && batches[0].lastOffset == start + batches[0].recordCount - 1
      && Tiled(batches[1..], batches[0].lastOffset + 1, end)
  }

  lemma {:induction false} TiledAppend(a: seq<StoredBatch>, b: seq<StoredBatch>, start: int, middle: int, end: int)
    requires Tiled(a, start, middle) && Tiled(b, middle, end)
    ensures Tiled(a + b, start, end)
  {
    if a == [] {
      assert a + b == b;
    } else {
      TiledAppend(a[1..], b, a[0].lastOffset + 1, middle, end);
      assert (a + b)[1..] == a[1..] + b;
    }
  }

  // ----- Stored batches

  predicate StoredSound(ext: Externals, b: StoredBatch) {
    && Framed(b.bytes)
    && ValidateBatch(ext, b.bytes).Ok?
    && ValidateBatch(ext, b.bytes).value.recordCount == b.recordCount
    && I64Value(b.bytes[..8]) == b.baseOffset
  }

  predicate AllStored(ext: Externals, batches: seq<StoredBatch>) {
    forall i | 0 <= i < |batches| :: StoredSound(ext, batches[i])
  }

  // The metadata in a stored batch's bytes.
  function Meta(ext: Externals, b: StoredBatch): ValidatedBatch {
    if Framed(b.bytes) && ValidateBatch(ext, b.bytes).Ok? then ValidateBatch(ext, b.bytes).value
    else ValidatedBatch(0, 0, NO_PRODUCER_ID, NO_PRODUCER_EPOCH, NO_SEQUENCE, 0, [])
  }

  // What `validate_record_set` has established.
  predicate Checked(ext: Externals, batches: seq<ValidatedBatch>) {
    forall i | 0 <= i < |batches| :: Framed(batches[i].bytes) && ValidateBatch(ext, batches[i].bytes) == Ok(batches[i])
  }

  // `s` is the batch `b` stored at its assigned offset.
  predicate StoredFrom(ext: Externals, b: ValidatedBatch, s: StoredBatch) {
    && StoredSound(ext, s)
    && |b.bytes| >= 8 && s.bytes == Rewrite(b.bytes, s.baseOffset)
    && Meta(ext, s) == b.(bytes := s.bytes)
  }

  lemma StampNothing(base: int)
    requires IsI64(base)
    ensures TotalCount([]) == 0 && Stamp([], base) == []
  {
  }

  lemma StampStep(v: seq<ValidatedBatch>, base: int)
    requires v != [] && Countable(v) && IsI64(base) && IsI64(base + TotalCount(v))
    ensures var next := base + v[0].recordCount;
            && |v[0].bytes| >= 8 && Countable(v[1..]) && IsI64(next) && IsI64(next + TotalCount(v[1..]))
            && TotalCount(v) == v[0].recordCount + TotalCount(v[1..])
            && Stamp(v, base)
               == [StoredBatch(base, next - 1, v[0].recordCount, Rewrite(v[0].bytes, base))] + Stamp(v[1..], next)
            && Stamp(v, base)[1..] == Stamp(v[1..], next)
  {
    hide Rewrite;
    TotalIsPositive(v[1..]);
  }

  lemma StampedIsStored(ext: Externals, b: ValidatedBatch, base: int)
    requires Framed(b.bytes) && ValidateBatch(ext, b.bytes) == Ok(b) && IsI64(base)
    ensures StoredFrom(ext, b, StoredBatch(base, base + b.recordCount - 1, b.recordCount, Rewrite(b.bytes, base)))
  {
    hide ValidateBatch, Rewrite;
    RewriteKeepsMetadata(ext, b.bytes, base);
  }

  lemma {:induction false} StampIsSound(ext: Externals, batches: seq<ValidatedBatch>, base: int)
    requires Checked(ext, batches) && Countable(batches) && IsI64(base) && IsI64(base + TotalCount(batches))
    ensures var s := Stamp(batches, base);
            && |s| == |batches| && Tiled(s, base, base + TotalCount(batches))
            && (forall i | 0 <= i < |batches| :: StoredFrom(ext, batches[i], s[i]))
    decreases |batches|
  {
    hide ValidateBatch, Rewrite, StoredFrom, Stamp, TotalCount;
    if batches == [] {
      StampNothing(base);
    } else {
      var b := batches[0];
      StampStep(batches, base);
      StampedIsStored(ext, b, base);
      StampIsSound(ext, batches[1..], base + b.recordCount);
      var s, t := Stamp(batches, base), Stamp(batches[1..], base + b.recordCount);
      forall i | 0 <= i < |batches| ensures StoredFrom(ext, batches[i], s[i]) {
        if i > 0 {
          assert s[i] == t[i - 1] && batches[i] == batches[1..][i - 1];
        }
      }
    }
  }

  // ----- Producer sequences in log order

  // The base sequences of `pid`'s batches, in log order, advance from `from` to `to` by their record
  // counts, modulo 2^31.
  predicate Sequenced(ext: Externals, batches: seq<StoredBatch>, pid: int, from: int, to: int) {
    if batches == [] then from == to
    else
      var m := Meta(ext, batches[0]);
      if m.producerId == pid then
        m.baseSequence == from && Sequenced(ext, batches[1..], pid, NextSequence(from, m.recordCount), to)
      else Sequenced(ext, batches[1..], pid, from, to)
  }

  lemma {:induction false} SequencedAppend(ext: Externals, a: seq<StoredBatch>, b: seq<StoredBatch>, pid: int,
                                           from: int, middle: int, to: int)
    requires Sequenced(ext, a, pid, from, middle) && Sequenced(ext, b, pid, middle, to)
    ensures Sequenced(ext, a + b, pid, from, to)
    decreases |a|
  {
    hide Meta;
    if a == [] {
      assert a + b == b;
    } else {
      var m := Meta(ext, a[0]);
      var next := if m.producerId == pid then NextSequence(from, m.recordCount) else from;
      SequencedAppend(ext, a[1..], b, pid, next, middle, to);
      assert (a + b)[1..] == a[1..] + b;
    }
  }

  // Records of `pid` among the batches.
  function ProducerTotal(ext: Externals, batches: seq<StoredBatch>, pid: int): int {
    if batches == [] then 0
    else
      var last := batches[|batches| - 1];
      var before := ProducerTotal(ext, batches[..|batches| - 1], pid);
      if Meta(ext, last).producerId == pid then before + Meta(ext, last).recordCount else before
  }

  lemma {:induction false} SequencedCutLast(ext: Externals, batches: seq<StoredBatch>, pid: int, from: int, to: int)
    returns (middle: int)
    requires batches != [] && Sequenced(ext, batches, pid, from, to)
    ensures Sequenced(ext, batches[..|batches| - 1], pid, from, middle)
    ensures Sequenced(ext, batches[|batches| - 1..], pid, middle, to)
    decreases |batches|
  {
    hide Meta;
    var n := |batches| - 1;
    if n == 0 {
      middle := from;
      assert batches[n..] == batches;
    } else {
      var m := Meta(ext, batches[0]);
      var next := if m.producerId == pid then NextSequence(from, m.recordCount) else from;
      middle := SequencedCutLast(ext, batches[1..], pid, next, to);
      assert batches[1..][..n - 1] == batches[..n][1..] && batches[1..][n - 1..] == batches[n..];
    }
  }

  // The next sequence is the total of stored records, and every batch starts at the total before it.
  lemma {:induction false} SequencesAreTotals(ext: Externals, batches: seq<StoredBatch>, pid: int, to: int)
    requires Sequenced(ext, batches, pid, 0, to)
    ensures to == ProducerTotal(ext, batches, pid) % SEQUENCE_MODULUS
    ensures forall i | 0 <= i < |batches| && Meta(ext, batches[i]).producerId == pid ::
      Meta(ext, batches[i]).baseSequence == ProducerTotal(ext, batches[..i], pid) % SEQUENCE_MODULUS
    decreases |batches|
  {
    hide Meta;
    if batches != [] {
      var n := |batches| - 1;
      var front := batches[..n];
      var middle := SequencedCutLast(ext, batches, pid, 0, to);
      SequencesAreTotals(ext, front, pid, middle);
      var m := Meta(ext, batches[n]);
      assert batches[n..] == [batches[n]];
      AddThenReduce(ProducerTotal(ext, front, pid), m.recordCount);
      forall i | 0 <= i < |batches| && Meta(ext, batches[i]).producerId == pid
        ensures Meta(ext, batches[i]).baseSequence == ProducerTotal(ext, batches[..i], pid) % SEQUENCE_MODULUS
      {
        if i < n {
          assert front[i] == batches[i] && front[..i] == batches[..i];
        }
      }
    }
  }

  lemma AddThenReduce(total: int, count: int)
    ensures NextSequence(total % SEQUENCE_MODULUS, count) == (total + count) % SEQUENCE_MODULUS
  {
  }

  // A validated set of one producer that starts where it is expected is sequenced once stored.
  lemma {:induction false} StampIsSequenced(ext: Externals, batches: seq<ValidatedBatch>, base: int,
                                            stored: seq<StoredBatch>, pid: int, expected: int)
    requires Checked(ext, batches) && Countable(batches) && IsI64(base) && IsI64(base + TotalCount(batches))
    requires stored == Stamp(batches, base)
    requires forall i | 0 <= i < |batches| :: batches[i].producerId == pid
    requires ValidateSequences(batches, expected).None? && 0 <= expected < SEQUENCE_MODULUS
    ensures Sequenced(ext, stored, pid, expected, NextSequence(expected, TotalCount(batches)))
    decreases |batches|
  {
    hide ValidateBatch, Rewrite, StoredSound, Meta, Stamp, TotalCount, Tiled;
    if batches == [] {
      StampNothing(base);
    } else {
      var b := batches[0];
      StampStep(batches, base);
      StampedIsStored(ext, b, base);
      StampIsSequenced(ext, batches[1..], base + b.recordCount, stored[1..], pid,
                       NextSequence(expected, b.recordCount));
      AddThenReduce(expected + b.recordCount, TotalCount(batches[1..]));
    }
  }

  // Batches of another producer leave a producer's sequence alone.
  lemma {:induction false} OthersAreSkipped(ext: Externals, batches: seq<StoredBatch>, pid: int, from: int)
    requires forall i | 0 <= i < |batches| :: Meta(ext, batches[i]).producerId != pid
    ensures Sequenced(ext, batches, pid, from, from)
    decreases |batches|
  {
    hide Meta;
    if batches != [] {
      assert forall i | 0 <= i < |batches[1..]| :: batches[1..][i] == batches[i + 1];
      OthersAreSkipped(ext, batches[1..], pid, from);
    }
  }
}
