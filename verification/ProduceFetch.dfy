/** From a producer's encoder through a partition to a consumer's decoder. */
module ProduceFetch {
  import opened Text
  import opened Octets
  import opened Varints
  import opened RecordFormat
  import opened RecordRoundTrip
  import opened PartitionModel
  import opened PartitionSafety
  import opened PartitionRuns
  import opened PartitionFetch

  // ----- Encoded batches and the validator

  // The producer identity an append admits.
  predicate IdentityAdmitted(producerId: int, producerEpoch: int, baseSequence: int) {
    || (producerId == -1 && producerEpoch == -1 && (baseSequence == -1 || baseSequence == 0))
    || (producerId != -1 && producerEpoch >= 0 && baseSequence >= 0)
  }

  function LastDelta(run: seq<Record>): int
    requires run != []
  {
    WrapI32(WrapI64(MaxOf(Offsets(run)) - MinOf(Offsets(run))))
  }

  // The batch an encoder makes of a run is admitted exactly when the run is neither transactional nor
  // control, its producer identity is admitted and its offsets span as many values as it has records.
  lemma EncodedIsValidated(ext: Externals, run: seq<Record>)
    requires run != [] && AllWellTyped(ext, run) && EncodeBatch(ext, run).Some?
    ensures var bs, first := EncodeBatch(ext, run).value, run[0];
            var base := BaseSequence(first, MinOf(Offsets(run)));
            && Framed(bs)
            && ValidateBatch(ext, bs)
               == if first.transactional || first.control then Err(UnsupportedBatch)
                  else if !IdentityAdmitted(first.producerId, first.producerEpoch, base)
                    || LastDelta(run) != |run| - 1 then Err(Malformed)
                  else Ok(ValidatedBatch(|bs| - 12, |run|, first.producerId, first.producerEpoch, base,
                                         ext.crc(bs[21..]), bs))
  {
    hide EncodeRecords, BatchFrame, BatchContentHeader, HeaderAccepted, HeaderFields, I32Bytes, I32Value, U32Bytes,
         U32Value, MinOf, MaxOf, WrapI32, WrapI64, BaseSequence;
    var bs := EncodeBatch(ext, run).value;
    var records := EncodeRecords(run, MinOf(Offsets(run)), MinOf(Timestamps(run))).value;
    var content := BatchContentHeader(run) + records;
    FrameFields(ext, run[0], MinOf(Offsets(run)), content);
    FrameDescribes(ext, run, records);
    LastDeltaField(ext, run, records);
    HeaderOf(ext, bs);
  }

  lemma LastDeltaField(ext: Externals, run: seq<Record>, records: Bytes)
    requires run != [] && AllWellTyped(ext, run) && |run| <= MAX_I32
    requires 9 + |BatchContentHeader(run) + records| <= MAX_I32
    ensures var bs := BatchFrame(ext, run[0], MinOf(Offsets(run)), BatchContentHeader(run) + records);
            I32Value(bs[23..27]) == LastDelta(run) && I32Value(bs[57..61]) == |run|
  {
    hide I64Bytes, I32Bytes, I16Bytes, U32Bytes, I32Value, BatchFrame, MinOf, MaxOf, WrapI32, WrapI64, BaseSequence,
         Attributes;
    var content := BatchContentHeader(run) + records;
    var bs := BatchFrame(ext, run[0], MinOf(Offsets(run)), content);
    FrameFields(ext, run[0], MinOf(Offsets(run)), content);
    ContentFields(run, records);
    assert bs[23..27] == bs[21..][2..6] && bs[57..61] == bs[21..][36..40];
    assert content[2..6] == BatchContentHeader(run)[2..6] == I32Bytes(LastDelta(run));
  }

  // ----- Decoding at an assigned offset

  // The record as it is read when its batch has moved from base offset `from` to `to`.
  function Moved(r: Record, from: int, to: int): Record {
    r.(offset := WrapI64(to + WrapI64(r.offset - from)))
  }

  function AllMoved(records: seq<Record>, from: int, to: int): seq<Record> {
    seq(|records|, i requires 0 <= i < |records| => Moved(records[i], from, to))
  }

  lemma DeltaSurvives(from: int, to: int, delta: int)
    ensures WrapI64(to + delta) == WrapI64(to + WrapI64(WrapI64(from + delta) - from))
  {
    hide WrapI64;
    var there := WrapI64(from + delta);
    var back := WrapI64(there - from);
    assert (there - (from + delta)) % TWO_64 == 0 && (back - (there - from)) % TWO_64 == 0;
    assert (to + delta) - (to + back) == -((there - (from + delta)) + (back - (there - from)));
    WrapIsUnique64(to + delta, to + back);
  }

  lemma BodyMoves(ext: Externals, body: Bytes, info: BatchInfo, base: int)
    ensures DecodeBody(ext, body, info.(minOffset := base))
            == match DecodeBody(ext, body, info) case None => None case Some(r) => Some(Moved(r, info.minOffset, base))
  {
    hide ReadVarInt, ReadVarLong, ReadOptional, ReadHeaders, WrapI64, WrapI32;
    if body != [] {
      match ReadVarLong(body[1..]) {
        case None =>
        case Some(timestamp) =>
          match ReadVarInt(timestamp.rest) {
            case None =>
            case Some(delta) => DeltaSurvives(info.minOffset, base, delta.value);
          }
      }
    }
  }

  lemma {:induction false} RecordsMove(ext: Externals, buf: Bytes, info: BatchInfo, base: int, n: nat)
    ensures DecodeRecords(ext, buf, info.(minOffset := base), n)
            == match DecodeRecords(ext, buf, info, n) case None => None
               case Some(rs) => Some(AllMoved(rs, info.minOffset, base))
    decreases n
  {
    hide ReadVarInt, DecodeBody, Moved;
    if n == 0 {
      assert AllMoved([], info.minOffset, base) == [];
    } else {
      RecordMoves(ext, buf, info, base);
      match DecodeRecord(ext, buf, info) {
        case None =>
        case Some(first) =>
          RecordsMove(ext, first.rest, info, base, n - 1);
          match DecodeRecords(ext, first.rest, info, n - 1) {
            case None =>
            case Some(rest) =>
              assert AllMoved([first.value] + rest, info.minOffset, base)
                  == [Moved(first.value, info.minOffset, base)] + AllMoved(rest, info.minOffset, base);
          }
      }
    }
  }

  lemma RecordMoves(ext: Externals, buf: Bytes, info: BatchInfo, base: int)
    ensures DecodeRecord(ext, buf, info.(minOffset := base))
            == match DecodeRecord(ext, buf, info) case None => None
               case Some(p) => Some(Parsed(Moved(p.value, info.minOffset, base), p.rest))
  {
    hide ReadVarInt, DecodeBody, Moved, ReadBytes;
    match ReadVarInt(buf) {
      case None =>
      case Some(size) =>
        if size.value >= 0 {
          match ReadBytes(size.rest, size.value) {
            case None =>
            case Some(body) => BodyMoves(ext, body.value, info, base);
          }
        }
    }
  }

  // A batch rewritten to another base offset decodes to the same records, moved.
  lemma RewrittenDecodes(ext: Externals, run: seq<Record>, base: int, rest: Bytes)
    requires IsRun(run) && AllWellTyped(ext, run) && EncodeBatch(ext, run).Some? && IsI64(base)
    requires |EncodeBatch(ext, run).value| >= 8
    ensures DecodeBatch(ext, Rewrite(EncodeBatch(ext, run).value, base) + rest)
            == Some(Parsed(RecordSet(0, AllMoved(AllAsCreated(run), MinOf(Offsets(run)), base)), rest))
  {
    hide EncodeRecords, EncodeBatch, DecodeRecords, HeaderAccepted, HeaderFields, SameBatch, Rewrite, MinOf,
         WellTyped, ValidateBatch, BaseSequence;
    var bs := EncodeBatch(ext, run).value;
    var moved := Rewrite(bs, base);
    EncodedIsValidated(ext, run);
    HeaderRoundTrip(ext, run, rest);
    DecodeHeaderOf(ext, bs, rest);
    SameTail(bs, moved);
    DecodeHeaderOf(ext, moved, rest);
    assert moved[FIXED_BATCH_SIZE..] == bs[FIXED_BATCH_SIZE..] by {
      assert moved[8..][FIXED_BATCH_SIZE - 8..] == bs[8..][FIXED_BATCH_SIZE - 8..];
    }
    var info := HeaderFields(bs);
    assert HeaderFields(moved) == info.(minOffset := base) by { MinOffsetField(moved, base); }
    MagicIsTwo(ext, run, []);
    assert (bs + [])[16] == bs[16] == moved[16] == (moved + rest)[16];
    RecordsAreOf(ext, run, info);
    RecordsMove(ext, bs[FIXED_BATCH_SIZE..], info, base, |run|);
  }

  lemma MinOffsetField(bs: Bytes, base: int)
    requires |bs| >= FIXED_BATCH_SIZE && I64Value(bs[..8]) == base
    ensures HeaderFields(bs).minOffset == base
  {
  }

  lemma RecordsAreOf(ext: Externals, run: seq<Record>, info: BatchInfo)
    requires IsRun(run) && AllWellTyped(ext, run)
    requires EncodeRecords(run, MinOf(Offsets(run)), MinOf(Timestamps(run))).Some?
    requires Describes(info, run[0], MinOf(Offsets(run)), MinOf(Timestamps(run)))
    ensures DecodeRecords(ext, EncodeRecords(run, MinOf(Offsets(run)), MinOf(Timestamps(run))).value, info, |run|)
            == Some(AllAsCreated(run))
  {
    hide EncodeRecords, DecodeRecords, SameBatch, MinOf, WellTyped, Describes;
    RecordsRoundTrip(ext, run[0], run, MinOf(Offsets(run)), MinOf(Timestamps(run)), info);
  }

  // ----- A whole record set

  // The record sets a consumer reads when the runs are stored from offset `base` on.
  function MovedSets(runs: seq<seq<Record>>, base: int): seq<RecordSet>
    requires forall i | 0 <= i < |runs| :: runs[i] != []
  {
    if runs == [] then []
    else
      [RecordSet(0, AllMoved(AllAsCreated(runs[0]), MinOf(Offsets(runs[0])), base))]
      + MovedSets(runs[1..], base + |runs[0]|)
  }

  // The stored form of an encoded list decodes to its runs, moved to the offsets they were stored at.
  lemma {:induction false} StoredDecodes(ext: Externals, records: seq<Record>, v: seq<ValidatedBatch>, base: int,
                                         stored: seq<StoredBatch>)
    requires Countable(v) && IsI64(base) && IsI64(base + TotalCount(v)) && stored == Stamp(v, base)
    requires AllWellTyped(ext, records) && Encode(ext, records).Some?
    requires SplitBatches(ext, Encode(ext, records).value) == Ok(v)
    ensures DecodeAll(ext, JoinBytes(stored)) == Some(MovedSets(Runs(records), base))
    decreases |records|
  {
    hide EncodeBatch, DecodeBatch, SameBatch, WellTyped, IsRun, ValidateBatch, SplitBatches, Rewrite, MinOf, AllMoved,
         AllAsCreated, RunLength, StoredFrom, Checked, FrontLength, Stamp, DecodeAll, TotalCount;
    if records == [] {
      SplitNothing(ext);
      StampNothing(base);
      DecodeNothing(ext);
    } else {
      var n := RunLength(records);
      var run, rest := records[..n], records[n..];
      var bs, tail := EncodeBatch(ext, run).value, Encode(ext, rest).value;
      FrontOfEncoded(ext, run, tail, v);
      StampStep(v, base);
      var later := stored[1..];
      StoredDecodes(ext, rest, v[1..], base + |run|, later);
      FirstRun(records);
      RewrittenDecodes(ext, run, base, JoinBytes(later));
      DecodeAllStep(ext, Rewrite(bs, base), JoinBytes(later));
      assert Runs(records) == [run] + Runs(rest);
      assert Runs(records)[1..] == Runs(rest);
    }
  }

  lemma DecodeNothing(ext: Externals)
    ensures DecodeAll(ext, JoinBytes([])) == Some([])
  {
  }

  lemma DecodeAllStep(ext: Externals, first: Bytes, rest: Bytes)
    requires first != [] && DecodeBatch(ext, first + rest).Some? && DecodeBatch(ext, first + rest).value.rest == rest
    ensures DecodeAll(ext, first + rest)
            == match DecodeAll(ext, rest) case None => None
               case Some(more) => Some([DecodeBatch(ext, first + rest).value.value] + more)
  {
    hide DecodeBatch;
  }

  lemma FrontOfEncoded(ext: Externals, run: seq<Record>, tail: Bytes, v: seq<ValidatedBatch>)
    requires run != [] && AllWellTyped(ext, run) && EncodeBatch(ext, run).Some?
    requires SplitBatches(ext, EncodeBatch(ext, run).value + tail) == Ok(v)
    ensures v != [] && v[0].bytes == EncodeBatch(ext, run).value && v[0].recordCount == |run|
    ensures |v[0].bytes| >= FIXED_BATCH_SIZE && SplitBatches(ext, tail) == Ok(v[1..])
  {
    hide EncodeBatch, WellTyped, ValidateBatch, SplitBatches, MinOf, BaseSequence;
    EncodedIsValidated(ext, run);
    SplitStep(ext, EncodeBatch(ext, run).value, tail);
  }

  // ----- The offsets a consumer reads

  // Every number of the range occurs: with as many entries as the range has numbers, once each.
  ghost predicate Fills(s: seq<int>, low: int, high: int) {
    forall x | low <= x < high :: x in s
  }

  function Between(low: int, n: nat): (r: set<int>)
    ensures |r| == n && forall x :: x in r <==> low <= x < low + n
  {
    if n == 0 then {} else Between(low, n - 1) + {low + n - 1}
  }

  lemma DistinctIffFills(s: seq<int>, low: int)
    requires forall i | 0 <= i < |s| :: low <= s[i] < low + |s|
    ensures Distinct(s) <==> Fills(s, low, low + |s|)
  {
    var range := Between(low, |s|);
    DistinctIffAsMany(s);
    assert Elements(s) <= range;
    if Distinct(s) {
      SameSizeSubset(Elements(s), range);
      forall x | low <= x < low + |s| ensures x in s {
        assert x in Elements(s);
      }
    }
    if Fills(s, low, low + |s|) {
      assert range <= Elements(s) && Elements(s) == range;
    }
  }

  function OffsetsIn(sets: seq<RecordSet>): seq<int> {
    if sets == [] then [] else Offsets(sets[0].records) + OffsetsIn(sets[1..])
  }

  lemma {:induction false} EncodedDeltasFit(run: seq<Record>, minOffset: int, minTimestamp: int)
    requires EncodeRecords(run, minOffset, minTimestamp).Some?
    ensures forall i | 0 <= i < |run| :: IsI32(OffsetDelta(run[i], minOffset))
  {
    hide RecordBody;
    if run != [] {
      EncodedDeltasFit(run[1..], minOffset, minTimestamp);
    }
  }

  lemma UnwrappedSpan(span: int, n: nat)
    requires 0 <= span < TWO_64 && n > 0 && IsI32(WrapI64(span)) && WrapI32(WrapI64(span)) == n - 1
    ensures span == n - 1
  {
  }

  // The offsets of an admitted run span exactly as many numbers as it has records.
  lemma AdmittedSpan(ext: Externals, run: seq<Record>)
    requires run != [] && AllWellTyped(ext, run) && EncodeBatch(ext, run).Some? && LastDelta(run) == |run| - 1
    ensures MaxOf(Offsets(run)) - MinOf(Offsets(run)) == |run| - 1 && |run| <= MAX_I32
  {
    hide EncodeRecords, MinOf, MaxOf, WrapI32, WrapI64, BatchContentHeader, BatchFrame;
    var offsets := Offsets(run);
    EncodedDeltasFit(run, MinOf(offsets), MinOf(Timestamps(run)));
    var k :| 0 <= k < |offsets| && offsets[k] == MaxOf(offsets);
    var j :| 0 <= j < |offsets| && offsets[j] == MinOf(offsets);
    assert WellTyped(ext, run[k]) && WellTyped(ext, run[j]);
    assert IsI32(OffsetDelta(run[k], MinOf(offsets)));
    UnwrappedSpan(MaxOf(offsets) - MinOf(offsets), |run|);
  }

  lemma MovedOffset(offset: int, low: int, base: int, n: nat)
    requires low <= offset < low + n && IsI64(base) && IsI64(base + n) && IsI64(n)
    ensures WrapI64(base + WrapI64(offset - low)) == base + offset - low
  {
  }

  lemma MovedOffsets(run: seq<Record>, low: int, base: int)
    requires |run| <= MAX_I32 && IsI64(base) && IsI64(base + |run|)
    requires forall i | 0 <= i < |run| :: low <= run[i].offset < low + |run|
    ensures var moved := Offsets(AllMoved(AllAsCreated(run), low, base));
            |moved| == |run| && forall i | 0 <= i < |run| :: moved[i] == run[i].offset + (base - low)
  {
    hide WrapI64;
    forall i | 0 <= i < |run|
      ensures Offsets(AllMoved(AllAsCreated(run), low, base))[i] == run[i].offset + (base - low)
    {
      MovedOffset(run[i].offset, low, base, |run|);
    }
  }

  lemma SpannedByRun(ext: Externals, run: seq<Record>)
    requires run != [] && AllWellTyped(ext, run) && EncodeBatch(ext, run).Some? && LastDelta(run) == |run| - 1
    ensures |run| <= MAX_I32
    ensures forall i | 0 <= i < |run| :: MinOf(Offsets(run)) <= run[i].offset < MinOf(Offsets(run)) + |run|
  {
    hide EncodeBatch, MinOf, MaxOf, WellTyped, LastDelta;
    AdmittedSpan(ext, run);
    forall i | 0 <= i < |run|
      ensures MinOf(Offsets(run)) <= run[i].offset < MinOf(Offsets(run)) + |run|
    {
      assert Offsets(run)[i] in Offsets(run);
    }
  }

  // They are read as the assigned range, in the order they had, and as all of it if they were distinct.
  lemma RunOffsets(ext: Externals, run: seq<Record>, base: int)
    requires run != [] && AllWellTyped(ext, run) && EncodeBatch(ext, run).Some? && LastDelta(run) == |run| - 1
    requires IsI64(base) && IsI64(base + |run|)
    ensures var moved := Offsets(AllMoved(AllAsCreated(run), MinOf(Offsets(run)), base));
            && |moved| == |run|
            && (forall i | 0 <= i < |run| :: moved[i] == run[i].offset + (base - MinOf(Offsets(run))))
            && (forall i | 0 <= i < |run| :: base <= moved[i] < base + |run|)
            && (Fills(moved, base, base + |run|) <==> Distinct(Offsets(run)))
  {
    hide EncodeBatch, MinOf, Fills, WellTyped, LastDelta, AllMoved, AllAsCreated, Distinct;
    var low := MinOf(Offsets(run));
    SpannedByRun(ext, run);
    MovedOffsets(run, low, base);
    var moved := Offsets(AllMoved(AllAsCreated(run), low, base));
    ShiftedIsDistinct(Offsets(run), moved, base - low);
    DistinctIffFills(moved, base);
  }

  lemma ShiftedIsDistinct(a: seq<int>, b: seq<int>, shift: int)
    requires |a| == |b| && forall i | 0 <= i < |a| :: b[i] == a[i] + shift
    ensures Distinct(a) <==> Distinct(b)
  {
  }

  lemma JoinedRanges(a: seq<int>, b: seq<int>, low: int, middle: int, high: int)
    requires low <= middle <= high
    requires (forall i | 0 <= i < |a| :: low <= a[i] < middle) && forall i | 0 <= i < |b| :: middle <= b[i] < high
    ensures forall i | 0 <= i < |a + b| :: low <= (a + b)[i] < high
    ensures Fills(a + b, low, high) <==> Fills(a, low, middle) && Fills(b, middle, high)
  {
    assert forall x :: x in a + b <==> x in a || x in b;
  }

  ghost predicate RunsDistinct(runs: seq<seq<Record>>) {
    forall i | 0 <= i < |runs| :: Distinct(Offsets(runs[i]))
  }

  // Over a whole list: every offset lies in the assigned range, and each of the range is read exactly
  // once if and only if no run repeats an offset.
  lemma {:induction false} SetOffsets(ext: Externals, records: seq<Record>, v: seq<ValidatedBatch>, base: int)
    requires Countable(v) && IsI64(base) && IsI64(base + TotalCount(v))
    requires AllWellTyped(ext, records) && Encode(ext, records).Some?
    requires SplitBatches(ext, Encode(ext, records).value) == Ok(v)
    ensures var read := OffsetsIn(MovedSets(Runs(records), base));
            && |read| == TotalCount(v) == |records|
            && (forall i | 0 <= i < |read| :: base <= read[i] < base + TotalCount(v))
            && (Fills(read, base, base + TotalCount(v)) <==> RunsDistinct(Runs(records)))
    decreases |records|
  {
    hide EncodeBatch, WellTyped, ValidateBatch, SplitBatches, MinOf, AllMoved, AllAsCreated, RunLength, Offsets,
         Fills, Distinct, SameBatch, TotalCount, Stamp, LastDelta, RunsDistinct, OffsetsIn, MovedSets;
    if records == [] {
      SplitNothing(ext);
      StampNothing(base);
      NothingFills(base);
    } else {
      var n := RunLength(records);
      var run, rest := records[..n], records[n..];
      FrontOfEncoded(ext, run, Encode(ext, rest).value, v);
      FrontSpans(ext, run, Encode(ext, rest).value, v);
      StampStep(v, base);
      SetOffsets(ext, rest, v[1..], base + n);
      RunOffsets(ext, run, base);
      var first := Offsets(AllMoved(AllAsCreated(run), MinOf(Offsets(run)), base));
      var later := OffsetsIn(MovedSets(Runs(rest), base + n));
      TotalIsPositive(v[1..]);
      JoinedRanges(first, later, base, base + n, base + TotalCount(v));
      assert Runs(records) == [run] + Runs(rest);
      OffsetsStep(run, Runs(rest), base);
      DistinctStep(run, Runs(rest));
    }
  }

  lemma OffsetsStep(run: seq<Record>, runs: seq<seq<Record>>, base: int)
    requires run != [] && forall i | 0 <= i < |runs| :: runs[i] != []
    ensures OffsetsIn(MovedSets([run] + runs, base))
            == Offsets(AllMoved(AllAsCreated(run), MinOf(Offsets(run)), base))
               + OffsetsIn(MovedSets(runs, base + |run|))
  {
    hide AllMoved, AllAsCreated, MinOf, OffsetsIn, MovedSets;
    MovedStep(run, runs, base);
    OffsetsInStep(RecordSet(0, AllMoved(AllAsCreated(run), MinOf(Offsets(run)), base)), MovedSets(runs, base + |run|));
  }

  lemma MovedStep(run: seq<Record>, runs: seq<seq<Record>>, base: int)
    requires run != [] && forall i | 0 <= i < |runs| :: runs[i] != []
    ensures forall i | 0 <= i < |[run] + runs| :: ([run] + runs)[i] != []
    ensures MovedSets([run] + runs, base)
            == [RecordSet(0, AllMoved(AllAsCreated(run), MinOf(Offsets(run)), base))] + MovedSets(runs, base + |run|)
  {
    hide AllMoved, AllAsCreated, MinOf;
    assert ([run] + runs)[1..] == runs;
  }

  lemma OffsetsInStep(first: RecordSet, rest: seq<RecordSet>)
    ensures OffsetsIn([first] + rest) == Offsets(first.records) + OffsetsIn(rest)
  {
    hide Offsets;
  }

  lemma NothingFills(base: int)
    ensures Fills([], base, base) && RunsDistinct([]) && OffsetsIn(MovedSets([], base)) == []
  {
  }

  lemma DistinctStep(run: seq<Record>, runs: seq<seq<Record>>)
    ensures RunsDistinct([run] + runs) <==> Distinct(Offsets(run)) && RunsDistinct(runs)
  {
    hide Distinct, Offsets;
    var all := [run] + runs;
    assert forall i | 0 <= i < |runs| :: all[i + 1] == runs[i];
    if RunsDistinct(all) {
      assert Distinct(Offsets(all[0]));
    }
  }

  // A batch of the encoder that was admitted spans its record count.
  lemma FrontSpans(ext: Externals, run: seq<Record>, tail: Bytes, v: seq<ValidatedBatch>)
    requires run != [] && AllWellTyped(ext, run) && EncodeBatch(ext, run).Some?
    requires SplitBatches(ext, EncodeBatch(ext, run).value + tail) == Ok(v)
    ensures LastDelta(run) == |run| - 1
  {
    hide EncodeBatch, WellTyped, ValidateBatch, SplitBatches, MinOf, BaseSequence, LastDelta;
    EncodedIsValidated(ext, run);
    SplitStep(ext, EncodeBatch(ext, run).value, tail);
  }

  // What a producer encodes and appends, a consumer fetches and decodes: the same records run by run,
  // whatever limits the consumer fetches with, at offsets of the range that the append replied, each of
  // them once if and only if no run repeats an offset.
  lemma ProducedIsFetched(ext: Externals, log: LogView, records: seq<Record>, limits: nat -> nat)
    requires LogSound(ext, log) && AllWellTyped(ext, records) && Encode(ext, records).Some?
    requires Fresh(Append(ext, log, Encode(ext, records).value).result)
    ensures var a := Append(ext, log, Encode(ext, records).value);
            var base, sets := log.nextOffset, MovedSets(Runs(records), log.nextOffset);
            && LogSound(ext, a.log) && base <= a.log.nextOffset
            && DecodeAll(ext, JoinBytes(Drain(ext, a.log, base, limits, 0))) == Some(sets)
            && a.result.value.baseOffset == base && a.result.value.lastOffset == base + |records| - 1
            && |OffsetsIn(sets)| == |records|
            && (forall i | 0 <= i < |records| :: base <= OffsetsIn(sets)[i] < base + |records|)
            && (Fills(OffsetsIn(sets), base, base + |records|) <==> RunsDistinct(Runs(records)))
  {
    hide Append, Encode, ValidateBatch, SplitBatches, Stamp, JoinBytes, DecodeAll, MovedSets, Runs, Drain, SkipTo,
         TotalCount, WellTyped, OffsetsIn, Fills, RunsDistinct, Sequenced, WindowSound, EpochsSound, StoredSound,
         AllStored, Tiled, Store, Admissible;
    var bs := Encode(ext, records).value;
    var after := Append(ext, log, bs).log;
    AppendKeepsSound(ext, log, bs);
    AppendStoresOrLeaves(ext, log, bs);
    AppendGrows(ext, log, bs);
    DrainIsComplete(ext, after, log.nextOffset, limits, 0);
    ValidatedIsChecked(ext, bs);
    var v := ValidateRecordSet(ext, bs).value;
    var more := Stamp(v, log.nextOffset);
    StoredDecodes(ext, records, v, log.nextOffset, more);
    SetOffsets(ext, records, v, log.nextOffset);
    TiledSuffix(log.batches, more, 0, log.nextOffset, after.nextOffset);
    SkipGrows(log.batches, more, log.nextOffset, 0, log.nextOffset, after.nextOffset);
    SkipFinds(log.batches, log.nextOffset, 0, log.nextOffset);
    assert SkipTo(log.batches, log.nextOffset) + more == more;
  }

  // ----- Fetched bytes that do not pass validation again

  function SampleRun(pid: int): seq<Record> {
    [Record(false, false, false, 0, pid, 0, Creation, 0, 0, 0, None, None, [])]
  }

  lemma SampleEncodes(ext: Externals, pid: int)
    requires 0 <= pid < 100
    ensures AllWellTyped(ext, SampleRun(pid)) && EncodeBatch(ext, SampleRun(pid)).Some?
    ensures var bs := EncodeBatch(ext, SampleRun(pid)).value;
            Framed(bs) && ValidateBatch(ext, bs).Ok?
            && ValidateBatch(ext, bs).value.producerId == pid && ValidateBatch(ext, bs).value.baseSequence == 0
            && ValidateBatch(ext, bs).value.recordCount == 1
  {
    hide ValidateBatch, BatchFrame, BatchContentHeader;
    var run := SampleRun(pid);
    assert Offsets(run) == [0] && Timestamps(run) == [0];
    var body := RecordBody(run[0], 0, 0);
    assert |body| == 6;
    assert EncodeRecords(run[1..], 0, 0) == Some([]);
    EncodedIsValidated(ext, run);
  }

  function SampleSet(ext: Externals, pid: int): Bytes
    requires 0 <= pid < 100
  {
    SampleEncodes(ext, pid);
    EncodeBatch(ext, SampleRun(pid)).value
  }

  lemma SampleIsStored(ext: Externals, log: LogView, pid: int)
    requires LogSound(ext, log) && 0 <= pid < 100 && pid !in log.producers && log.nextOffset < 100
    ensures var a := Append(ext, log, SampleSet(ext, pid));
            && Fresh(a.result) && a.log.nextOffset == log.nextOffset + 1
            && a.log.producers.Keys == log.producers.Keys + {pid}
            && |a.log.batches| == |log.batches| + 1 && log.batches <= a.log.batches
            && Meta(ext, a.log.batches[|log.batches|]).producerId == pid
  {
    hide ValidateBatch, EncodeBatch, SplitBatches, SampleRun, Sequenced, WindowSound, EpochsSound, AllStored, Tiled,
         Fingerprints, EncodedBatches, Remember, Meta;
    var bs := SampleSet(ext, pid);
    SampleEncodes(ext, pid);
    SplitStep(ext, bs, []);
    SplitNothing(ext);
    assert bs + [] == bs;
    var v := [ValidateBatch(ext, bs).value];
    assert v + [] == v;
    assert ValidateRecordSet(ext, bs) == Ok(v);
    assert TotalCount(v) == 1 by { assert v[1..] == []; }
    ValidatedIsChecked(ext, bs);
    StoredMetas(ext, v, log.nextOffset);
    assert ValidateSequences(v, 0).None? by { assert v[1..] == []; }
  }

  // Two producers' sets, fetched together, are refused when offered back as one set.
  lemma MixedProducersAreRefused(ext: Externals)
    ensures var log := LogAfter(ext, [SampleSet(ext, 1), SampleSet(ext, 2)]);
            var all := BytesOf(log.batches);
            && log.nextOffset == 2 && Fetch(log, 0, all) == Some(FetchSnapshot(JoinBytes(log.batches), 2))
            && ValidateRecordSet(ext, JoinBytes(log.batches)) == Err(Malformed)
  {
    hide SampleSet, Append, Meta, Sequenced, WindowSound, EpochsSound, Tiled, BytesOf, JoinBytes, ValidateRecordSet,
         SkipTo, TakeWithin, StoredSound;
    var sets := [SampleSet(ext, 1), SampleSet(ext, 2)];
    var none: seq<Bytes> := [];
    assert sets[..1] == [SampleSet(ext, 1)] && sets[..1][..0] == none;
    assert LogAfter(ext, none) == EmptyLog();
    EmptyLogIsSound(ext);
    SampleIsStored(ext, EmptyLog(), 1);
    SampleIsStored(ext, LogAfter(ext, sets[..1]), 2);
    var log := LogAfter(ext, sets);
    assert |log.batches| == 2;
    var from, to := FetchIsSlice(ext, log, 0, BytesOf(log.batches));
    TiledStart(log.batches, 0, 2);
    OnlyOneContains(log.batches, 0, from, 0, 0, 2);
    BytesOfPair(log.batches);
    BytesOfOne(log.batches[0]);
    assert log.batches[0..1] == [log.batches[0]];
    assert log.batches[0..2] == log.batches;
    FetchedRevalidates(ext, log.batches);
    assert Metas(ext, log.batches)[0].producerId == 1 && Metas(ext, log.batches)[1].producerId == 2;
  }

  lemma TiledStart(batches: seq<StoredBatch>, start: int, end: int)
    requires Tiled(batches, start, end) && batches != []
    ensures batches[0].baseOffset == start <= batches[0].lastOffset
  {
  }

  lemma BytesOfOne(b: StoredBatch)
    ensures BytesOf([b]) == |b.bytes|
  {
  }

  lemma BytesOfPair(batches: seq<StoredBatch>)
    requires |batches| == 2
    ensures BytesOf(batches) == |batches[0].bytes| + |batches[1].bytes|
  {
    assert batches[1..] == [batches[1]];
    BytesOfOne(batches[1]);
  }
}
