/** Decoding what was encoded gives the records back, split into the maximal runs that share a batch. */
module RecordRoundTrip {
  import opened Text
  import opened Octets
  import opened Varints
  import opened RecordFormat

  // ----- Fields

  lemma ReadBytesOf(bs: Bytes, rest: Bytes)
    ensures ReadBytes(bs + rest, |bs|) == Some(Parsed(bs, rest))
  {
  }

  lemma OptionalRoundTrip(value: Option<Bytes>, rest: Bytes)
    requires Fits(value)
    ensures ReadOptional(OptionalBytes(value) + rest) == Some(Parsed(value, rest))
  {
    hide ReadVarInt, VarIntBytes;
    match value
    case None => VarIntRoundTrip(-1, rest);
    case Some(bs) =>
      VarIntRoundTrip(|bs|, bs + rest);
      assert OptionalBytes(value) + rest == VarIntBytes(|bs|) + (bs + rest);
      ReadBytesOf(bs, rest);
  }

  lemma {:induction false} NewHeaderIsAppended(headers: seq<RecordHeader>, h: RecordHeader)
    requires forall i | 0 <= i < |headers| :: headers[i].key != h.key
    ensures PutHeader(headers, h) == headers + [h]
  {
    if headers != [] {
      NewHeaderIsAppended(headers[1..], h);
    }
  }

  predicate DistinctKeys(headers: seq<RecordHeader>) {
    forall i, j | 0 <= i < j < |headers| :: headers[i].key != headers[j].key
  }

  predicate HeadersOk(ext: Externals, headers: seq<RecordHeader>) {
    forall i | 0 <= i < |headers| :: ext.utf8(headers[i].key) && |headers[i].key| <= MAX_I32 && Fits(headers[i].value)
  }

  lemma {:induction false} HeadersRoundTrip(ext: Externals, headers: seq<RecordHeader>, acc: seq<RecordHeader>,
                                            rest: Bytes)
    requires HeadersOk(ext, headers) && DistinctKeys(acc + headers)
    ensures ReadHeaders(ext, HeaderBytes(headers) + rest, |headers|, acc) == Some(acc + headers)
    decreases |headers|
  {
    hide ReadVarInt, VarIntBytes, ReadOptional, OptionalBytes, ReadBytes, PutHeader;
    if headers == [] {
      assert acc + headers == acc;
    } else {
      var h, tail := headers[0], headers[1..];
      var afterKey := OptionalBytes(h.value) + (HeaderBytes(tail) + rest);
      assert HeaderBytes(headers) + rest == VarIntBytes(|h.key|) + (h.key + afterKey);
      VarIntRoundTrip(|h.key|, h.key + afterKey);
      ReadBytesOf(h.key, afterKey);
      OptionalRoundTrip(h.value, HeaderBytes(tail) + rest);
      assert forall i | 0 <= i < |acc| :: (acc + headers)[i] == acc[i];
      assert (acc + headers)[|acc|] == h;
      NewHeaderIsAppended(acc, h);
      assert acc + headers == (acc + [h]) + tail;
      assert RecordHeader(h.key, h.value) == h;
      HeadersRoundTrip(ext, tail, acc + [h], rest);
    }
  }

  // ----- One record

  lemma BodyRoundTrip(ext: Externals, r: Record, minOffset: int, minTimestamp: int, info: BatchInfo)
    requires BodyFits(r, minOffset) && HeadersOk(ext, r.headers) && DistinctKeys(r.headers)
    ensures DecodeBody(ext, RecordBody(r, minOffset, minTimestamp), info)
            == Some(BuildRecord(info, TimestampDelta(r, minTimestamp), OffsetDelta(r, minOffset), r.key, r.value,
                                r.headers))
  {
    hide ReadVarInt, VarIntBytes, ReadVarLong, VarLongBytes, ReadOptional, OptionalBytes, ReadHeaders, HeaderBytes,
         TimestampDelta, OffsetDelta, BuildRecord;
    var body := RecordBody(r, minOffset, minTimestamp);
    var t, o := TimestampDelta(r, minTimestamp), OffsetDelta(r, minOffset);
    var headers := HeaderBytes(r.headers);
    var count := VarIntBytes(|r.headers|) + headers;
    var value := OptionalBytes(r.value) + count;
    var key := OptionalBytes(r.key) + value;
    var offset := VarIntBytes(o) + key;
    assert body == [0] + (VarLongBytes(t) + offset);
    assert body[1..] == VarLongBytes(t) + offset;
    VarLongRoundTrip(t, offset);
    VarIntRoundTrip(o, key);
    OptionalRoundTrip(r.key, value);
    OptionalRoundTrip(r.value, count);
    VarIntRoundTrip(|r.headers|, headers);
    assert headers + [] == headers && [] + r.headers == r.headers;
    HeadersRoundTrip(ext, r.headers, [], []);
  }

  // The batch header that the records of one run are decoded against.
  predicate Describes(info: BatchInfo, first: Record, minOffset: int, minTimestamp: int) {
    && info.transactional == first.transactional
    && info.control == first.control
    && info.deleteHorizon == first.deleteHorizon
    && info.leaderEpoch == first.leaderEpoch
    && info.producerId == first.producerId
    && info.producerEpoch == first.producerEpoch
    && info.timestampType == Creation
    && info.minOffset == minOffset
    && info.minTimestamp == minTimestamp
    && info.baseSequence == BaseSequence(first, minOffset)
  }

  function AsCreated(r: Record): Record {
    r.(timestampType := Creation)
  }

  lemma WrapUndone64(x: int, base: int)
    requires IsI64(x)
    ensures WrapI64(base + WrapI64(x - base)) == x
  {
    WrapIsUnique64(base + WrapI64(x - base), x);
  }

  // ----- Sequences, modulo 2^32

  predicate Congruent(x: int, y: int) {
    (x - y) % TWO_32 == 0
  }

  lemma CongruentSums(x: int, y: int, u: int, v: int)
    requires Congruent(x, y) && Congruent(u, v)
    ensures Congruent(x + u, y + v) && Congruent(x - u, y - v) && Congruent(y, x)
  {
    assert (x + u) - (y + v) == (x - y) + (u - v);
    assert (x - u) - (y - v) == (x - y) - (u - v);
  }

  lemma CongruentChain(x: int, y: int, z: int)
    requires Congruent(x, y) && Congruent(y, z)
    ensures Congruent(x, z)
  {
    assert x - z == (x - y) + (y - z);
  }

  lemma WrapsAreCongruent(x: int)
    ensures Congruent(WrapI32(x), x) && Congruent(WrapI64(x), x) && Congruent(x, x)
  {
    hide WrapI32, WrapI64;
    Coarser(WrapI64(x) - x);
  }

  lemma Coarser(x: int)
    requires x % TWO_64 == 0
    ensures x % TWO_32 == 0
  {
    assert x == TWO_64 * (x / TWO_64);
    assert x == TWO_32 * (TWO_32 * (x / TWO_64));
  }

  lemma CongruentWraps(x: int, y: int)
    requires Congruent(x, y)
    ensures WrapI32(x) == WrapI32(y)
  {
    WrapIsUnique32(x, y);
  }

  lemma BaseIsCongruent(first: Record, minOffset: int)
    ensures Congruent(BaseSequence(first, minOffset), first.sequence - (first.offset - minOffset))
  {
    hide Congruent, WrapI32, WrapI64;
    var a := first.offset - minOffset;
    var w := WrapI32(WrapI64(a));
    WrapsAreCongruent(first.sequence - w);
    WrapsAreCongruent(WrapI64(a));
    WrapsAreCongruent(a);
    WrapsAreCongruent(first.sequence);
    CongruentChain(w, WrapI64(a), a);
    CongruentSums(first.sequence, first.sequence, w, a);
    CongruentChain(BaseSequence(first, minOffset), first.sequence - w, first.sequence - a);
  }

  lemma RunIsCongruent(first: Record, r: Record)
    requires SameBatch(first, r)
    ensures Congruent(first.offset - first.sequence, r.offset - r.sequence)
  {
    hide Congruent, WrapI32;
    OffsetMinusSequence(first);
    OffsetMinusSequence(r);
    CongruentChain(first.offset - first.sequence, WrapI32(WrapI32(first.offset) - first.sequence),
                   r.offset - r.sequence);
  }

  lemma OffsetMinusSequence(r: Record)
    ensures Congruent(r.offset - r.sequence, WrapI32(WrapI32(r.offset) - r.sequence))
    ensures Congruent(WrapI32(WrapI32(r.offset) - r.sequence), r.offset - r.sequence)
  {
    hide Congruent, WrapI32;
    var x := WrapI32(r.offset) - r.sequence;
    WrapsAreCongruent(x);
    WrapsAreCongruent(r.offset);
    WrapsAreCongruent(r.sequence);
    CongruentSums(WrapI32(r.offset), r.offset, r.sequence, r.sequence);
    CongruentChain(WrapI32(x), x, r.offset - r.sequence);
    CongruentSums(WrapI32(x), r.offset - r.sequence, r.sequence, r.sequence);
  }

  // The sequence comes back because offset minus sequence is constant in a run.
  lemma SequenceUndone(first: Record, r: Record, minOffset: int)
    requires SameBatch(first, r) && IsI32(r.sequence)
    ensures WrapI32(BaseSequence(first, minOffset) + OffsetDelta(r, minOffset)) == r.sequence
  {
    hide Congruent, WrapI32, WrapI64, BaseSequence, SameBatch;
    var base, delta := BaseSequence(first, minOffset), OffsetDelta(r, minOffset);
    BaseIsCongruent(first, minOffset);
    WrapsAreCongruent(r.offset - minOffset);
    CongruentSums(base, first.sequence - (first.offset - minOffset), delta, r.offset - minOffset);
    RunIsCongruent(first, r);
    WrapsAreCongruent(r.offset);
    CongruentSums(r.offset, r.offset, first.offset - first.sequence, r.offset - r.sequence);
    assert first.sequence - (first.offset - minOffset) + (r.offset - minOffset)
           == r.offset - (first.offset - first.sequence);
    CongruentChain(base + delta, r.offset - (first.offset - first.sequence), r.offset - (r.offset - r.sequence));
    CongruentWraps(base + delta, r.sequence);
  }

  // A record decoded against its own run's header is the record.
  lemma BuiltIsOriginal(first: Record, r: Record, minOffset: int, minTimestamp: int, info: BatchInfo)
    requires Describes(info, first, minOffset, minTimestamp) && SameBatch(first, r)
    requires IsI64(r.offset) && IsI64(r.timestamp) && IsI32(r.sequence)
    ensures BuildRecord(info, TimestampDelta(r, minTimestamp), OffsetDelta(r, minOffset), r.key, r.value, r.headers)
            == AsCreated(r)
  {
    hide WrapI32, WrapI64;
    WrapUndone64(r.offset, minOffset);
    WrapUndone64(r.timestamp, minTimestamp);
    SequenceUndone(first, r, minOffset);
  }

  lemma RecordRoundTrip(ext: Externals, first: Record, r: Record, minOffset: int, minTimestamp: int,
                        info: BatchInfo, rest: Bytes)
    requires WellTyped(ext, r) && SameBatch(first, r) && Describes(info, first, minOffset, minTimestamp)
    requires EncodeRecord(r, minOffset, minTimestamp).Some?
    ensures DecodeRecord(ext, EncodeRecord(r, minOffset, minTimestamp).value + rest, info)
            == Some(Parsed(AsCreated(r), rest))
  {
    hide ReadVarInt, VarIntBytes, RecordBody, DecodeBody, SameBatch, Describes, ReadBytes;
    var body := RecordBody(r, minOffset, minTimestamp);
    assert EncodeRecord(r, minOffset, minTimestamp).value + rest == VarIntBytes(|body|) + (body + rest);
    VarIntRoundTrip(|body|, body + rest);
    ReadBytesOf(body, rest);
    BodyRoundTrip(ext, r, minOffset, minTimestamp, info);
    BuiltIsOriginal(first, r, minOffset, minTimestamp, info);
  }

  function AllAsCreated(records: seq<Record>): (created: seq<Record>)
    ensures |created| == |records|
  {
    seq(|records|, i requires 0 <= i < |records| => AsCreated(records[i]))
  }

  lemma {:induction false} RecordsRoundTrip(ext: Externals, first: Record, run: seq<Record>, minOffset: int,
                                            minTimestamp: int, info: BatchInfo)
    requires AllWellTyped(ext, run) && Describes(info, first, minOffset, minTimestamp)
    requires forall i | 0 <= i < |run| :: SameBatch(first, run[i])
    requires EncodeRecords(run, minOffset, minTimestamp).Some?
    ensures DecodeRecords(ext, EncodeRecords(run, minOffset, minTimestamp).value, info, |run|)
            == Some(AllAsCreated(run))
    decreases |run|
  {
    hide EncodeRecord, DecodeRecord, SameBatch, Describes, WellTyped;
    if run != [] {
      var tail := run[1..];
      RecordRoundTrip(ext, first, run[0], minOffset, minTimestamp, info,
                      EncodeRecords(tail, minOffset, minTimestamp).value);
      RecordsRoundTrip(ext, first, tail, minOffset, minTimestamp, info);
      assert AllAsCreated(run) == [AsCreated(run[0])] + AllAsCreated(tail);
    }
  }

  // ----- One batch

  lemma FrameFields(ext: Externals, first: Record, minOffset: int, content: Bytes)
    requires IsI64(minOffset) && IsI32(first.leaderEpoch) && 9 + |content| <= MAX_I32
    ensures var bs := BatchFrame(ext, first, minOffset, content);
            && bs[..8] == I64Bytes(minOffset)
            && bs[8..12] == I32Bytes(9 + |content|)
            && bs[12..16] == I32Bytes(first.leaderEpoch)
            && bs[16] == 2
            && bs[17..21] == U32Bytes(ext.crc(content))
            && bs[21..] == content
  {
    hide I64Bytes, I32Bytes, U32Bytes;
  }

  lemma ContentFields(run: seq<Record>, records: Bytes)
    requires run != [] && |run| <= MAX_I32
    requires forall i | 0 <= i < |run| :: IsI64(run[i].offset) && IsI64(run[i].timestamp)
    requires IsI64(run[0].producerId) && IsI16(run[0].producerEpoch)
    ensures var content := BatchContentHeader(run) + records;
            && content[1] == Attributes(run[0])
            && content[6..14] == I64Bytes(MinOf(Timestamps(run)))
            && content[22..30] == I64Bytes(run[0].producerId)
            && content[30..32] == I16Bytes(run[0].producerEpoch)
            && content[32..36] == I32Bytes(BaseSequence(run[0], MinOf(Offsets(run))))
            && content[36..40] == I32Bytes(|run|)
            && content[40..] == records
  {
    hide I64Bytes, I32Bytes, I16Bytes, BaseSequence;
  }

  lemma AttributeBits(r: Record)
    ensures !Bit(Attributes(r), 8) && Attributes(r) % 8 == 0
    ensures Bit(Attributes(r), 16) == r.transactional
    ensures Bit(Attributes(r), 32) == r.control
    ensures Bit(Attributes(r), 64) == r.deleteHorizon
  {
  }

  // The header of an encoded batch decodes to the description of its run.
  lemma HeaderRoundTrip(ext: Externals, run: seq<Record>, rest: Bytes)
    requires run != [] && AllWellTyped(ext, run) && EncodeBatch(ext, run).Some?
    ensures var d := DecodeHeader(ext, EncodeBatch(ext, run).value + rest);
            && d.Some? && d.value.rest == rest
            && d.value.info.recordCount == |run| && d.value.info.compression == 0
            && Describes(d.value.info, run[0], MinOf(Offsets(run)), MinOf(Timestamps(run)))
            && Some(d.value.records) == EncodeRecords(run, MinOf(Offsets(run)), MinOf(Timestamps(run)))
  {
    hide EncodeRecords, BatchFrame, BatchContentHeader, HeaderAccepted, HeaderFields, Describes;
    var minOffset := MinOf(Offsets(run));
    var records := EncodeRecords(run, minOffset, MinOf(Timestamps(run))).value;
    var content := BatchContentHeader(run) + records;
    var bs := BatchFrame(ext, run[0], minOffset, content);
    FrameFields(ext, run[0], minOffset, content);
    FrameDescribes(ext, run, records);
    assert bs[FIXED_BATCH_SIZE..] == records by {
      ContentFields(run, records);
      assert bs[FIXED_BATCH_SIZE..] == bs[21..][40..];
    }
    DecodeHeaderOf(ext, bs, rest);
  }

  lemma ThroughContent(bs: Bytes)
    requires |bs| >= FIXED_BATCH_SIZE
    ensures bs[22] == bs[21..][1]
    ensures bs[27..35] == bs[21..][6..14] && bs[43..51] == bs[21..][22..30] && bs[51..53] == bs[21..][30..32]
    ensures bs[53..57] == bs[21..][32..36] && bs[57..61] == bs[21..][36..40]
  {
  }

  lemma FrameDescribes(ext: Externals, run: seq<Record>, records: Bytes)
    requires run != [] && AllWellTyped(ext, run) && |run| <= MAX_I32
    requires 9 + |BatchContentHeader(run) + records| <= MAX_I32
    ensures var bs := BatchFrame(ext, run[0], MinOf(Offsets(run)), BatchContentHeader(run) + records);
            && HeaderAccepted(ext, bs)
            && HeaderFields(bs).recordCount == |run| && HeaderFields(bs).compression == 0
            && Describes(HeaderFields(bs), run[0], MinOf(Offsets(run)), MinOf(Timestamps(run)))
  {
    hide I64Bytes, I32Bytes, I16Bytes, U32Bytes, I64Value, I32Value, I16Value, U32Value, BaseSequence, BatchFrame,
         BatchContentHeader, Attributes, Bit, MinOf;
    var bs := BatchFrame(ext, run[0], MinOf(Offsets(run)), BatchContentHeader(run) + records);
    FrameFields(ext, run[0], MinOf(Offsets(run)), BatchContentHeader(run) + records);
    ContentFields(run, records);
    AttributeBits(run[0]);
    ThroughContent(bs);
  }

  lemma SameBatchIsReflexive(r: Record)
    ensures SameBatch(r, r)
  {
  }

  predicate IsRun(run: seq<Record>) {
    run != [] && forall i | 0 <= i < |run| :: SameBatch(run[0], run[i])
  }

  lemma BatchRoundTrip(ext: Externals, run: seq<Record>, rest: Bytes)
    requires IsRun(run) && AllWellTyped(ext, run) && EncodeBatch(ext, run).Some?
    ensures DecodeBatch(ext, EncodeBatch(ext, run).value + rest) == Some(Parsed(RecordSet(0, AllAsCreated(run)), rest))
  {
    hide EncodeRecords, DecodeRecords, DecodeHeader, Describes, SameBatch;
    HeaderRoundTrip(ext, run, rest);
    var buf := EncodeBatch(ext, run).value + rest;
    assert |buf| >= 17 && buf[16] == 2 by { MagicIsTwo(ext, run, rest); }
    RecordsRoundTrip(ext, run[0], run, MinOf(Offsets(run)), MinOf(Timestamps(run)), DecodeHeader(ext, buf).value.info);
  }

  lemma MagicIsTwo(ext: Externals, run: seq<Record>, rest: Bytes)
    requires run != [] && AllWellTyped(ext, run) && EncodeBatch(ext, run).Some?
    ensures var buf := EncodeBatch(ext, run).value + rest;
            |buf| >= FIXED_BATCH_SIZE && buf[16] == 2
  {
    hide I64Bytes, I32Bytes, I16Bytes, U32Bytes, BaseSequence, EncodeRecords, BatchFrame, BatchContentHeader;
    var minOffset := MinOf(Offsets(run));
    var records := EncodeRecords(run, minOffset, MinOf(Timestamps(run))).value;
    FrameFields(ext, run[0], minOffset, BatchContentHeader(run) + records);
  }

  // ----- The whole list

  // The records cut into the maximal runs that share a batch.
  function Runs(records: seq<Record>): (runs: seq<seq<Record>>)
    ensures forall i | 0 <= i < |runs| :: runs[i] != []
    decreases |records|
  {
    if records == [] then []
    else [records[..RunLength(records)]] + Runs(records[RunLength(records)..])
  }

  function Concat<T>(parts: seq<seq<T>>): seq<T> {
    if parts == [] then [] else parts[0] + Concat(parts[1..])
  }

  lemma FirstRun(records: seq<Record>)
    requires records != []
    ensures IsRun(records[..RunLength(records)])
    ensures RunLength(records) < |records| ==> !SameBatch(records[0], records[RunLength(records)])
  {
    hide SameBatch;
    SameBatchIsReflexive(records[0]);
    var n := RunLength(records);
    forall i | 0 <= i < n ensures SameBatch(records[0], records[..n][i]) {
      if i > 0 { assert records[i] == records[1..][i - 1]; }
    }
    if n < |records| { assert records[n] == records[1..][n - 1]; }
  }

  // The runs are non-empty, share a batch, cannot be extended, and make up the list.
  lemma {:induction false} RunsAreMaximal(records: seq<Record>)
    ensures Concat(Runs(records)) == records
    ensures forall i | 0 <= i < |Runs(records)| :: IsRun(Runs(records)[i])
    ensures forall i | 0 < i < |Runs(records)| :: !SameBatch(Runs(records)[i - 1][0], Runs(records)[i][0])
    decreases |records|
  {
    hide SameBatch, IsRun;
    if records != [] {
      var n := RunLength(records);
      var rest := records[n..];
      FirstRun(records);
      RunsAreMaximal(rest);
      assert records == records[..n] + rest;
      var runs := Runs(records);
      forall i | 0 < i < |runs| ensures !SameBatch(runs[i - 1][0], runs[i][0]) {
        if i == 1 {
          assert runs[1] == Runs(rest)[0] && runs[1][0] == records[n];
        } else {
          assert runs[i - 1] == Runs(rest)[i - 2] && runs[i] == Runs(rest)[i - 1];
        }
      }
    }
  }

  function SetsOf(runs: seq<seq<Record>>): seq<RecordSet> {
    seq(|runs|, i requires 0 <= i < |runs| => RecordSet(0, AllAsCreated(runs[i])))
  }

  // Whenever encoding succeeds, decoding gives one record set per maximal run, in order, holding the
  // run's records as Creation-stamped records.
  lemma {:induction false} DecodeAllOfEncode(ext: Externals, records: seq<Record>)
    requires AllWellTyped(ext, records) && Encode(ext, records).Some?
    ensures DecodeAll(ext, Encode(ext, records).value) == Some(SetsOf(Runs(records)))
    decreases |records|
  {
    hide EncodeBatch, DecodeBatch, SameBatch, WellTyped, IsRun;
    if records != [] {
      var n := RunLength(records);
      var run, rest := records[..n], records[n..];
      FirstRun(records);
      var tail := Encode(ext, rest).value;
      BatchRoundTrip(ext, run, tail);
      DecodeAllOfEncode(ext, rest);
      var buf := EncodeBatch(ext, run).value + tail;
      assert buf != [] by { MagicIsTwo(ext, run, tail); }
      assert SetsOf(Runs(records)) == [RecordSet(0, AllAsCreated(run))] + SetsOf(Runs(rest));
    } else {
      assert SetsOf(Runs(records)) == [];
    }
  }

  function Flatten(sets: seq<RecordSet>): seq<Record> {
    if sets == [] then [] else sets[0].records + Flatten(sets[1..])
  }

  lemma {:induction false} FlattenedRuns(runs: seq<seq<Record>>)
    ensures Flatten(SetsOf(runs)) == AllAsCreated(Concat(runs))
  {
    if runs != [] {
      FlattenedRuns(runs[1..]);
      assert SetsOf(runs)[1..] == SetsOf(runs[1..]);
    }
  }

  predicate AllCreation(records: seq<Record>) {
    forall i | 0 <= i < |records| :: records[i].timestampType == Creation
  }

  // The round trip: the decoded records are the encoded ones exactly when those are all
  // Creation-stamped (the encoder never writes the other stamp).
  lemma EncodedListRoundTrips(ext: Externals, records: seq<Record>)
    requires AllWellTyped(ext, records) && Encode(ext, records).Some?
    ensures DecodeAll(ext, Encode(ext, records).value).Some?
    ensures Flatten(DecodeAll(ext, Encode(ext, records).value).value) == AllAsCreated(records)
    ensures Flatten(DecodeAll(ext, Encode(ext, records).value).value) == records <==> AllCreation(records)
  {
    hide Encode, DecodeAll, WellTyped, Runs;
    DecodeAllOfEncode(ext, records);
    RunsAreMaximal(records);
    FlattenedRuns(Runs(records));
    if AllAsCreated(records) == records {
      forall i | 0 <= i < |records| ensures records[i].timestampType == Creation {
        assert AllAsCreated(records)[i] == records[i];
      }
    }
  }
}
