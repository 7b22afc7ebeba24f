/** A partition log with idempotent producers, as a value and functions on it. */
module PartitionModel {
  import opened Text
  import opened Octets
  import opened RecordFormat

  const NO_PRODUCER_ID: int := -1
  const NO_PRODUCER_EPOCH: int := -1
  const NO_SEQUENCE: int := -1
  const RECENT_APPEND_LIMIT: nat := 5
  const SEQUENCE_MODULUS: int := 0x8000_0000

  datatype AppendError = Malformed | UnsupportedBatch | OffsetOverflow | OutOfOrderSequence | DuplicateSequence

  datatype Result<+T> = Ok(value: T) | Err(error: AppendError)

  // ----- Validation of a record set

  datatype ValidatedBatch = ValidatedBatch(
    batchLength: int,
    recordCount: int,
    producerId: int,
    producerEpoch: int,
    baseSequence: int,
    crc: U32,
    bytes: Bytes)

  // The length of the batch at the front, header prefix included.
  function FrontLength(remaining: Bytes): (length: Result<nat>)
    ensures length.Ok? ==> FIXED_BATCH_SIZE <= length.value <= |remaining|
  {
    if |remaining| < FIXED_BATCH_SIZE then Err(Malformed)
    else
      var batchLength := BatchLength(remaining);
      if batchLength < 0 || 12 + batchLength < FIXED_BATCH_SIZE || 12 + batchLength > |remaining| then Err(Malformed)
      else Ok(12 + batchLength)
  }

  predicate NonIdempotent(info: BatchInfo) {
    && info.producerId == NO_PRODUCER_ID
    && info.producerEpoch == NO_PRODUCER_EPOCH
    && (info.baseSequence == NO_SEQUENCE || info.baseSequence == 0)
  }

  predicate Idempotent(info: BatchInfo) {
    info.producerId != NO_PRODUCER_ID && info.producerEpoch >= 0 && info.baseSequence >= 0
  }

  function ValidateBatch(ext: Externals, batch: Bytes): (v: Result<ValidatedBatch>)
    requires |batch| >= FIXED_BATCH_SIZE && BatchLength(batch) == |batch| - 12
    ensures v.Ok? ==> v.value.bytes == batch && 0 < v.value.recordCount <= MAX_I32
    ensures v.Ok? && v.value.producerId != NO_PRODUCER_ID ==> 0 <= v.value.baseSequence < SEQUENCE_MODULUS
  {
    if batch[16] != 2 then Err(UnsupportedBatch)
    else
      match DecodeHeader(ext, batch)
      case None => Err(Malformed)
      case Some(header) =>
        var info := header.info;
        if info.transactional || info.control then Err(UnsupportedBatch)
        else if !NonIdempotent(info) && !Idempotent(info) then Err(Malformed)
        else
          var lastOffsetDelta := I32Value(batch[23..27]);
          var recordCount := I32Value(batch[57..61]);
          if recordCount <= 0 || info.recordCount != recordCount || lastOffsetDelta != recordCount - 1 then
            Err(Malformed)
          else
            assert header.info == HeaderFields(batch) by { assert batch[..|batch|] == batch; }
            Ok(ValidatedBatch(|batch| - 12, recordCount, info.producerId, info.producerEpoch, info.baseSequence,
                              U32Value(batch[17..21]), batch))
  }

  function SplitBatches(ext: Externals, records: Bytes): Result<seq<ValidatedBatch>>
    decreases |records|
  {
    if records == [] then Ok([])
    else
      match FrontLength(records)
      case Err(e) => Err(e)
      case Ok(length) =>
        assert BatchLength(records[..length]) == length - 12 by { assert records[..length][8..12] == records[8..12]; }
        match ValidateBatch(ext, records[..length])
        case Err(e) => Err(e)
        case Ok(first) =>
          match SplitBatches(ext, records[length..])
          case Err(e) => Err(e)
          case Ok(rest) => Ok([first] + rest)
  }

  predicate SameProducer(batches: seq<ValidatedBatch>) {
    forall i | 0 <= i < |batches| ::
      batches[i].producerId == batches[0].producerId && batches[i].producerEpoch == batches[0].producerEpoch
  }

  function ValidateRecordSet(ext: Externals, records: Bytes): (v: Result<seq<ValidatedBatch>>) {
    if records == [] then Err(Malformed)
    else
      match SplitBatches(ext, records)
      case Err(e) => Err(e)
      case Ok(batches) => if SameProducer(batches) then Ok(batches) else Err(Malformed)
  }

  // ----- Sequences

  function NextSequence(baseSequence: int, recordCount: int): int {
    (baseSequence + recordCount) % SEQUENCE_MODULUS
  }

  function ClassifyMismatch(received: int, expected: int): AppendError {
    if (received - expected) % SEQUENCE_MODULUS < SEQUENCE_MODULUS / 2 then OutOfOrderSequence else DuplicateSequence
  }

  function ValidateSequences(batches: seq<ValidatedBatch>, expected: int): Option<AppendError> {
    if batches == [] then None
    else if batches[0].baseSequence != expected then Some(ClassifyMismatch(batches[0].baseSequence, expected))
    else ValidateSequences(batches[1..], NextSequence(expected, batches[0].recordCount))
  }

  // ----- The log

  datatype StoredBatch = StoredBatch(baseOffset: int, lastOffset: int, recordCount: int, bytes: Bytes)

  datatype AppendResult = AppendResult(baseOffset: int, lastOffset: int, recordCount: int, appended: bool)

  datatype RetryFingerprint = RetryFingerprint(batchLength: int, recordCount: int, crc: U32)

  datatype RecentAppend = RecentAppend(
    baseSequence: int,
    fingerprints: seq<RetryFingerprint>,
    encodedBatches: seq<Bytes>,
    result: AppendResult)

  datatype ProducerState = ProducerState(epoch: int, nextSequence: int, recent: seq<RecentAppend>)

  datatype LogView = LogView(nextOffset: int, batches: seq<StoredBatch>, producers: map<int, ProducerState>)

  function EmptyLog(): LogView {
    LogView(0, [], map[])
  }

  function TotalCount(batches: seq<ValidatedBatch>): int {
    if batches == [] then 0 else batches[0].recordCount + TotalCount(batches[1..])
  }

  function Fingerprints(batches: seq<ValidatedBatch>): seq<RetryFingerprint> {
    seq(|batches|, i requires 0 <= i < |batches| =>
      RetryFingerprint(batches[i].batchLength, batches[i].recordCount, batches[i].crc))
  }

  function EncodedBatches(batches: seq<ValidatedBatch>): seq<Bytes> {
    seq(|batches|, i requires 0 <= i < |batches| => batches[i].bytes)
  }

  // The first eight bytes of a stored batch are its assigned base offset.
  function Rewrite(bytes: Bytes, offset: int): (r: Bytes)
    requires |bytes| >= 8 && IsI64(offset)
    ensures |r| == |bytes| && r[8..] == bytes[8..] && I64Value(r[..8]) == offset
  {
    I64Bytes(offset) + bytes[8..]
  }

  predicate Countable(batches: seq<ValidatedBatch>) {
    forall i | 0 <= i < |batches| :: |batches[i].bytes| >= 8 && batches[i].recordCount > 0
  }

  // The batches as they are stored from offset `base` on.
  function Stamp(batches: seq<ValidatedBatch>, base: int): seq<StoredBatch>
    requires Countable(batches)
    requires IsI64(base) && IsI64(base + TotalCount(batches))
    decreases |batches|
  {
    if batches == [] then []
    else
      var b := batches[0];
      TotalIsPositive(batches[1..]);
      [StoredBatch(base, base + b.recordCount - 1, b.recordCount, Rewrite(b.bytes, base))]
      + Stamp(batches[1..], base + b.recordCount)
  }

  lemma {:induction false} TotalIsPositive(batches: seq<ValidatedBatch>)
    requires forall i | 0 <= i < |batches| :: batches[i].recordCount > 0
    ensures TotalCount(batches) >= 0 && (batches != [] ==> TotalCount(batches) > 0)
  {
    if batches != [] {
      TotalIsPositive(batches[1..]);
    }
  }

  function FindRecent(recent: seq<RecentAppend>, batches: seq<ValidatedBatch>): (found: Option<nat>)
    requires batches != []
    ensures found.Some? ==> found.value < |recent| && Matches(recent[found.value], batches)
    ensures found.None? ==> forall k | 0 <= k < |recent| :: !Matches(recent[k], batches)
  {
    if recent == [] then None
    else if Matches(recent[0], batches) then Some(0)
    else
      match FindRecent(recent[1..], batches)
      case None =>
        assert forall k | 0 < k < |recent| :: recent[k] == recent[1..][k - 1];
        None
      case Some(k) => Some(k + 1)
  }

  predicate Matches(entry: RecentAppend, batches: seq<ValidatedBatch>)
    requires batches != []
  {
    && entry.baseSequence == batches[0].baseSequence
    && entry.fingerprints == Fingerprints(batches)
    && entry.encodedBatches == EncodedBatches(batches)
  }

  // The retained window after one more append.
  function Remember(recent: seq<RecentAppend>, entry: RecentAppend): seq<RecentAppend> {
    (if |recent| < RECENT_APPEND_LIMIT then recent else recent[|recent| - RECENT_APPEND_LIMIT + 1..]) + [entry]
  }

  datatype Appended = Appended(log: LogView, result: Result<AppendResult>)

  predicate Storable(batches: seq<ValidatedBatch>) {
    && batches != [] && TotalCount(batches) <= MAX_I32
    && Countable(batches)
  }

  // Stores validated batches that passed every check.
  function Store(log: LogView, batches: seq<ValidatedBatch>): Appended
    requires Storable(batches) && 0 <= log.nextOffset && IsI64(log.nextOffset)
  {
    var total := TotalCount(batches);
    var next := log.nextOffset + total;
    if !IsI64(next) then Appended(log, Err(OffsetOverflow))
    else
      var result := AppendResult(log.nextOffset, next - 1, total, true);
      var first := batches[0];
      var stored := log.(batches := log.batches + Stamp(batches, log.nextOffset), nextOffset := next);
      if first.producerId == NO_PRODUCER_ID then Appended(stored, Ok(result))
      else
        var recent := if first.producerId in log.producers then log.producers[first.producerId].recent else [];
        var epoch := if first.producerId in log.producers then log.producers[first.producerId].epoch
                     else first.producerEpoch;
        var entry := RecentAppend(first.baseSequence, Fingerprints(batches), EncodedBatches(batches), result);
        Appended(stored.(producers := log.producers[first.producerId :=
                   ProducerState(epoch, NextSequence(first.baseSequence, total), Remember(recent, entry))]),
                 Ok(result))
  }

  function AppendBatches(log: LogView, batches: seq<ValidatedBatch>): Appended
    requires Storable(batches) && 0 <= log.nextOffset && IsI64(log.nextOffset)
  {
    var first := batches[0];
    if first.producerId == NO_PRODUCER_ID then Store(log, batches)
    else if first.producerId in log.producers then
      var state := log.producers[first.producerId];
      if state.epoch != first.producerEpoch then Appended(log, Err(OutOfOrderSequence))
      else
        match FindRecent(state.recent, batches)
        case Some(k) => Appended(log, Ok(state.recent[k].result.(appended := false)))
        case None =>
          match ValidateSequences(batches, state.nextSequence)
          case Some(e) => Appended(log, Err(e))
          case None => Store(log, batches)
    else if first.baseSequence != 0 then Appended(log, Err(OutOfOrderSequence))
    else
      match ValidateSequences(batches, 0)
      case Some(e) => Appended(log, Err(e))
      case None => Store(log, batches)
  }

  function Append(ext: Externals, log: LogView, records: Bytes): Appended
    requires 0 <= log.nextOffset && IsI64(log.nextOffset)
  {
    match ValidateRecordSet(ext, records)
    case Err(e) => Appended(log, Err(e))
    case Ok(batches) =>
      SplitIsStorable(ext, records);
      if TotalCount(batches) > MAX_I32 then Appended(log, Err(OffsetOverflow))
      else AppendBatches(log, batches)
  }

  lemma {:induction false} SplitIsStorable(ext: Externals, records: Bytes)
    requires SplitBatches(ext, records).Ok?
    ensures forall i | 0 <= i < |SplitBatches(ext, records).value| ::
      var b := SplitBatches(ext, records).value[i];
      && |b.bytes| >= FIXED_BATCH_SIZE && BatchLength(b.bytes) == |b.bytes| - 12
      && ValidateBatch(ext, b.bytes) == Ok(b)
    ensures records != [] ==> SplitBatches(ext, records).value != []
    decreases |records|
  {
    hide ValidateBatch;
    if records != [] {
      var length := FrontLength(records).value;
      assert records[..length][8..12] == records[8..12];
      SplitIsStorable(ext, records[length..]);
    }
  }

  // ----- Fetching

  function SkipTo(batches: seq<StoredBatch>, offset: int): seq<StoredBatch> {
    if batches == [] || batches[0].lastOffset >= offset then batches else SkipTo(batches[1..], offset)
  }

  // The first batch always, then as many as the limit allows.
  function TakeWithin(batches: seq<StoredBatch>, limit: nat, size: nat): seq<StoredBatch> {
    if batches == [] || (size > 0 && size + |batches[0].bytes| > limit) then []
    else [batches[0]] + TakeWithin(batches[1..], limit, size + |batches[0].bytes|)
  }

  function FetchBatches(log: LogView, offset: int, limit: nat): seq<StoredBatch> {
    TakeWithin(SkipTo(log.batches, offset), limit, 0)
  }

  function JoinBytes(batches: seq<StoredBatch>): Bytes {
    if batches == [] then [] else batches[0].bytes + JoinBytes(batches[1..])
  }

  datatype FetchSnapshot = FetchSnapshot(records: Bytes, highWatermark: int)

  // None when the offset is out of range.
  function Fetch(log: LogView, offset: int, limit: nat): Option<FetchSnapshot> {
    if offset < 0 || offset > log.nextOffset then None
    else Some(FetchSnapshot(JoinBytes(FetchBatches(log, offset, limit)), log.nextOffset))
  }
}
