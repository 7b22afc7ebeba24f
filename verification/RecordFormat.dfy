/**
 The version 2 record batch (Record Batch and Record, sections 5.3.1 and 5.3.2 of the Apache Kafka
 documentation) as functions on byte sequences.
 */
module RecordFormat {
  import opened Text
  import opened Octets
  import opened Varints

  // What the format takes from elsewhere: the CRC-32C, UTF-8 validity, and the codecs numbered 1 to 4.
  datatype Externals = Externals(
    crc: Bytes -> U32,
    utf8: Bytes -> bool,
    inflate: (nat, Bytes) -> Option<Bytes>)

  datatype TimestampType = Creation | LogAppend

  datatype RecordHeader = RecordHeader(key: Bytes, value: Option<Bytes>)

  datatype Record = Record(
    transactional: bool,
    control: bool,
    deleteHorizon: bool,
    leaderEpoch: int,
    producerId: int,
    producerEpoch: int,
    timestampType: TimestampType,
    offset: int,
    sequence: int,
    timestamp: int,
    key: Option<Bytes>,
    value: Option<Bytes>,
    headers: seq<RecordHeader>)

  // The fields that the record's types already promise.
  predicate WellTyped(ext: Externals, r: Record) {
    && IsI32(r.leaderEpoch) && IsI64(r.producerId) && IsI16(r.producerEpoch)
    && IsI64(r.offset) && IsI32(r.sequence) && IsI64(r.timestamp)
    && (forall i | 0 <= i < |r.headers| :: ext.utf8(r.headers[i].key))
    && (forall i, j | 0 <= i < j < |r.headers| :: r.headers[i].key != r.headers[j].key)
  }

  predicate AllWellTyped(ext: Externals, records: seq<Record>) {
    forall i | 0 <= i < |records| :: WellTyped(ext, records[i])
  }

  // ----- Batch headers

  const FIXED_BATCH_SIZE: nat := 61

  datatype BatchInfo = BatchInfo(
    recordCount: int,
    timestampType: TimestampType,
    minOffset: int,
    minTimestamp: int,
    baseSequence: int,
    transactional: bool,
    control: bool,
    deleteHorizon: bool,
    leaderEpoch: int,
    producerId: int,
    producerEpoch: int,
    compression: nat)

  function Bit(b: Byte, weight: int): bool
    requires weight > 0
  {
    b / weight % 2 == 1
  }

  function BatchLength(buf: Bytes): int
    requires |buf| >= 12
  {
    I32Value(buf[8..12])
  }

  // The header of the batch at the front of `buf`; the attributes' flags are in its low byte.
  function HeaderFields(batch: Bytes): BatchInfo
    requires |batch| >= FIXED_BATCH_SIZE
  {
    BatchInfo(
      I32Value(batch[57..61]),
      if Bit(batch[22], 8) then LogAppend else Creation,
      I64Value(batch[..8]),
      I64Value(batch[27..35]),
      I32Value(batch[53..57]),
      Bit(batch[22], 16),
      Bit(batch[22], 32),
      Bit(batch[22], 64),
      I32Value(batch[12..16]),
      I64Value(batch[43..51]),
      I16Value(batch[51..53]),
      batch[22] % 8)
  }

  predicate HeaderAccepted(ext: Externals, batch: Bytes)
    requires |batch| >= FIXED_BATCH_SIZE
  {
    && batch[16] == 2
    && U32Value(batch[17..21]) == ext.crc(batch[21..])
    && batch[22] % 8 <= 4
    && I32Value(batch[57..61]) >= 0
  }

  datatype DecodedHeader = DecodedHeader(info: BatchInfo, records: Bytes, rest: Bytes)

  // `decode_batch_header_inner` for version 2.
  function DecodeHeader(ext: Externals, buf: Bytes): (d: Option<DecodedHeader>)
    ensures d.Some? ==> |d.value.rest| + FIXED_BATCH_SIZE <= |buf| && d.value.info.recordCount >= 0
  {
    if |buf| < 12 then None
    else
      var length := BatchLength(buf);
      if length < 0 || 12 + length > |buf| || 12 + length < FIXED_BATCH_SIZE then None
      else
        var batch := buf[..12 + length];
        if HeaderAccepted(ext, batch) then
          Some(DecodedHeader(HeaderFields(batch), batch[FIXED_BATCH_SIZE..], buf[12 + length..]))
        else None
  }

  // A buffer that starts with exactly one accepted batch decodes to that batch's header.
  lemma DecodeHeaderOf(ext: Externals, batch: Bytes, rest: Bytes)
    requires |batch| >= FIXED_BATCH_SIZE && BatchLength(batch) == |batch| - 12
    ensures DecodeHeader(ext, batch + rest)
            == if HeaderAccepted(ext, batch)
               then Some(DecodedHeader(HeaderFields(batch), batch[FIXED_BATCH_SIZE..], rest))
               else None
  {
    hide HeaderAccepted, HeaderFields;
    var buf := batch + rest;
    assert buf[8..12] == batch[8..12];
    assert buf[..|batch|] == batch && buf[|batch|..] == rest;
  }

  // ----- Records, encoded

  predicate Fits(value: Option<Bytes>) {
    value.Some? ==> |value.value| <= MAX_I32
  }

  function OptionalBytes(value: Option<Bytes>): Bytes
    requires Fits(value)
  {
    match value
    case None => VarIntBytes(-1)
    case Some(bs) => VarIntBytes(|bs|) + bs
  }

  predicate HeadersFit(headers: seq<RecordHeader>) {
    && |headers| <= MAX_I32
    && forall i | 0 <= i < |headers| :: |headers[i].key| <= MAX_I32 && Fits(headers[i].value)
  }

  function HeaderBytes(headers: seq<RecordHeader>): Bytes
    requires forall i | 0 <= i < |headers| :: |headers[i].key| <= MAX_I32 && Fits(headers[i].value)
  {
    if headers == [] then []
    else VarIntBytes(|headers[0].key|) + headers[0].key + OptionalBytes(headers[0].value) + HeaderBytes(headers[1..])
  }

  // Differences of 64-bit numbers wrap.
  function OffsetDelta(r: Record, minOffset: int): (delta: int)
    ensures IsI64(delta)
  {
    WrapI64(r.offset - minOffset)
  }

  function TimestampDelta(r: Record, minTimestamp: int): (delta: int)
    ensures IsI64(delta)
  {
    WrapI64(r.timestamp - minTimestamp)
  }

  // The checks that `Record::encode_new` makes before it writes the body.
  predicate BodyFits(r: Record, minOffset: int) {
    IsI32(OffsetDelta(r, minOffset)) && Fits(r.key) && Fits(r.value) && HeadersFit(r.headers)
  }

  function RecordBody(r: Record, minOffset: int, minTimestamp: int): Bytes
    requires BodyFits(r, minOffset)
  {
    [0]
    + VarLongBytes(TimestampDelta(r, minTimestamp))
    + VarIntBytes(OffsetDelta(r, minOffset))
    + OptionalBytes(r.key)
    + OptionalBytes(r.value)
    + VarIntBytes(|r.headers|)
    + HeaderBytes(r.headers)
  }

  function EncodeRecord(r: Record, minOffset: int, minTimestamp: int): Option<Bytes> {
    if !BodyFits(r, minOffset) then None
    else
      var body := RecordBody(r, minOffset, minTimestamp);
      if |body| > MAX_I32 then None else Some(VarIntBytes(|body|) + body)
  }

  function EncodeRecords(records: seq<Record>, minOffset: int, minTimestamp: int): Option<Bytes> {
    if records == [] then Some([])
    else
      match EncodeRecord(records[0], minOffset, minTimestamp)
      case None => None
      case Some(first) =>
        match EncodeRecords(records[1..], minOffset, minTimestamp)
        case None => None
        case Some(rest) => Some(first + rest)
  }

  // ----- Batches, encoded

  // Whether `r` can share a batch that `first` starts.
  predicate SameBatch(first: Record, r: Record) {
    && r.transactional == first.transactional
    && r.control == first.control
    && r.deleteHorizon == first.deleteHorizon
    && r.leaderEpoch == first.leaderEpoch
    && r.producerId == first.producerId
    && r.producerEpoch == first.producerEpoch
    && WrapI32(WrapI32(r.offset) - r.sequence) == WrapI32(WrapI32(first.offset) - first.sequence)
  }

  function MatchLength(first: Record, records: seq<Record>): (n: nat)
    ensures n <= |records|
    ensures forall i | 0 <= i < n :: SameBatch(first, records[i])
    ensures n < |records| ==> !SameBatch(first, records[n])
  {
    if records == [] || !SameBatch(first, records[0]) then 0
    else
      var n := MatchLength(first, records[1..]);
      assert forall i | 0 < i < n + 1 :: records[i] == records[1..][i - 1];
      n + 1
  }

  // How many records the next batch takes: the first and the maximal run that can share its batch.
  function RunLength(records: seq<Record>): (n: nat)
    requires records != []
    ensures 0 < n <= |records|
  {
    MatchLength(records[0], records[1..]) + 1
  }

  function MinOf(s: seq<int>): (m: int)
    requires s != []
    ensures m in s && forall x | x in s :: m <= x
  {
    if |s| == 1 then s[0]
    else
      var rest := MinOf(s[1..]);
      assert forall x | x in s :: x == s[0] || x in s[1..];
      if s[0] <= rest then s[0] else rest
  }

  function MaxOf(s: seq<int>): (m: int)
    requires s != []
    ensures m in s && forall x | x in s :: x <= m
  {
    if |s| == 1 then s[0]
    else
      var rest := MaxOf(s[1..]);
      assert forall x | x in s :: x == s[0] || x in s[1..];
      if s[0] >= rest then s[0] else rest
  }

  function Offsets(run: seq<Record>): seq<int> {
    seq(|run|, i requires 0 <= i < |run| => run[i].offset)
  }

  function Timestamps(run: seq<Record>): seq<int> {
    seq(|run|, i requires 0 <= i < |run| => run[i].timestamp)
  }

  function Attributes(r: Record): (b: Byte) {
    (if r.transactional then 16 else 0) + (if r.control then 32 else 0) + (if r.deleteHorizon then 64 else 0)
  }

  function BaseSequence(first: Record, minOffset: int): (base: int)
    ensures IsI32(base)
  {
    WrapI32(first.sequence - WrapI32(WrapI64(first.offset - minOffset)))
  }

  // Everything the checksum covers but the records.
  function BatchContentHeader(run: seq<Record>): (bs: Bytes)
    requires run != [] && |run| <= MAX_I32
    requires forall i | 0 <= i < |run| :: IsI64(run[i].offset) && IsI64(run[i].timestamp)
    requires IsI64(run[0].producerId) && IsI16(run[0].producerEpoch)
    ensures |bs| == 40
  {
    var first := run[0];
    [0, Attributes(first)]
    + I32Bytes(WrapI32(WrapI64(MaxOf(Offsets(run)) - MinOf(Offsets(run)))))
    + I64Bytes(MinOf(Timestamps(run)))
    + I64Bytes(MaxOf(Timestamps(run)))
    + I64Bytes(first.producerId)
    + I16Bytes(first.producerEpoch)
    + I32Bytes(BaseSequence(first, MinOf(Offsets(run))))
    + I32Bytes(|run|)
  }

  function BatchFrame(ext: Externals, first: Record, minOffset: int, content: Bytes): (bs: Bytes)
    requires IsI64(minOffset) && IsI32(first.leaderEpoch) && 9 + |content| <= MAX_I32
    ensures |bs| == 21 + |content|
  {
    I64Bytes(minOffset)
    + I32Bytes(9 + |content|)
    + I32Bytes(first.leaderEpoch)
    + [2]
    + U32Bytes(ext.crc(content))
    + content
  }

  // One batch of `encode_new_batch`, uncompressed.
  function EncodeBatch(ext: Externals, run: seq<Record>): Option<Bytes>
    requires run != [] && AllWellTyped(ext, run)
  {
    if |run| > MAX_I32 then None
    else
      match EncodeRecords(run, MinOf(Offsets(run)), MinOf(Timestamps(run)))
      case None => None
      case Some(records) =>
        var content := BatchContentHeader(run) + records;
        if 9 + |content| > MAX_I32 then None
        else Some(BatchFrame(ext, run[0], MinOf(Offsets(run)), content))
  }

  function Encode(ext: Externals, records: seq<Record>): Option<Bytes>
    requires AllWellTyped(ext, records)
    decreases |records|
  {
    if records == [] then Some([])
    else
      var n := RunLength(records);
      match EncodeBatch(ext, records[..n])
      case None => None
      case Some(batch) =>
        match Encode(ext, records[n..])
        case None => None
        case Some(rest) => Some(batch + rest)
  }

  // ----- Records, decoded

  function ReadBytes(buf: Bytes, n: int): (p: Option<Parsed<Bytes>>)
    requires n >= 0
    ensures p.Some? ==> |p.value.rest| <= |buf|
  {
    if |buf| < n then None else Some(Parsed(buf[..n], buf[n..]))
  }

  function ReadOptional(buf: Bytes): (p: Option<Parsed<Option<Bytes>>>)
    ensures p.Some? ==> |p.value.rest| <= |buf|
  {
    match ReadVarInt(buf)
    case None => None
    case Some(length) =>
      if length.value < -1 then None
      else if length.value == -1 then Some(Parsed(None, length.rest))
      else
        match ReadBytes(length.rest, length.value)
        case None => None
        case Some(bytes) => Some(Parsed(Some(bytes.value), bytes.rest))
  }

  // Inserting into an insertion-ordered map replaces in place.
  function PutHeader(headers: seq<RecordHeader>, h: RecordHeader): seq<RecordHeader> {
    if headers == [] then [h]
    else if headers[0].key == h.key then [h] + headers[1..]
    else [headers[0]] + PutHeader(headers[1..], h)
  }

  function ReadHeaders(ext: Externals, buf: Bytes, n: nat, acc: seq<RecordHeader>): Option<seq<RecordHeader>>
    decreases n
  {
    if n == 0 then Some(acc)
    else
      match ReadVarInt(buf)
      case None => None
      case Some(length) =>
        if length.value < 0 then None
        else
          match ReadBytes(length.rest, length.value)
          case None => None
          case Some(key) =>
            if !ext.utf8(key.value) then None
            else
              match ReadOptional(key.rest)
              case None => None
              case Some(value) =>
                ReadHeaders(ext, value.rest, n - 1, PutHeader(acc, RecordHeader(key.value, value.value)))
  }

  function BuildRecord(info: BatchInfo, timestampDelta: int, offsetDelta: int,
                       key: Option<Bytes>, value: Option<Bytes>, headers: seq<RecordHeader>): Record
  {
    Record(info.transactional, info.control, info.deleteHorizon, info.leaderEpoch, info.producerId,
           info.producerEpoch, info.timestampType,
           WrapI64(info.minOffset + offsetDelta),
           WrapI32(info.baseSequence + offsetDelta),
           WrapI64(info.minTimestamp + timestampDelta),
           key, value, headers)
  }

  // The body of a record, after its size prefix; what follows the headers is ignored.
  function DecodeBody(ext: Externals, body: Bytes, info: BatchInfo): Option<Record> {
    if body == [] then None
    else
      match ReadVarLong(body[1..])
      case None => None
      case Some(timestamp) =>
        match ReadVarInt(timestamp.rest)
        case None => None
        case Some(offset) =>
          match ReadOptional(offset.rest)
          case None => None
          case Some(key) =>
            match ReadOptional(key.rest)
            case None => None
            case Some(value) =>
              match ReadVarInt(value.rest)
              case None => None
              case Some(count) =>
                if count.value < 0 then None
                else
                  match ReadHeaders(ext, count.rest, count.value, [])
                  case None => None
                  case Some(headers) =>
                    Some(BuildRecord(info, timestamp.value, offset.value, key.value, value.value, headers))
  }

  function DecodeRecord(ext: Externals, buf: Bytes, info: BatchInfo): Option<Parsed<Record>> {
    match ReadVarInt(buf)
    case None => None
    case Some(size) =>
      if size.value < 0 then None
      else
        match ReadBytes(size.rest, size.value)
        case None => None
        case Some(body) =>
          match DecodeBody(ext, body.value, info)
          case None => None
          case Some(record) => Some(Parsed(record, body.rest))
  }

  function DecodeRecords(ext: Externals, buf: Bytes, info: BatchInfo, n: nat): Option<seq<Record>>
    decreases n
  {
    if n == 0 then Some([])
    else
      match DecodeRecord(ext, buf, info)
      case None => None
      case Some(first) =>
        match DecodeRecords(ext, first.rest, info, n - 1)
        case None => None
        case Some(rest) => Some([first.value] + rest)
  }

  // ----- Batches, decoded

  datatype RecordSet = RecordSet(compression: nat, records: seq<Record>)

  // One batch; a version other than 2 is refused before the header is read.
  function DecodeBatch(ext: Externals, buf: Bytes): (p: Option<Parsed<RecordSet>>)
    ensures p.Some? ==> |p.value.rest| < |buf|
  {
    if |buf| < 17 || buf[16] != 2 then None
    else
      match DecodeHeader(ext, buf)
      case None => None
      case Some(header) =>
        var data := if header.info.compression == 0 then Some(header.records)
                    else ext.inflate(header.info.compression, header.records);
        match data
        case None => None
        case Some(plain) =>
          match DecodeRecords(ext, plain, header.info, header.info.recordCount)
          case None => None
          case Some(records) => Some(Parsed(RecordSet(header.info.compression, records), header.rest))
  }

  function DecodeAll(ext: Externals, buf: Bytes): Option<seq<RecordSet>>
    decreases |buf|
  {
    if buf == [] then Some([])
    else
      match DecodeBatch(ext, buf)
      case None => None
      case Some(first) =>
        match DecodeAll(ext, first.rest)
        case None => None
        case Some(rest) => Some([first.value] + rest)
  }
}
