/** Where every field of a batch and of a record is, for what is written and for what is read. */
module RecordLayout {
  import opened Text
  import opened Octets
  import opened Varints
  import opened RecordFormat
  import opened RecordRoundTrip

  // ----- Numbers

  function Pair(a: int, b: int): int {
    0x100 * a + b
  }

  function Quad(a: int, b: int, c: int, d: int): int {
    0x100_0000 * a + 0x1_0000 * b + 0x100 * c + d
  }

  lemma PairValue(bs: Bytes)
    requires |bs| == 2
    ensures BeValue(bs) == Pair(bs[0], bs[1])
  {
    assert bs[..1][..0] == [];
    assert BeValue(bs[..1]) == bs[0];
  }

  lemma QuadValue(bs: Bytes)
    requires |bs| == 4
    ensures BeValue(bs) == Quad(bs[0], bs[1], bs[2], bs[3])
  {
    PairValue(bs[..2]);
    assert bs[..3][..2] == bs[..2];
    assert BeValue(bs[..3]) == 0x100 * BeValue(bs[..2]) + bs[2];
  }

  lemma LongValue(bs: Bytes)
    requires |bs| == 8
    ensures BeValue(bs) == 0x1_0000_0000 * BeValue(bs[..4]) + Quad(bs[4], bs[5], bs[6], bs[7])
  {
    assert bs[..5][..4] == bs[..4] && bs[..6][..5] == bs[..5] && bs[..7][..6] == bs[..6];
    assert BeValue(bs[..5]) == 0x100 * BeValue(bs[..4]) + bs[4];
    assert BeValue(bs[..6]) == 0x100 * BeValue(bs[..5]) + bs[5];
    assert BeValue(bs[..7]) == 0x100 * BeValue(bs[..6]) + bs[6];
  }

  // Integers of fixed width are big-endian and two's complement.
  lemma ShortIsBigEndian(bs: Bytes)
    requires |bs| == 2
    ensures I16Value(bs) == Pair(bs[0], bs[1]) - if bs[0] >= 0x80 then 0x1_0000 else 0
  {
    PairValue(bs);
  }

  lemma WordIsBigEndian(bs: Bytes)
    requires |bs| == 4
    ensures U32Value(bs) == Quad(bs[0], bs[1], bs[2], bs[3])
    ensures I32Value(bs) == Quad(bs[0], bs[1], bs[2], bs[3]) - if bs[0] >= 0x80 then 0x1_0000_0000 else 0
  {
    QuadValue(bs);
  }

  lemma LongIsBigEndian(bs: Bytes)
    requires |bs| == 8
    ensures I64Value(bs) == 0x1_0000_0000 * Quad(bs[0], bs[1], bs[2], bs[3]) + Quad(bs[4], bs[5], bs[6], bs[7])
                            - if bs[0] >= 0x80 then 0x1_0000_0000_0000_0000 else 0
  {
    hide BeValue;
    QuadValue(bs[..4]);
    LongValue(bs);
  }

  // The value of digits of seven bits, the low ones first.
  function DigitValue(bs: Bytes): nat {
    if bs == [] then 0 else bs[0] % 0x80 + 0x80 * DigitValue(bs[1..])
  }

  // An unsigned number is written in digits of seven bits, all but the last marked by the high bit.
  lemma {:induction false} UnsignedIsDigits(v: nat)
    ensures var bs := EncodeUnsigned(v);
            && DigitValue(bs) == v
            && bs[|bs| - 1] < 0x80 && forall i | 0 <= i < |bs| - 1 :: bs[i] >= 0x80
    decreases v
  {
    var bs := EncodeUnsigned(v);
    if v >= 0x80 {
      var rest := EncodeUnsigned(v / 0x80);
      UnsignedIsDigits(v / 0x80);
      assert bs[0] % 0x80 == v % 0x80 && bs[1..] == rest;
      assert forall i | 0 < i < |bs| :: bs[i] == rest[i - 1];
    } else {
      assert bs[1..] == [];
      assert DigitValue(bs[1..]) == 0;
    }
  }

  // Signed numbers alternate: 0, -1, 1, -2, 2 and so on.
  lemma ZigzagValues()
    ensures VarIntBytes(0) == [0] && VarIntBytes(-1) == [1] && VarIntBytes(1) == [2] && VarIntBytes(-2) == [3]
    ensures VarIntBytes(63) == [0x7e] && VarIntBytes(-64) == [0x7f] && VarIntBytes(64) == [0x80, 0x01]
    ensures VarIntBytes(150) == [0xac, 0x02] && VarIntBytes(-151) == [0xad, 0x02]
    ensures VarLongBytes(-1) == [1] && VarLongBytes(150) == [0xac, 0x02]
  {
    assert EncodeUnsigned(2) == [2];
    assert EncodeUnsigned(1) == [1];
  }

  // ----- Who shares a batch

  // Records share a batch exactly if the fields that a batch holds once are equal and their offsets run along
  // with their sequences.
  lemma SharesBatchIff(first: Record, r: Record)
    ensures SameBatch(first, r) <==>
              && r.transactional == first.transactional && r.control == first.control
              && r.deleteHorizon == first.deleteHorizon && r.leaderEpoch == first.leaderEpoch
              && r.producerId == first.producerId && r.producerEpoch == first.producerEpoch
              && ((r.offset - r.sequence) - (first.offset - first.sequence)) % 0x1_0000_0000 == 0
  {
    hide WrapI32;
    var a, b := r.offset - r.sequence, first.offset - first.sequence;
    var x, y := WrapI32(WrapI32(r.offset) - r.sequence), WrapI32(WrapI32(first.offset) - first.sequence);
    OffsetMinusSequence(r);
    OffsetMinusSequence(first);
    if x == y {
      CongruentChain(a, x, b);
    }
    if Congruent(a, b) {
      CongruentChain(x, a, b);
      CongruentChain(x, b, y);
      CongruentWraps(x, y);
      assert WrapI32(x) == x && WrapI32(y) == y;
    }
  }

  // ----- A batch as it is written

  predicate LeastOffset(run: seq<Record>, x: int) {
    (exists i :: 0 <= i < |run| && run[i].offset == x) && forall i | 0 <= i < |run| :: x <= run[i].offset
  }

  predicate GreatestOffset(run: seq<Record>, x: int) {
    (exists i :: 0 <= i < |run| && run[i].offset == x) && forall i | 0 <= i < |run| :: run[i].offset <= x
  }

  predicate LeastTimestamp(run: seq<Record>, x: int) {
    (exists i :: 0 <= i < |run| && run[i].timestamp == x) && forall i | 0 <= i < |run| :: x <= run[i].timestamp
  }

  predicate GreatestTimestamp(run: seq<Record>, x: int) {
    (exists i :: 0 <= i < |run| && run[i].timestamp == x) && forall i | 0 <= i < |run| :: run[i].timestamp <= x
  }

  lemma OffsetExtremes(run: seq<Record>)
    requires run != []
    ensures LeastOffset(run, MinOf(Offsets(run))) && GreatestOffset(run, MaxOf(Offsets(run)))
  {
    hide MinOf, MaxOf;
    var s := Offsets(run);
    forall i | 0 <= i < |run| ensures MinOf(s) <= run[i].offset <= MaxOf(s) {
      assert s[i] == run[i].offset && s[i] in s;
    }
    var low :| 0 <= low < |s| && s[low] == MinOf(s);
    var high :| 0 <= high < |s| && s[high] == MaxOf(s);
  }

  lemma TimestampExtremes(run: seq<Record>)
    requires run != []
    ensures LeastTimestamp(run, MinOf(Timestamps(run))) && GreatestTimestamp(run, MaxOf(Timestamps(run)))
  {
    hide MinOf, MaxOf;
    var s := Timestamps(run);
    forall i | 0 <= i < |run| ensures MinOf(s) <= run[i].timestamp <= MaxOf(s) {
      assert s[i] == run[i].timestamp && s[i] in s;
    }
    var low :| 0 <= low < |s| && s[low] == MinOf(s);
    var high :| 0 <= high < |s| && s[high] == MaxOf(s);
  }

  // The header of a batch of the run, field by field; `low` and `high` are its extreme offsets.
  predicate HeaderLaidOut(ext: Externals, run: seq<Record>, low: int, high: int, bs: Bytes)
    requires run != []
  {
    var first := run[0];
    && |bs| >= 61
    && I64Value(bs[0..8]) == low
    && I32Value(bs[8..12]) == |bs| - 12
    && I32Value(bs[12..16]) == first.leaderEpoch
    && bs[16] == 2
    && U32Value(bs[17..21]) == ext.crc(bs[21..])
    && bs[21] == 0
    && bs[22] == (if first.transactional then 0x10 else 0) + (if first.control then 0x20 else 0)
                 + (if first.deleteHorizon then 0x40 else 0)
    && (I32Value(bs[23..27]) - (high - low)) % 0x1_0000_0000 == 0
    && LeastTimestamp(run, I64Value(bs[27..35]))
    && GreatestTimestamp(run, I64Value(bs[35..43]))
    && I64Value(bs[43..51]) == first.producerId
    && I16Value(bs[51..53]) == first.producerEpoch
    && (I32Value(bs[53..57]) - (first.sequence - (first.offset - low))) % 0x1_0000_0000 == 0
    && I32Value(bs[57..61]) == |run|
  }

  lemma ContentLayout(run: seq<Record>, records: Bytes)
    requires run != [] && |run| <= MAX_I32
    requires forall i | 0 <= i < |run| :: IsI64(run[i].offset) && IsI64(run[i].timestamp)
    requires IsI64(run[0].producerId) && IsI16(run[0].producerEpoch)
    ensures var content := BatchContentHeader(run) + records;
            && content[0] == 0
            && content[2..6] == I32Bytes(WrapI32(WrapI64(MaxOf(Offsets(run)) - MinOf(Offsets(run)))))
            && content[14..22] == I64Bytes(MaxOf(Timestamps(run)))
  {
    hide I64Bytes, I32Bytes, I16Bytes, BaseSequence, MinOf, MaxOf, WrapI32, WrapI64, Attributes;
  }

  lemma WrappedTwice(x: int)
    ensures (WrapI32(WrapI64(x)) - x) % 0x1_0000_0000 == 0
  {
    WrapsAreCongruent(x);
    WrapsAreCongruent(WrapI64(x));
    CongruentChain(WrapI32(WrapI64(x)), WrapI64(x), x);
  }

  // Every encoded batch has its fields where the format puts them, and its records after them.
  lemma BatchIsLaidOut(ext: Externals, run: seq<Record>)
    requires run != [] && AllWellTyped(ext, run) && EncodeBatch(ext, run).Some?
    ensures var bs := EncodeBatch(ext, run).value;
            && |bs| >= 61
            && LeastOffset(run, MinOf(Offsets(run))) && GreatestOffset(run, MaxOf(Offsets(run)))
            && HeaderLaidOut(ext, run, MinOf(Offsets(run)), MaxOf(Offsets(run)), bs)
            && RecordsLaidOut(bs[61..], run, I64Value(bs[0..8]), I64Value(bs[27..35]))
  {
    hide I64Bytes, I32Bytes, I16Bytes, U32Bytes, I64Value, I32Value, I16Value, U32Value, BaseSequence, BatchFrame,
         BatchContentHeader, MinOf, MaxOf, WrapI32, WrapI64, EncodeRecords, Bit, LeastOffset, GreatestOffset,
         LeastTimestamp, GreatestTimestamp, RecordsLaidOut;
    var bs := EncodeBatch(ext, run).value;
    var low, high := MinOf(Offsets(run)), MaxOf(Offsets(run));
    var records := EncodeRecords(run, low, MinOf(Timestamps(run))).value;
    RecordsAreLaidOut(run, low, MinOf(Timestamps(run)));
    FrameFields(ext, run[0], low, BatchContentHeader(run) + records);
    ContentFields(run, records);
    ContentLayout(run, records);
    ThroughContent(bs);
    assert bs[21] == bs[21..][0] && bs[23..27] == bs[21..][2..6] && bs[35..43] == bs[21..][14..22];
    assert bs[61..] == bs[21..][40..];
    OffsetExtremes(run);
    TimestampExtremes(run);
    WrappedTwice(high - low);
    BaseIsCongruent(run[0], low);
  }

  // ----- A record as it is written

  // The fields of a record, read from the front: both deltas, the key, the value, the number of headers.
  predicate FieldsLaidOut(bs: Bytes, timestamp: int, offset: int, key: Option<Bytes>, value: Option<Bytes>, count: int,
                          headers: Bytes)
  {
    var t := ReadVarLong(bs);
    && t.Some? && t.value.value == timestamp
    && var o := ReadVarInt(t.value.rest);
    && o.Some? && o.value.value == offset
    && var k := ReadOptional(o.value.rest);
    && k.Some? && k.value.value == key
    && var v := ReadOptional(k.value.rest);
    && v.Some? && v.value.value == value
    && var c := ReadVarInt(v.value.rest);
    && c.Some? && c.value == Parsed(count, headers)
  }

  // The headers, each a length, so many bytes of key, and a value; then `rest`.
  predicate HeadersLaidOut(bs: Bytes, headers: seq<RecordHeader>, rest: Bytes)
    decreases |headers|
  {
    if headers == [] then bs == rest
    else
      var key, n := headers[0].key, ReadVarInt(bs);
      && n.Some? && n.value.value == |key| && key <= n.value.rest
      && var v := ReadOptional(n.value.rest[|key|..]);
      && v.Some? && v.value.value == headers[0].value && HeadersLaidOut(v.value.rest, headers[1..], rest)
  }

  ghost predicate RecordLaidOut(body: Bytes, r: Record, low: int, lowest: int) {
    && body != [] && body[0] == 0
    && exists timestamp, offset, headers ::
         && FieldsLaidOut(body[1..], timestamp, offset, r.key, r.value, |r.headers|, headers)
         && IsI64(timestamp) && (timestamp - (r.timestamp - lowest)) % 0x1_0000_0000_0000_0000 == 0
         && IsI32(offset) && (offset - (r.offset - low)) % 0x1_0000_0000_0000_0000 == 0
         && HeadersLaidOut(headers, r.headers, [])
  }

  // The records one after the other, each after its size.
  ghost predicate RecordsLaidOut(bs: Bytes, run: seq<Record>, low: int, lowest: int)
    decreases |run|
  {
    if run == [] then bs == []
    else
      var n := ReadVarInt(bs);
      && n.Some? && 0 <= n.value.value <= |n.value.rest|
      && RecordLaidOut(n.value.rest[..n.value.value], run[0], low, lowest)
      && RecordsLaidOut(n.value.rest[n.value.value..], run[1..], low, lowest)
  }

  lemma {:induction false} HeadersAreLaidOut(headers: seq<RecordHeader>)
    requires forall i | 0 <= i < |headers| :: |headers[i].key| <= MAX_I32 && Fits(headers[i].value)
    ensures HeadersLaidOut(HeaderBytes(headers), headers, [])
  {
    hide ReadVarInt, VarIntBytes, ReadOptional, OptionalBytes;
    if headers != [] {
      var h, tail := headers[0], HeaderBytes(headers[1..]);
      var afterKey := OptionalBytes(h.value) + tail;
      assert HeaderBytes(headers) == VarIntBytes(|h.key|) + (h.key + afterKey);
      VarIntRoundTrip(|h.key|, h.key + afterKey);
      assert (h.key + afterKey)[|h.key|..] == afterKey;
      OptionalRoundTrip(h.value, tail);
      HeadersAreLaidOut(headers[1..]);
    }
  }

  lemma BodyIsLaidOut(r: Record, low: int, lowest: int)
    requires BodyFits(r, low)
    ensures RecordLaidOut(RecordBody(r, low, lowest), r, low, lowest)
  {
    hide ReadVarInt, VarIntBytes, ReadVarLong, VarLongBytes, ReadOptional, OptionalBytes, HeadersLaidOut, HeaderBytes,
         WrapI64;
    var body := RecordBody(r, low, lowest);
    var t, o := TimestampDelta(r, lowest), OffsetDelta(r, low);
    var headers := HeaderBytes(r.headers);
    var count := VarIntBytes(|r.headers|) + headers;
    var value := OptionalBytes(r.value) + count;
    var key := OptionalBytes(r.key) + value;
    var offset := VarIntBytes(o) + key;
    assert body == [0] + (VarLongBytes(t) + offset);
    assert body[1..] == VarLongBytes(t) + offset;
    VarLongRoundTrip(t, offset);
    VarIntRoundTrip(o, key);
    OptionalRoundTrip(r.key, value);
    OptionalRoundTrip(r.value, count);
    VarIntRoundTrip(|r.headers|, headers);
    HeadersAreLaidOut(r.headers);
    assert FieldsLaidOut(body[1..], t, o, r.key, r.value, |r.headers|, headers);
  }

  // Every encoded list of records is laid out so.
  lemma {:induction false} RecordsAreLaidOut(run: seq<Record>, low: int, lowest: int)
    requires EncodeRecords(run, low, lowest).Some?
    ensures RecordsLaidOut(EncodeRecords(run, low, lowest).value, run, low, lowest)
    decreases |run|
  {
    hide ReadVarInt, VarIntBytes, RecordBody, RecordLaidOut, BodyFits;
    if run != [] {
      var body, rest := RecordBody(run[0], low, lowest), EncodeRecords(run[1..], low, lowest).value;
      assert EncodeRecords(run, low, lowest).value == VarIntBytes(|body|) + (body + rest);
      VarIntRoundTrip(|body|, body + rest);
      assert (body + rest)[..|body|] == body && (body + rest)[|body|..] == rest;
      BodyIsLaidOut(run[0], low, lowest);
      RecordsAreLaidOut(run[1..], low, lowest);
    }
  }

  predicate Short(value: Option<Bytes>) {
    value.Some? ==> |value.value| <= 0x7fff_ffff
  }

  // The offset delta and every length fit 32 bits, the whole body's included.
  predicate Encodable(r: Record, low: int, lowest: int) {
    && IsI32(WrapI64(r.offset - low)) && Short(r.key) && Short(r.value)
    && |r.headers| <= 0x7fff_ffff
    && (forall i | 0 <= i < |r.headers| :: |r.headers[i].key| <= 0x7fff_ffff && Short(r.headers[i].value))
    && |RecordBody(r, low, lowest)| <= 0x7fff_ffff
  }

  lemma {:induction false} RecordsEncodeIff(run: seq<Record>, low: int, lowest: int)
    ensures EncodeRecords(run, low, lowest).Some? <==> forall i | 0 <= i < |run| :: Encodable(run[i], low, lowest)
    decreases |run|
  {
    hide RecordBody;
    if run != [] {
      RecordsEncodeIff(run[1..], low, lowest);
      assert forall i | 0 < i < |run| :: run[i] == run[1..][i - 1];
      if forall i | 0 <= i < |run| :: Encodable(run[i], low, lowest) {
        assert Encodable(run[0], low, lowest);
      }
    }
  }

  // A batch is encoded if and only if every record is encodable and the batch's own lengths fit 32 bits.
  lemma BatchEncodesIff(ext: Externals, run: seq<Record>)
    requires run != [] && AllWellTyped(ext, run)
    ensures var low, lowest := MinOf(Offsets(run)), MinOf(Timestamps(run));
            EncodeBatch(ext, run).Some? <==>
              && |run| <= 0x7fff_ffff && (forall i | 0 <= i < |run| :: Encodable(run[i], low, lowest))
              && EncodeRecords(run, low, lowest).Some?
              && 49 + |EncodeRecords(run, low, lowest).value| <= 0x7fff_ffff
  {
    hide EncodeRecords, Encodable, MinOf, BatchContentHeader, BatchFrame, WellTyped;
    assert forall i | 0 <= i < |run| :: WellTyped(ext, run[i]);
    RecordsEncodeIff(run, MinOf(Offsets(run)), MinOf(Timestamps(run)));
  }

  // ----- A record as it is read

  // What is read as key, value and deltas is what the layout has there; what the record shares with its batch
  // is the batch's.
  lemma BodyIsRead(ext: Externals, body: Bytes, info: BatchInfo, timestamp: int, offset: int, key: Option<Bytes>,
                   value: Option<Bytes>, count: int, headers: Bytes)
    requires body != [] && FieldsLaidOut(body[1..], timestamp, offset, key, value, count, headers)
    ensures var d := DecodeBody(ext, body, info);
            && (d.Some? <==> count >= 0 && ReadHeaders(ext, headers, count, []).Some?)
            && (d.Some? ==>
                  && d.value.key == key && d.value.value == value
                  && Some(d.value.headers) == ReadHeaders(ext, headers, count, [])
                  && IsI64(d.value.offset)
                  && (d.value.offset - (info.minOffset + offset)) % 0x1_0000_0000_0000_0000 == 0
                  && IsI64(d.value.timestamp)
                  && (d.value.timestamp - (info.minTimestamp + timestamp)) % 0x1_0000_0000_0000_0000 == 0
                  && IsI32(d.value.sequence) && (d.value.sequence - (info.baseSequence + offset)) % 0x1_0000_0000 == 0
                  && d.value.producerId == info.producerId && d.value.producerEpoch == info.producerEpoch
                  && d.value.leaderEpoch == info.leaderEpoch && d.value.timestampType == info.timestampType
                  && d.value.transactional == info.transactional && d.value.control == info.control
                  && d.value.deleteHorizon == info.deleteHorizon)
  {
    hide ReadVarInt, ReadVarLong, ReadOptional, ReadHeaders, WrapI32, WrapI64;
  }

  // A record is read only if its fields are there.
  lemma ReadIsLaidOut(ext: Externals, body: Bytes, info: BatchInfo)
    requires DecodeBody(ext, body, info).Some?
    ensures body != []
    ensures exists timestamp, offset, key, value, count, headers ::
              FieldsLaidOut(body[1..], timestamp, offset, key, value, count, headers)
  {
    hide ReadVarInt, ReadVarLong, ReadOptional, ReadHeaders;
    var t := ReadVarLong(body[1..]).value;
    var o := ReadVarInt(t.rest).value;
    var k := ReadOptional(o.rest).value;
    var v := ReadOptional(k.rest).value;
    var c := ReadVarInt(v.rest).value;
    assert FieldsLaidOut(body[1..], t.value, o.value, k.value, v.value, c.value, c.rest);
  }

  // A value is read exactly if its length is not below -1 and so many bytes are there.
  lemma OptionalIffComplete(buf: Bytes)
    ensures var n, v := ReadVarInt(buf), ReadOptional(buf);
            && (v.Some? <==> n.Some? && -1 <= n.value.value <= |n.value.rest|)
            && (v.Some? ==>
                  (v.value.value.None? <==> n.value.value == -1)
                  && (v.value.value.Some? ==> v.value.value.value + v.value.rest == n.value.rest
                                              && |v.value.value.value| == n.value.value))
  {
    hide ReadVarInt;
  }

  // Headers are inserted one after the other.
  function PutAll(headers: seq<RecordHeader>, more: seq<RecordHeader>): seq<RecordHeader>
    decreases |more|
  {
    if more == [] then headers else PutAll(PutHeader(headers, more[0]), more[1..])
  }

  predicate AllUtf8(ext: Externals, headers: seq<RecordHeader>) {
    forall i | 0 <= i < |headers| :: ext.utf8(headers[i].key)
  }

  // Headers are read exactly if so many are there and every key is UTF-8.
  lemma {:induction false} LaidOutIsRead(ext: Externals, bs: Bytes, headers: seq<RecordHeader>, rest: Bytes,
                                         acc: seq<RecordHeader>)
    requires HeadersLaidOut(bs, headers, rest)
    ensures ReadHeaders(ext, bs, |headers|, acc) == if AllUtf8(ext, headers) then Some(PutAll(acc, headers)) else None
    decreases |headers|
  {
    hide ReadVarInt, ReadOptional, PutHeader;
    if headers != [] {
      var h, n := headers[0], ReadVarInt(bs).value;
      var v := ReadOptional(n.rest[|h.key|..]).value;
      assert n.rest[..|h.key|] == h.key && RecordHeader(h.key, v.value) == h;
      LaidOutIsRead(ext, v.rest, headers[1..], rest, PutHeader(acc, h));
      assert AllUtf8(ext, headers) <==> ext.utf8(h.key) && AllUtf8(ext, headers[1..]) by {
        assert forall i | 0 < i < |headers| :: headers[i] == headers[1..][i - 1];
      }
    }
  }

  lemma {:induction false} ReadHeadersAreLaidOut(ext: Externals, bs: Bytes, n: nat, acc: seq<RecordHeader>)
    returns (headers: seq<RecordHeader>, rest: Bytes)
    requires ReadHeaders(ext, bs, n, acc).Some?
    ensures |headers| == n && HeadersLaidOut(bs, headers, rest) && AllUtf8(ext, headers)
    decreases n
  {
    hide ReadVarInt, ReadOptional, PutHeader;
    if n == 0 {
      headers, rest := [], bs;
    } else {
      var length := ReadVarInt(bs).value;
      var key := ReadBytes(length.rest, length.value).value;
      var v := ReadOptional(key.rest).value;
      var h := RecordHeader(key.value, v.value);
      var tail;
      tail, rest := ReadHeadersAreLaidOut(ext, v.rest, n - 1, PutHeader(acc, h));
      headers := [h] + tail;
      assert headers[1..] == tail;
    }
  }

  // A repeated key keeps the place of its first header and has the value of its last.
  lemma {:induction false} PutReplaces(headers: seq<RecordHeader>, h: RecordHeader, i: nat)
    requires i < |headers| && headers[i].key == h.key && forall j | 0 <= j < i :: headers[j].key != h.key
    ensures PutHeader(headers, h) == headers[i := h]
  {
    if i > 0 {
      PutReplaces(headers[1..], h, i - 1);
      assert headers[i := h] == [headers[0]] + headers[1..][i - 1 := h];
    }
  }

  // ----- A header as it is read

  // The flags are bits of the low attribute byte; the codec is its lowest three bits.
  lemma HeaderIsRead(ext: Externals, buf: Bytes)
    requires DecodeHeader(ext, buf).Some?
    ensures var d, n := DecodeHeader(ext, buf).value, 12 + I32Value(buf[8..12]);
            && 61 <= n <= |buf| && d.records == buf[61..n] && d.rest == buf[n..]
            && buf[16] == 2 && U32Value(buf[17..21]) == ext.crc(buf[21..n])
            && d.info.minOffset == I64Value(buf[0..8]) && d.info.leaderEpoch == I32Value(buf[12..16])
            && d.info.compression == buf[22] % 8 <= 4
            && (d.info.timestampType == LogAppend <==> buf[22] / 8 % 2 == 1)
            && (d.info.transactional <==> buf[22] / 16 % 2 == 1)
            && (d.info.control <==> buf[22] / 32 % 2 == 1)
            && (d.info.deleteHorizon <==> buf[22] / 64 % 2 == 1)
            && d.info.minTimestamp == I64Value(buf[27..35])
            && d.info.producerId == I64Value(buf[43..51]) && d.info.producerEpoch == I16Value(buf[51..53])
            && d.info.baseSequence == I32Value(buf[53..57]) && d.info.recordCount == I32Value(buf[57..61]) >= 0
  {
    hide I64Value, I32Value, I16Value, U32Value;
    var batch := buf[..12 + BatchLength(buf)];
    FrontFields(buf, |batch|);
  }

  lemma FrontFields(buf: Bytes, n: nat)
    requires 61 <= n <= |buf|
    ensures var b := buf[..n];
            && b[..8] == buf[0..8] && b[12..16] == buf[12..16] && b[17..21] == buf[17..21] && b[21..] == buf[21..n]
            && b[27..35] == buf[27..35] && b[43..51] == buf[43..51] && b[51..53] == buf[51..53]
            && b[53..57] == buf[53..57] && b[57..61] == buf[57..61] && b[61..] == buf[61..n]
  {
    SliceOfFront(buf, n, 12, 16);
    SliceOfFront(buf, n, 17, 21);
    SliceOfFront(buf, n, 21, n);
    SliceOfFront(buf, n, 27, 35);
    SliceOfFront(buf, n, 43, 51);
    SliceOfFront(buf, n, 51, 53);
    SliceOfFront(buf, n, 53, 57);
    SliceOfFront(buf, n, 57, 61);
    SliceOfFront(buf, n, 61, n);
  }

  lemma SliceOfFront(buf: Bytes, n: nat, i: nat, j: nat)
    requires i <= j <= n <= |buf|
    ensures buf[..n][i..j] == buf[i..j]
  {
  }

  // ----- A compressed batch

  // What a record is read as does not depend on the codec.
  lemma {:induction false} CodecDoesNotMatter(ext: Externals, buf: Bytes, info: BatchInfo, codec: nat, n: nat)
    ensures DecodeRecords(ext, buf, info, n) == DecodeRecords(ext, buf, info.(compression := codec), n)
    decreases n
  {
    hide ReadVarInt, ReadVarLong, ReadOptional, ReadHeaders;
    if n > 0 {
      assert DecodeRecord(ext, buf, info) == DecodeRecord(ext, buf, info.(compression := codec)) by {
        RecordWithoutCodec(ext, buf, info, codec);
      }
      if DecodeRecord(ext, buf, info).Some? {
        CodecDoesNotMatter(ext, DecodeRecord(ext, buf, info).value.rest, info, codec, n - 1);
      }
    }
  }

  lemma RecordWithoutCodec(ext: Externals, buf: Bytes, info: BatchInfo, codec: nat)
    ensures DecodeRecord(ext, buf, info) == DecodeRecord(ext, buf, info.(compression := codec))
  {
    hide ReadVarInt, ReadVarLong, ReadOptional, ReadHeaders;
  }

  // A compressed batch holds the records of the plain batch that it inflates to; it fails if it does not inflate.
  lemma CompressedIsPlain(ext: Externals, packed: Bytes, plain: Bytes)
    requires DecodeHeader(ext, packed).Some? && DecodeHeader(ext, plain).Some?
    requires var a, b := DecodeHeader(ext, packed).value, DecodeHeader(ext, plain).value;
             a.info.compression != 0 && b.info == a.info.(compression := 0)
    ensures var a, b := DecodeHeader(ext, packed).value, DecodeHeader(ext, plain).value;
            var unpacked := ext.inflate(a.info.compression, a.records);
            var p, q := DecodeBatch(ext, packed), DecodeBatch(ext, plain);
            && (unpacked.None? ==> p.None?)
            && (unpacked == Some(b.records) ==>
                  && (p.Some? <==> q.Some?)
                  && (p.Some? ==> p.value.value == q.value.value.(compression := a.info.compression)))
  {
    hide DecodeRecords, DecodeHeader;
    var a, b := DecodeHeader(ext, packed).value, DecodeHeader(ext, plain).value;
    VersionIsTwo(ext, packed);
    VersionIsTwo(ext, plain);
    CodecDoesNotMatter(ext, b.records, a.info, 0, a.info.recordCount);
  }

  lemma VersionIsTwo(ext: Externals, buf: Bytes)
    requires DecodeHeader(ext, buf).Some?
    ensures |buf| >= 61 && buf[16] == 2 && DecodeHeader(ext, buf).value.info.recordCount >= 0
  {
    HeaderIsRead(ext, buf);
  }

  // ----- A sample

  function Sample(): Record {
    Record(false, false, false, 0, 7, 0, Creation, 101, 1, 1001, Some([107]), Some([118]), [RecordHeader([104], None)])
  }

  // Key k, value v and a header h without a value, one after the least offset and timestamp.
  lemma SampleIsLaidOut()
    ensures EncodeRecord(Sample(), 100, 1000) == Some([22, 0, 2, 2, 2, 107, 2, 118, 2, 2, 104, 1])
  {
    hide VarIntBytes, VarLongBytes, OptionalBytes, HeaderBytes, TimestampDelta, OffsetDelta;
    var r := Sample();
    SampleParts(r);
    assert |r.headers| == 1;
    var body := RecordBody(r, 100, 1000);
    assert body == [0] + [2] + [2] + [2, 107] + [2, 118] + [2] + [2, 104, 1];
    assert body == [0, 2, 2, 2, 107, 2, 118, 2, 2, 104, 1];
    assert [22] + body == [22, 0, 2, 2, 2, 107, 2, 118, 2, 2, 104, 1];
    ElevenIsWritten();
  }

  lemma SampleIsRead(ext: Externals, info: BatchInfo)
    requires ext.utf8([104])
    ensures var d := DecodeBody(ext, [0, 2, 2, 2, 107, 2, 118, 2, 2, 104, 1], info);
            && d.Some? && d.value.key == Some([107]) && d.value.value == Some([118])
            && d.value.headers == [RecordHeader([104], None)]
  {
    hide VarIntBytes, VarLongBytes, OptionalBytes, HeaderBytes, TimestampDelta, OffsetDelta, DecodeBody;
    var r := Sample();
    SampleParts(r);
    assert |r.headers| == 1;
    assert RecordBody(r, 100, 1000) == [0] + [2] + [2] + [2, 107] + [2, 118] + [2] + [2, 104, 1];
    assert RecordBody(r, 100, 1000) == [0, 2, 2, 2, 107, 2, 118, 2, 2, 104, 1];
    BodyRoundTrip(ext, r, 100, 1000, info);
  }

  lemma SampleParts(r: Record)
    requires r == Sample()
    ensures TimestampDelta(r, 1000) == 1 && OffsetDelta(r, 100) == 1 && BodyFits(r, 100)
    ensures VarLongBytes(1) == [2] && VarIntBytes(1) == [2]
    ensures OptionalBytes(r.key) == [2, 107] && OptionalBytes(r.value) == [2, 118]
    ensures HeaderBytes(r.headers) == [2, 104, 1]
  {
    ZigzagValues();
    hide VarIntBytes;
    assert |[107]| == 1 && |[118]| == 1;
    var h := r.headers[0];
    assert r.headers[1..] == [];
    assert OptionalBytes(h.value) == [1];
    assert HeaderBytes(r.headers) == VarIntBytes(1) + [104] + [1] + [];
  }

  lemma ElevenIsWritten()
    ensures VarIntBytes(11) == [22]
  {
  }

  lemma FixedWidthValues()
    ensures I16Bytes(1) == [0, 1] && I16Bytes(-2) == [0xff, 0xfe]
    ensures I32Bytes(1) == [0, 0, 0, 1] && I32Bytes(-2) == [0xff, 0xff, 0xff, 0xfe]
    ensures U32Bytes(1) == [0, 0, 0, 1] && U32Bytes(0xffff_fffe) == [0xff, 0xff, 0xff, 0xfe]
    ensures I64Bytes(1) == [0, 0, 0, 0, 0, 0, 0, 1]
  {
    ZeroBytes();
    OnesBytes();
    assert BeBytes(0, 3) + [1] == [0, 0, 0, 1] && BeBytes(0, 7) + [1] == [0, 0, 0, 0, 0, 0, 0, 1];
  }

  lemma ZeroBytes()
    ensures BeBytes(0, 1) == [0] && BeBytes(0, 3) == [0, 0, 0] && BeBytes(0, 7) == [0, 0, 0, 0, 0, 0, 0]
  {
    assert BeBytes(0, 0) == [];
    assert BeBytes(0, 2) == [0, 0];
    assert BeBytes(0, 4) == [0, 0, 0, 0];
    assert BeBytes(0, 5) == [0, 0, 0, 0, 0];
    assert BeBytes(0, 6) == [0, 0, 0, 0, 0, 0];
  }

  lemma OnesBytes()
    ensures BeBytes(0xff, 1) == [0xff] && BeBytes(0xff_ffff, 3) == [0xff, 0xff, 0xff]
  {
    assert BeBytes(0, 0) == [];
    assert BeBytes(0xffff, 2) == [0xff, 0xff];
  }
}
