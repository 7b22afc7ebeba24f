/** The encoder and decoder as they run: a growing buffer with back-filled gaps, and a moving cursor. */
module RecordBuffers {
  import opened Text
  import opened Octets
  import opened Varints
  import opened RecordFormat

  class Buffer {
    var data: Bytes

    constructor ()
      ensures data == []
    {
      data := [];
    }

    method Put(bs: Bytes)
      modifies this
      ensures data == old(data) + bs
    {
      data := data + bs;
    }

    method PutUnsigned(v: nat)
      modifies this
      ensures data == old(data) + EncodeUnsigned(v)
    {
      var value := v;
      while value >= 0x80
        invariant data + EncodeUnsigned(value) == old(data) + EncodeUnsigned(v)
      {
        data := data + [value % 0x80 + 0x80];
        value := value / 0x80;
      }
      data := data + [value];
    }

    method PutVarInt(x: int)
      requires IsI32(x)
      modifies this
      ensures data == old(data) + VarIntBytes(x)
    {
      PutUnsigned(Zigzag(x));
    }

    method PutVarLong(x: int)
      requires IsI64(x)
      modifies this
      ensures data == old(data) + VarLongBytes(x)
    {
      PutUnsigned(Zigzag(x));
    }

    // Reserves `n` bytes and returns where they are.
    method PutGap(n: nat) returns (gap: nat)
      modifies this
      ensures gap == |old(data)| && |data| == gap + n && data[..gap] == old(data)
    {
      gap := |data|;
      data := data + seq(n, i => 0);
    }

    method FillGap(gap: nat, bs: Bytes)
      requires gap + |bs| <= |data|
      modifies this
      ensures |data| == |old(data)|
      ensures data[..gap] == old(data)[..gap]
      ensures data[gap..gap + |bs|] == bs
      ensures data[gap + |bs|..] == old(data)[gap + |bs|..]
    {
      data := data[..gap] + bs + data[gap + |bs|..];
    }

    method PutOptional(value: Option<Bytes>) returns (ok: bool)
      modifies this
      ensures ok <==> Fits(value)
      ensures ok ==> data == old(data) + OptionalBytes(value)
      ensures !ok ==> data == old(data)
    {
      match value
      case None =>
        PutVarInt(-1);
        ok := true;
      case Some(bs) =>
        if |bs| > MAX_I32 {
          return false;
        }
        PutVarInt(|bs|);
        Put(bs);
        ok := true;
        assert old(data) + VarIntBytes(|bs|) + bs == old(data) + OptionalBytes(value);
    }

    method PutHeaders(headers: seq<RecordHeader>) returns (ok: bool)
      modifies this
      ensures ok <==> HeadersFit(headers)
      ensures ok ==> data == old(data) + VarIntBytes(|headers|) + HeaderBytes(headers)
    {
      hide VarIntBytes, OptionalBytes, Fits;
      if |headers| > MAX_I32 {
        return false;
      }
      PutVarInt(|headers|);
      ghost var start := data;
      for i := 0 to |headers|
        invariant forall j | 0 <= j < i :: |headers[j].key| <= MAX_I32 && Fits(headers[j].value)
        invariant data == start + HeaderBytes(headers[..i])
      {
        if |headers[i].key| > MAX_I32 {
          return false;
        }
        PutVarInt(|headers[i].key|);
        Put(headers[i].key);
        var fits := PutOptional(headers[i].value);
        if !fits {
          return false;
        }
        MoreHeaders(headers, i);
        assert data == start + HeaderBytes(headers[..i + 1]);
      }
      assert headers[..|headers|] == headers;
      ok := true;
    }

    // `Record::encode_new`.
    method PutRecord(r: Record, minOffset: int, minTimestamp: int) returns (ok: bool)
      modifies this
      ensures ok <==> EncodeRecord(r, minOffset, minTimestamp).Some?
      ensures ok ==> data == old(data) + EncodeRecord(r, minOffset, minTimestamp).value
      ensures !ok ==> data == old(data)
    {
      hide VarIntBytes, VarLongBytes, OptionalBytes, HeaderBytes, TimestampDelta, OffsetDelta, Fits, HeadersFit;
      var sized, size := ComputeSize(r, minOffset, minTimestamp);
      if !sized || size > MAX_I32 {
        return false;
      }
      ghost var body := RecordBody(r, minOffset, minTimestamp);
      PutVarInt(size);
      ghost var start := data;
      Put([0]);
      PutVarLong(TimestampDelta(r, minTimestamp));
      PutVarInt(OffsetDelta(r, minOffset));
      ok := PutOptional(r.key);
      ok := PutOptional(r.value);
      ok := PutHeaders(r.headers);
      assert data == start + body;
      assert start + body == old(data) + (VarIntBytes(size) + body);
    }

    // `encode_new_records`.
    method PutRecords(records: seq<Record>, minOffset: int, minTimestamp: int) returns (ok: bool)
      modifies this
      ensures ok <==> EncodeRecords(records, minOffset, minTimestamp).Some?
      ensures ok ==> data == old(data) + EncodeRecords(records, minOffset, minTimestamp).value
      ensures old(data) <= data
    {
      hide EncodeRecord;
      for i := 0 to |records|
        invariant old(data) <= data
        invariant EncodeRecords(records, minOffset, minTimestamp).Some?
                  <==> EncodeRecords(records[i..], minOffset, minTimestamp).Some?
        invariant EncodeRecords(records, minOffset, minTimestamp).Some? ==>
                    old(data) + EncodeRecords(records, minOffset, minTimestamp).value
                    == data + EncodeRecords(records[i..], minOffset, minTimestamp).value
      {
        assert records[i..][1..] == records[i + 1..] && records[i..][0] == records[i];
        ghost var before := data;
        ok := PutRecord(records[i], minOffset, minTimestamp);
        if !ok {
          return false;
        }
        if EncodeRecords(records[i..], minOffset, minTimestamp).Some? {
          var first := EncodeRecord(records[i], minOffset, minTimestamp).value;
          var rest := EncodeRecords(records[i + 1..], minOffset, minTimestamp).value;
          assert before + (first + rest) == (before + first) + rest;
        }
      }
      assert records[|records|..] == [];
      ok := true;
    }

    // `encode_new_batch`: writes the next batch, with the size and the checksum filled in last, and
    // says how many records it took.
    method PutBatch(ext: Externals, records: seq<Record>) returns (ok: bool, taken: nat)
      requires records != [] && AllWellTyped(ext, records)
      modifies this
      ensures taken == RunLength(records)
      ensures ok <==> EncodeBatch(ext, records[..taken]).Some?
      ensures ok ==> data == old(data) + EncodeBatch(ext, records[..taken]).value
      ensures old(data) <= data
    {
      hide EncodeRecords, AllWellTyped, BatchFrame, BatchContentHeader, MinOf, MaxOf, RunLength;
      taken := CountRun(records);
      var run := records[..taken];
      assert AllWellTyped(ext, run) by { PrefixWellTyped(ext, records, taken); }
      var minOffset, minTimestamp := MinOf(Offsets(run)), MinOf(Timestamps(run));
      FieldsInRange(ext, run);
      var sizeGap, crcGap := PutFrame(run[0], minOffset);
      ghost var frame := data;
      assert old(data) <= frame by { assert frame[..|old(data)| + 8][..|old(data)|] == old(data); }
      if taken > MAX_I32 {
        return false, taken;
      }
      PutContentHeader(run);
      ok := PutRecords(run, minOffset, minTimestamp);
      if !ok {
        return;
      }
      ghost var content := BatchContentHeader(run) + EncodeRecords(run, minOffset, minTimestamp).value;
      assert data == frame + content;
      if |data| - sizeGap - 4 > MAX_I32 {
        return false, taken;
      }
      CloseFrame(ext, sizeGap, crcGap, old(data), run[0], minOffset, content);
    }

    // Everything before the checksummed content, with its two gaps open.
    method PutFrame(first: Record, minOffset: int) returns (sizeGap: nat, crcGap: nat)
      requires IsI64(minOffset) && IsI32(first.leaderEpoch)
      modifies this
      ensures sizeGap == |old(data)| + 8 && crcGap == |old(data)| + 17 && |data| == crcGap + 4
      ensures FrameOpened(old(data), first, minOffset, data)
    {
      hide I64Bytes, I32Bytes;
      Put(I64Bytes(minOffset));
      sizeGap := PutGap(4);
      Put(I32Bytes(first.leaderEpoch));
      Put([2]);
      ghost var filled := data;
      crcGap := PutGap(4);
      assert data[..|old(data)| + 8] == filled[..|old(data)| + 8];
      assert data[|old(data)| + 12..|old(data)| + 17] == filled[|old(data)| + 12..];
    }

    // Fills the size gap and then the checksum gap.
    method CloseFrame(ext: Externals, sizeGap: nat, crcGap: nat,
                      ghost before: Bytes, ghost first: Record, ghost minOffset: int, ghost content: Bytes)
      requires IsI64(minOffset) && IsI32(first.leaderEpoch) && 9 + |content| <= MAX_I32
      requires sizeGap == |before| + 8 && crcGap == |before| + 17 && |data| == crcGap + 4 + |content|
      requires FrameOpened(before, first, minOffset, data) && data[crcGap + 4..] == content
      modifies this
      ensures data == before + BatchFrame(ext, first, minOffset, content)
    {
      hide I64Bytes, I32Bytes, U32Bytes, BatchFrame;
      ghost var d0 := data;
      FillGap(sizeGap, I32Bytes(|data| - sizeGap - 4));
      ghost var d1 := data;
      assert d1[crcGap + 4..] == d1[sizeGap + 4..][9..] == d0[sizeGap + 4..][9..] == content;
      assert d1[|before| + 12..|before| + 17] == d1[sizeGap + 4..][..5] == d0[sizeGap + 4..][..5];
      FillGap(crcGap, U32Bytes(ext.crc(data[crcGap + 4..])));
      assert data[..|before| + 8] == data[..crcGap][..|before| + 8] == d1[..crcGap][..|before| + 8] == d1[..sizeGap];
      assert data[sizeGap..sizeGap + 4] == data[..crcGap][sizeGap..sizeGap + 4] == d1[..crcGap][sizeGap..sizeGap + 4];
      assert data[|before| + 12..|before| + 17] == data[..crcGap][|before| + 12..] == d1[..crcGap][|before| + 12..];
      FilledFrame(before, ext, first, minOffset, content, data);
    }

    // Appends to a header that is being written at `start`.
    method PutContentHeader(run: seq<Record>)
      requires run != [] && |run| <= MAX_I32
      requires forall i | 0 <= i < |run| :: IsI64(run[i].offset) && IsI64(run[i].timestamp)
      requires IsI64(run[0].producerId) && IsI16(run[0].producerEpoch)
      modifies this
      ensures data == old(data) + BatchContentHeader(run)
    {
      hide I16Bytes, I32Bytes, I64Bytes, BaseSequence, MinOf, MaxOf, WrapI32, WrapI64, Attributes, IsI64, IsI16,
           IsI32, Offsets, Timestamps;
      HeaderFieldsFit(run);
      var first := run[0];
      var minOffset, maxOffset := MinOf(Offsets(run)), MaxOf(Offsets(run));
      Put([0, Attributes(first)]);
      Put(I32Bytes(WrapI32(WrapI64(maxOffset - minOffset))));
      Put(I64Bytes(MinOf(Timestamps(run))));
      Put(I64Bytes(MaxOf(Timestamps(run))));
      Put(I64Bytes(first.producerId));
      Put(I16Bytes(first.producerEpoch));
      Put(I32Bytes(BaseSequence(first, minOffset)));
      Put(I32Bytes(|run|));
    }

    // `encode_new`: batches until the records are used up.
    method PutAll(ext: Externals, records: seq<Record>) returns (ok: bool)
      requires AllWellTyped(ext, records)
      modifies this
      ensures ok <==> Encode(ext, records).Some?
      ensures ok ==> data == old(data) + Encode(ext, records).value
      ensures old(data) <= data
    {
      hide EncodeBatch, AllWellTyped, Encode, RunLength;
      assert records[0..] == records;
      var done := 0;
      while done < |records|
        invariant done <= |records| && AllWellTyped(ext, records[done..]) && old(data) <= data
        invariant Encode(ext, records).Some? <==> Encode(ext, records[done..]).Some?
        invariant Encode(ext, records).Some? ==>
                    old(data) + Encode(ext, records).value == data + Encode(ext, records[done..]).value
      {
        var rest := records[done..];
        EncodeStep(ext, rest);
        ghost var before := data;
        var taken;
        ok, taken := PutBatch(ext, rest);
        if !ok {
          return;
        }
        assert rest[taken..] == records[done + taken..];
        if Encode(ext, rest).Some? {
          var batch, tail := EncodeBatch(ext, rest[..taken]).value, Encode(ext, rest[taken..]).value;
          assert before + (batch + tail) == (before + batch) + tail;
        }
        done := done + taken;
      }
      assert records[|records|..] == [];
      NothingEncodes(ext);
      ok := true;
    }
  }

  lemma NothingEncodes(ext: Externals)
    ensures AllWellTyped(ext, []) && Encode(ext, []) == Some([])
  {
  }

  // `take_while` and `count` over the records after the first.
  method CountRun(records: seq<Record>) returns (n: nat)
    requires records != []
    ensures n == RunLength(records)
  {
    n := 1;
    while n < |records| && SameBatch(records[0], records[n])
      invariant 1 <= n <= |records|
      invariant RunLength(records) == n + MatchLength(records[0], records[n..])
    {
      assert records[n..][1..] == records[n + 1..];
      n := n + 1;
    }
  }

  lemma HeaderFieldsFit(run: seq<Record>)
    requires run != [] && |run| <= MAX_I32
    requires forall i | 0 <= i < |run| :: IsI64(run[i].offset) && IsI64(run[i].timestamp)
    ensures Offsets(run) != [] && Timestamps(run) != [] && IsI32(|run|)
    ensures IsI64(MinOf(Timestamps(run))) && IsI64(MaxOf(Timestamps(run)))
  {
  }

  lemma FieldsInRange(ext: Externals, run: seq<Record>)
    requires run != [] && AllWellTyped(ext, run)
    ensures IsI64(MinOf(Offsets(run))) && IsI32(run[0].leaderEpoch)
    ensures forall i | 0 <= i < |run| :: IsI64(run[i].offset) && IsI64(run[i].timestamp)
    ensures IsI64(run[0].producerId) && IsI16(run[0].producerEpoch)
  {
    var s := Offsets(run);
    var i :| 0 <= i < |s| && s[i] == MinOf(s);
    assert WellTyped(ext, run[i]) && WellTyped(ext, run[0]);
  }

  // What a frame holds outside its gaps.
  ghost predicate FrameOpened(before: Bytes, first: Record, minOffset: int, data: Bytes)
    requires IsI64(minOffset) && IsI32(first.leaderEpoch)
  {
    && |data| >= |before| + 21
    && data[..|before| + 8] == before + I64Bytes(minOffset)
    && data[|before| + 12..|before| + 17] == I32Bytes(first.leaderEpoch) + [2]
  }

  lemma PrefixWellTyped(ext: Externals, records: seq<Record>, n: nat)
    requires AllWellTyped(ext, records) && n <= |records|
    ensures AllWellTyped(ext, records[..n]) && AllWellTyped(ext, records[n..])
  {
  }

  lemma EncodeStep(ext: Externals, records: seq<Record>)
    requires records != [] && AllWellTyped(ext, records)
    ensures var n := RunLength(records);
            && AllWellTyped(ext, records[..n]) && AllWellTyped(ext, records[n..])
            && Encode(ext, records)
               == if EncodeBatch(ext, records[..n]).Some? && Encode(ext, records[n..]).Some?
                  then Some(EncodeBatch(ext, records[..n]).value + Encode(ext, records[n..]).value)
                  else None
  {
    hide EncodeBatch, WellTyped;
  }

  // What the two back-filled gaps leave in the buffer.
  lemma FilledFrame(before: Bytes, ext: Externals, first: Record, minOffset: int, content: Bytes, data: Bytes)
    requires IsI64(minOffset) && IsI32(first.leaderEpoch) && 9 + |content| <= MAX_I32
    requires |data| == |before| + 21 + |content|
    requires data[..|before| + 8] == before + I64Bytes(minOffset)
    requires data[|before| + 8..|before| + 12] == I32Bytes(9 + |content|)
    requires data[|before| + 12..|before| + 17] == I32Bytes(first.leaderEpoch) + [2]
    requires data[|before| + 17..|before| + 21] == U32Bytes(ext.crc(content))
    requires data[|before| + 21..] == content
    ensures data == before + BatchFrame(ext, first, minOffset, content)
  {
    hide I64Bytes, I32Bytes, U32Bytes;
    var n := |before|;
    assert data == data[..n + 8] + data[n + 8..n + 12] + data[n + 12..n + 17] + data[n + 17..n + 21] + data[n + 21..];
  }

  lemma {:induction false} MoreHeaders(headers: seq<RecordHeader>, i: nat)
    requires i < |headers|
    requires forall j | 0 <= j <= i :: |headers[j].key| <= MAX_I32 && Fits(headers[j].value)
    ensures HeaderBytes(headers[..i + 1])
            == HeaderBytes(headers[..i]) + VarIntBytes(|headers[i].key|) + headers[i].key
               + OptionalBytes(headers[i].value)
    decreases i
  {
    hide VarIntBytes, OptionalBytes;
    if i == 0 {
      assert headers[..1][1..] == [] && headers[..0] == [];
    } else {
      MoreHeaders(headers[1..], i - 1);
      assert headers[..i + 1][1..] == headers[1..][..i] && headers[..i][1..] == headers[1..][..i - 1];
    }
  }

  // ----- The computed size of a record

  function VarIntSize(x: int): nat
    requires IsI32(x)
  {
    UnsignedSize(Zigzag(x))
  }

  method ComputeOptional(value: Option<Bytes>) returns (ok: bool, size: nat)
    ensures ok <==> Fits(value)
    ensures ok ==> size == |OptionalBytes(value)|
  {
    match value
    case None =>
      SizeIsLength(-1);
      return true, VarIntSize(-1);
    case Some(bs) =>
      if |bs| > MAX_I32 {
        return false, 0;
      }
      SizeIsLength(|bs|);
      return true, VarIntSize(|bs|) + |bs|;
  }

  // `compute_size_new`: what is written after the size prefix, or the error that writing would meet.
  method ComputeSize(r: Record, minOffset: int, minTimestamp: int) returns (ok: bool, size: nat)
    ensures ok <==> BodyFits(r, minOffset)
    ensures ok ==> size == |RecordBody(r, minOffset, minTimestamp)|
  {
    hide VarIntBytes, VarLongBytes, OptionalBytes, UnsignedSize, Zigzag, TimestampDelta, OffsetDelta, Fits;
    if !IsI32(OffsetDelta(r, minOffset)) {
      return false, 0;
    }
    size := 1;
    VarSizes(TimestampDelta(r, minTimestamp));
    size := size + UnsignedSize(Zigzag(TimestampDelta(r, minTimestamp)));
    VarSizes(OffsetDelta(r, minOffset));
    size := size + UnsignedSize(Zigzag(OffsetDelta(r, minOffset)));
    var fits, part := ComputeOptional(r.key);
    if !fits {
      return false, 0;
    }
    size := size + part;
    fits, part := ComputeOptional(r.value);
    if !fits {
      return false, 0;
    }
    size := size + part;
    if |r.headers| > MAX_I32 {
      return false, 0;
    }
    VarSizes(|r.headers|);
    size := size + UnsignedSize(Zigzag(|r.headers|));
    ghost var fixed := size;
    for i := 0 to |r.headers|
      invariant forall j | 0 <= j < i :: |r.headers[j].key| <= MAX_I32 && Fits(r.headers[j].value)
      invariant size == fixed + |HeaderBytes(r.headers[..i])|
    {
      var h := r.headers[i];
      if |h.key| > MAX_I32 {
        return false, 0;
      }
      VarSizes(|h.key|);
      fits, part := ComputeOptional(h.value);
      if !fits {
        return false, 0;
      }
      MoreHeaders(r.headers, i);
      size := size + UnsignedSize(Zigzag(|h.key|)) + |h.key| + part;
    }
    assert r.headers[..|r.headers|] == r.headers;
    ok := true;
  }

  lemma VarSizes(x: int)
    requires IsI64(x)
    ensures Zigzag(x) < TWO_64
    ensures UnsignedSize(Zigzag(x)) == |VarLongBytes(x)|
    ensures IsI32(x) ==> UnsignedSize(Zigzag(x)) == |VarIntBytes(x)|
  {
    SizeIsLength(x);
  }

  // ----- The decoder's cursor

  class Cursor {
    var data: Bytes
    var pos: nat

    ghost predicate Valid()
      reads this
    {
      pos <= |data|
    }

    // What is still to be read.
    function Remaining(): Bytes
      requires Valid()
      reads this
    {
      data[pos..]
    }

    constructor (bytes: Bytes)
      ensures Valid() && Remaining() == bytes && data == bytes && pos == 0
    {
      data, pos := bytes, 0;
    }

    method GetBytes(n: nat) returns (bytes: Option<Bytes>)
      requires Valid()
      modifies `pos
      ensures Valid()
      ensures match ReadBytes(old(Remaining()), n)
              case None => bytes.None? && pos == old(pos)
              case Some(p) => bytes == Some(p.value) && Remaining() == p.rest
    {
      if |data| - pos < n {
        return None;
      }
      bytes := Some(data[pos..pos + n]);
      assert data[pos..][..n] == data[pos..pos + n] && data[pos..][n..] == data[pos + n..];
      pos := pos + n;
    }

    // The shared loop of the unsigned varint decoders.
    method GetUnsigned(limit: nat, modulus: nat) returns (value: Option<nat>)
      requires Valid() && modulus > 0
      modifies `pos
      ensures Valid()
      ensures match DecodeUnsignedFrom(old(Remaining()), 0, 0, limit, modulus)
              case None => value.None?
              case Some(p) => value == Some(p.value) && Remaining() == p.rest
    {
      var acc: nat, i := 0, 0;
      while i < limit
        invariant Valid() && i <= limit
        invariant DecodeUnsignedFrom(Remaining(), i, acc, limit, modulus)
                  == DecodeUnsignedFrom(old(Remaining()), 0, 0, limit, modulus)
      {
        if pos == |data| {
          return None;
        }
        var b := data[pos];
        assert Remaining()[0] == b && Remaining()[1..] == data[pos + 1..];
        pos := pos + 1;
        acc := acc + (b % 0x80) * Pow128(i) % modulus;
        if b < 0x80 {
          return Some(acc);
        }
        i := i + 1;
      }
      return Some(acc);
    }

    method GetVarInt() returns (value: Option<int>)
      requires Valid()
      modifies `pos
      ensures Valid()
      ensures match ReadVarInt(old(Remaining()))
              case None => value.None?
              case Some(p) => value == Some(p.value) && Remaining() == p.rest
    {
      hide DecodeUnsignedFrom;
      var z := GetUnsigned(5, TWO_32);
      value := if z.None? then None else Some(Unzigzag(z.value));
    }

    method GetVarLong() returns (value: Option<int>)
      requires Valid()
      modifies `pos
      ensures Valid()
      ensures match ReadVarLong(old(Remaining()))
              case None => value.None?
              case Some(p) => value == Some(p.value) && Remaining() == p.rest
    {
      hide DecodeUnsignedFrom;
      var z := GetUnsigned(10, TWO_64);
      value := if z.None? then None else Some(Unzigzag(z.value));
    }

    method GetOptional() returns (value: Option<Option<Bytes>>)
      requires Valid()
      modifies `pos
      ensures Valid()
      ensures match ReadOptional(old(Remaining()))
              case None => value.None?
              case Some(p) => value == Some(p.value) && Remaining() == p.rest
    {
      hide ReadVarInt;
      var length := GetVarInt();
      if length.None? || length.value < -1 {
        return None;
      }
      if length.value == -1 {
        return Some(None);
      }
      var bytes := GetBytes(length.value);
      return if bytes.None? then None else Some(bytes);
    }

    method GetHeaders(ext: Externals, count: nat) returns (headers: Option<seq<RecordHeader>>)
      requires Valid()
      modifies `pos
      ensures Valid() && headers == ReadHeaders(ext, old(Remaining()), count, [])
    {
      hide ReadVarInt, ReadOptional, PutHeader;
      var acc: seq<RecordHeader> := [];
      for i := 0 to count
        invariant Valid()
        invariant ReadHeaders(ext, Remaining(), count - i, acc) == ReadHeaders(ext, old(Remaining()), count, [])
      {
        var length := GetVarInt();
        if length.None? || length.value < 0 {
          return None;
        }
        var key := GetBytes(length.value);
        if key.None? || !ext.utf8(key.value) {
          return None;
        }
        var value := GetOptional();
        if value.None? {
          return None;
        }
        acc := PutHeader(acc, RecordHeader(key.value, value.value));
      }
      return Some(acc);
    }

    // The part of `Record::decode_new` that reads the record's own bytes.
    method GetBody(ext: Externals, info: BatchInfo) returns (record: Option<Record>)
      requires Valid()
      modifies `pos
      ensures Valid() && record == DecodeBody(ext, old(Remaining()), info)
    {
      hide ReadVarInt, ReadVarLong, ReadOptional, ReadHeaders, BuildRecord;
      if pos == |data| {
        return None;
      }
      assert Remaining()[1..] == data[pos + 1..];
      pos := pos + 1;
      var timestampDelta := GetVarLong();
      if timestampDelta.None? {
        return None;
      }
      var offsetDelta := GetVarInt();
      if offsetDelta.None? {
        return None;
      }
      var key := GetOptional();
      if key.None? {
        return None;
      }
      var value := GetOptional();
      if value.None? {
        return None;
      }
      var count := GetVarInt();
      if count.None? || count.value < 0 {
        return None;
      }
      var headers := GetHeaders(ext, count.value);
      if headers.None? {
        return None;
      }
      return Some(BuildRecord(info, timestampDelta.value, offsetDelta.value, key.value, value.value, headers.value));
    }

    // `Record::decode_new`.
    method GetRecord(ext: Externals, info: BatchInfo) returns (record: Option<Record>)
      requires Valid()
      modifies `pos
      ensures Valid()
      ensures match DecodeRecord(ext, old(Remaining()), info)
              case None => record.None?
              case Some(p) => record == Some(p.value) && Remaining() == p.rest
    {
      hide ReadVarInt, DecodeBody;
      var size := GetVarInt();
      if size.None? || size.value < 0 {
        return None;
      }
      var body := GetBytes(size.value);
      if body.None? {
        return None;
      }
      var inner := new Cursor(body.value);
      record := inner.GetBody(ext, info);
    }

    // `decode_new_records`.
    method GetRecords(ext: Externals, info: BatchInfo, count: nat) returns (records: Option<seq<Record>>)
      requires Valid()
      modifies `pos
      ensures Valid() && records == DecodeRecords(ext, old(Remaining()), info, count)
    {
      hide DecodeRecord;
      var acc: seq<Record> := [];
      for i := 0 to count
        invariant Valid()
        invariant DecodeRecords(ext, old(Remaining()), info, count).Some?
                  <==> DecodeRecords(ext, Remaining(), info, count - i).Some?
        invariant DecodeRecords(ext, old(Remaining()), info, count).Some? ==>
                    DecodeRecords(ext, old(Remaining()), info, count).value
                    == acc + DecodeRecords(ext, Remaining(), info, count - i).value
      {
        var record := GetRecord(ext, info);
        if record.None? {
          return None;
        }
        acc := acc + [record.value];
      }
      assert acc + [] == acc;
      return Some(acc);
    }

    // The next `n` bytes, as the decoders of the fixed-width integers read them.
    method GetField(n: nat) returns (field: Option<Bytes>)
      requires Valid()
      modifies `pos
      ensures Valid()
      ensures if old(pos) + n <= |data| then field == Some(data[old(pos)..old(pos) + n]) && pos == old(pos) + n
              else field.None?
    {
      if |data| - pos < n {
        return None;
      }
      field := Some(data[pos..pos + n]);
      pos := pos + n;
    }

    // The fields from the last offset delta to the record count; two of them are read and dropped.
    method GetCounts() returns (counts: Option<Counts>)
      requires Valid() && pos == 11
      modifies `pos
      ensures Valid()
      ensures if |data| < CONTENT_SIZE then counts.None?
              else counts == Some(ContentCounts(data)) && pos == CONTENT_SIZE
    {
      hide I16Value, I32Value, I64Value;
      var lastOffsetDelta := GetField(4);
      if lastOffsetDelta.None? {
        return None;
      }
      var minTimestamp := GetField(8);
      if minTimestamp.None? {
        return None;
      }
      var maxTimestamp := GetField(8);
      if maxTimestamp.None? {
        return None;
      }
      var producerId := GetField(8);
      if producerId.None? {
        return None;
      }
      var producerEpoch := GetField(2);
      if producerEpoch.None? {
        return None;
      }
      var baseSequence := GetField(4);
      if baseSequence.None? {
        return None;
      }
      var recordCount := GetField(4);
      if recordCount.None? {
        return None;
      }
      counts := Some(Counts(I64Value(minTimestamp.value), I64Value(producerId.value), I16Value(producerEpoch.value),
                            I32Value(baseSequence.value), I32Value(recordCount.value)));
    }

    // The fields after the batch length, one after the other; what is left are the records.
    method GetContent(ext: Externals, minOffset: int) returns (info: Option<BatchInfo>)
      requires Valid() && pos == 0
      modifies `pos
      ensures Valid()
      ensures info == if |data| >= CONTENT_SIZE && ContentAccepted(ext, data) then Some(ContentInfo(minOffset, data))
              else None
      ensures info.Some? ==> pos == CONTENT_SIZE
    {
      hide I16Value, I32Value, I64Value, U32Value, Bit;
      var leaderEpoch := GetField(4);
      if leaderEpoch.None? {
        return None;
      }
      var magic := GetField(1);
      if magic.None? || magic.value[0] != 2 {
        return None;
      }
      var crc := GetField(4);
      if crc.None? || U32Value(crc.value) != ext.crc(data[pos..]) {
        return None;
      }
      var attributes := GetField(2);
      if attributes.None? || attributes.value[1] % 8 > 4 {
        return None;
      }
      var flags := attributes.value[1];
      var counts := GetCounts();
      if counts.None? || counts.value.recordCount < 0 {
        return None;
      }
      var c := counts.value;
      info := Some(BatchInfo(c.recordCount, if Bit(flags, 8) then LogAppend else Creation, minOffset, c.minTimestamp,
                             c.baseSequence, Bit(flags, 16), Bit(flags, 32), Bit(flags, 64),
                             I32Value(leaderEpoch.value), c.producerId, c.producerEpoch, flags % 8));
    }

    // `decode_batch_header_inner`; the records of the batch are returned undecoded.
    method GetHeader(ext: Externals) returns (header: Option<(BatchInfo, Bytes)>)
      requires Valid()
      modifies `pos
      ensures Valid()
      ensures match DecodeHeader(ext, old(Remaining()))
              case None => header.None?
              case Some(d) => header == Some((d.info, d.records)) && Remaining() == d.rest
    {
      hide HeaderFields, HeaderAccepted, ContentAccepted, ContentInfo, I32Value, I64Value;
      ghost var buf := Remaining();
      var minOffset := GetField(8);
      if minOffset.None? {
        return None;
      }
      var length := GetField(4);
      if length.None? {
        return None;
      }
      assert length.value == buf[8..12] && minOffset.value == buf[..8];
      var batchLength := I32Value(length.value);
      if batchLength < 0 {
        return None;
      }
      var content := GetField(batchLength);
      if content.None? {
        return None;
      }
      ghost var batch := buf[..12 + batchLength];
      assert batch[12..] == content.value && batch[..8] == buf[..8] && buf[12 + batchLength..] == Remaining();
      if |batch| >= FIXED_BATCH_SIZE {
        ContentMatches(ext, batch);
      }
      var inner := new Cursor(content.value);
      var info := inner.GetContent(ext, I64Value(minOffset.value));
      if info.Some? {
        header := Some((info.value, inner.Remaining()));
      } else {
        header := None;
      }
    }

    // `decode_into_vec`.
    method GetBatch(ext: Externals) returns (decoded: Option<RecordSet>)
      requires Valid()
      modifies `pos
      ensures Valid()
      ensures match DecodeBatch(ext, old(Remaining()))
              case None => decoded.None?
              case Some(p) => decoded == Some(p.value) && Remaining() == p.rest
    {
      hide DecodeHeader, DecodeRecords;
      if |data| - pos < 17 || data[pos + 16] != 2 {
        return None;
      }
      var header := GetHeader(ext);
      if header.None? {
        return None;
      }
      var (info, bytes) := header.value;
      var plain := if info.compression == 0 then Some(bytes) else ext.inflate(info.compression, bytes);
      if plain.None? {
        return None;
      }
      var inner := new Cursor(plain.value);
      var records := inner.GetRecords(ext, info, info.recordCount);
      return if records.None? then None else Some(RecordSet(info.compression, records.value));
    }

    // `decode_all`.
    method GetAll(ext: Externals) returns (sets: Option<seq<RecordSet>>)
      requires Valid()
      modifies `pos
      ensures Valid() && sets == DecodeAll(ext, old(Remaining()))
    {
      hide DecodeBatch;
      var acc: seq<RecordSet> := [];
      while pos < |data|
        invariant Valid()
        invariant DecodeAll(ext, old(Remaining())).Some? <==> DecodeAll(ext, Remaining()).Some?
        invariant DecodeAll(ext, old(Remaining())).Some? ==>
                    DecodeAll(ext, old(Remaining())).value == acc + DecodeAll(ext, Remaining()).value
        decreases |Remaining()|
      {
        var decoded := GetBatch(ext);
        if decoded.None? {
          return None;
        }
        acc := acc + [decoded.value];
      }
      assert acc + [] == acc;
      return Some(acc);
    }
  }

  // ----- The part of a batch after its length

  const CONTENT_SIZE: nat := 49

  predicate ContentAccepted(ext: Externals, content: Bytes)
    requires |content| >= CONTENT_SIZE
  {
    && content[4] == 2
    && U32Value(content[5..9]) == ext.crc(content[9..])
    && content[10] % 8 <= 4
    && I32Value(content[45..49]) >= 0
  }

  datatype Counts = Counts(minTimestamp: int, producerId: int, producerEpoch: int, baseSequence: int, recordCount: int)

  function ContentCounts(content: Bytes): Counts
    requires |content| >= CONTENT_SIZE
  {
    Counts(I64Value(content[15..23]), I64Value(content[31..39]), I16Value(content[39..41]), I32Value(content[41..45]),
           I32Value(content[45..49]))
  }

  function ContentInfo(minOffset: int, content: Bytes): BatchInfo
    requires |content| >= CONTENT_SIZE
  {
    var c, flags := ContentCounts(content), content[10];
    BatchInfo(c.recordCount, if Bit(flags, 8) then LogAppend else Creation, minOffset, c.minTimestamp, c.baseSequence,
              Bit(flags, 16), Bit(flags, 32), Bit(flags, 64), I32Value(content[..4]), c.producerId, c.producerEpoch,
              flags % 8)
  }

  lemma ContentMatches(ext: Externals, batch: Bytes)
    requires |batch| >= FIXED_BATCH_SIZE
    ensures HeaderAccepted(ext, batch) == ContentAccepted(ext, batch[12..])
    ensures HeaderFields(batch) == ContentInfo(I64Value(batch[..8]), batch[12..])
    ensures batch[FIXED_BATCH_SIZE..] == batch[12..][CONTENT_SIZE..]
  {
    hide I16Value, I32Value, I64Value, U32Value, Bit;
    ContentSlices(batch);
  }

  lemma ContentSlices(batch: Bytes)
    requires |batch| >= FIXED_BATCH_SIZE
    ensures var content := batch[12..];
            && batch[12..16] == content[..4] && batch[16] == content[4] && batch[17..21] == content[5..9]
            && batch[21..] == content[9..] && batch[22] == content[10]
            && batch[27..35] == content[15..23] && batch[43..51] == content[31..39] && batch[51..53] == content[39..41]
            && batch[53..57] == content[41..45] && batch[57..61] == content[45..49] && batch[61..] == content[49..]
  {
  }
}
