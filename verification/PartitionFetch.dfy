/** Reading a partition: what one fetch returns, and what a consumer that keeps fetching receives. */
module PartitionFetch {
  import opened Text
  import opened Octets
  import opened RecordFormat
  import opened PartitionModel
  import opened PartitionSafety
  import opened PartitionRuns

  // ----- Skipping

  lemma {:induction false} TiledSpan(batches: seq<StoredBatch>, start: int, end: int)
    requires Tiled(batches, start, end)
    ensures start <= end && (batches != [] ==> start < end)
    ensures forall i | 0 <= i < |batches| :: start <= batches[i].baseOffset <= batches[i].lastOffset < end
    ensures batches != [] ==> batches[|batches| - 1].lastOffset == end - 1
  {
    if batches != [] {
      TiledSpan(batches[1..], batches[0].lastOffset + 1, end);
    }
  }

  // The batches from the one that contains `offset` on.
  lemma {:induction false} SkipFinds(batches: seq<StoredBatch>, offset: int, start: int, end: int)
    requires Tiled(batches, start, end) && start <= offset <= end
    ensures var rest := SkipTo(batches, offset);
            && |rest| <= |batches| && rest == batches[|batches| - |rest|..]
            && (rest == [] <==> offset == end)
            && (rest != [] ==>
                  rest[0].baseOffset <= offset <= rest[0].lastOffset && Tiled(rest, rest[0].baseOffset, end))
  {
    if batches != [] && batches[0].lastOffset < offset {
      var rest := SkipTo(batches[1..], offset);
      SkipFinds(batches[1..], offset, batches[0].lastOffset + 1, end);
      assert batches[1..][|batches| - 1 - |rest|..] == batches[|batches| - |rest|..];
    } else {
      TiledSpan(batches, start, end);
    }
  }

  // Skipping to the offset after a batch leaves exactly the batches after it.
  lemma {:induction false} SkipPast(batches: seq<StoredBatch>, k: nat, start: int, end: int)
    requires Tiled(batches, start, end) && k < |batches|
    ensures SkipTo(batches, batches[k].lastOffset + 1) == batches[k + 1..]
  {
    if k == 0 {
      var rest := batches[1..];
      TiledSpan(rest, batches[0].lastOffset + 1, end);
      assert rest != [] ==> rest[0].lastOffset >= batches[0].lastOffset + 1;
    } else {
      TiledSpan(batches[1..], batches[0].lastOffset + 1, end);
      assert batches[k] == batches[1..][k - 1];
      SkipPast(batches[1..], k - 1, batches[0].lastOffset + 1, end);
      assert batches[1..][k..] == batches[k + 1..];
    }
  }

  lemma {:induction false} TiledTwice(batches: seq<StoredBatch>, a: int, start: int, end: int, k: nat)
    requires Tiled(batches, start, end) && k < |batches| && a == batches[k].baseOffset
    ensures Tiled(batches[k..], a, end)
  {
    if k > 0 {
      TiledTwice(batches[1..], a, batches[0].lastOffset + 1, end, k - 1);
      assert batches[1..][k - 1..] == batches[k..];
    } else {
      assert batches[0..] == batches;
    }
  }

  // A longer log only adds batches at the end of what a reader has yet to see.
  lemma {:induction false} SkipGrows(batches: seq<StoredBatch>, more: seq<StoredBatch>, offset: int, start: int,
                                     middle: int, end: int)
    requires Tiled(batches, start, middle) && Tiled(more, middle, end) && offset <= middle
    ensures SkipTo(batches + more, offset) == SkipTo(batches, offset) + more
  {
    if batches == [] {
      assert batches + more == more;
      TiledSpan(more, middle, end);
    } else if batches[0].lastOffset < offset {
      assert (batches + more)[1..] == batches[1..] + more;
      SkipGrows(batches[1..], more, offset, batches[0].lastOffset + 1, middle, end);
    }
  }

  // ----- Taking

  function BytesOf(batches: seq<StoredBatch>): nat {
    if batches == [] then 0 else |batches[0].bytes| + BytesOf(batches[1..])
  }

  lemma {:induction false} JoinedSize(batches: seq<StoredBatch>)
    ensures |JoinBytes(batches)| == BytesOf(batches)
  {
    if batches != [] {
      JoinedSize(batches[1..]);
    }
  }

  predicate NoneEmpty(batches: seq<StoredBatch>) {
    forall i | 0 <= i < |batches| :: batches[i].bytes != []
  }

  // A prefix: within the limit unless it is one batch, and stopped only by the limit.
  predicate MaximalWithin(batches: seq<StoredBatch>, taken: seq<StoredBatch>, limit: nat, size: nat) {
    && taken <= batches
    && (taken == [] || size + BytesOf(taken) <= limit || (size == 0 && |taken| == 1))
    && (|taken| < |batches| ==> size + BytesOf(taken) > 0 && size + BytesOf(taken) + |batches[|taken|].bytes| > limit)
    && (size == 0 && batches != [] ==> taken != [])
  }

  lemma {:induction false} TakeIsMaximal(batches: seq<StoredBatch>, limit: nat, size: nat)
    requires NoneEmpty(batches)
    ensures MaximalWithin(batches, TakeWithin(batches, limit, size), limit, size)
    decreases |batches|
  {
    if TakeWithin(batches, limit, size) != [] {
      TakeIsMaximal(batches[1..], limit, size + |batches[0].bytes|);
      assert TakeWithin(batches, limit, size)[1..] == TakeWithin(batches[1..], limit, size + |batches[0].bytes|);
    }
  }

  lemma StoredAreNotEmpty(ext: Externals, batches: seq<StoredBatch>)
    requires AllStored(ext, batches)
    ensures NoneEmpty(batches)
  {
    hide ValidateBatch;
    forall i | 0 <= i < |batches| ensures batches[i].bytes != [] {
      assert StoredSound(ext, batches[i]);
    }
  }

  // One fetch: batches `from` up to `to` of the log, where `from` contains the offset.
  predicate Slice(log: LogView, offset: int, limit: nat, from: nat, to: nat) {
    && from <= to <= |log.batches|
    && FetchBatches(log, offset, limit) == log.batches[from..to]
    && (from == |log.batches| <==> offset == log.nextOffset)
    && (from < |log.batches| ==> from < to && log.batches[from].baseOffset <= offset <= log.batches[from].lastOffset)
    && (BytesOf(log.batches[from..to]) <= limit || to == from + 1)
    && (to < |log.batches| ==> BytesOf(log.batches[from..to]) + |log.batches[to].bytes| > limit)
  }

  // Within the range of offsets a fetch succeeds with a maximal slice of the log and its end offset.
  lemma FetchIsSlice(ext: Externals, log: LogView, offset: int, limit: nat) returns (from: nat, to: nat)
    requires LogSound(ext, log) && 0 <= offset <= log.nextOffset
    ensures Slice(log, offset, limit, from, to)
    ensures Fetch(log, offset, limit) == Some(FetchSnapshot(JoinBytes(log.batches[from..to]), log.nextOffset))
    ensures |JoinBytes(log.batches[from..to])| == BytesOf(log.batches[from..to])
  {
    hide Sequenced, WindowSound, EpochsSound, StoredSound, Tiled, SkipTo, TakeWithin, BytesOf, JoinBytes;
    var batches, rest := log.batches, SkipTo(log.batches, offset);
    SkipFinds(batches, offset, 0, log.nextOffset);
    StoredAreNotEmpty(ext, batches);
    from := |batches| - |rest|;
    TakeIsMaximal(rest, limit, 0);
    var taken := TakeWithin(rest, limit, 0);
    to := from + |taken|;
    assert batches[from..to] == taken;
    assert to < |batches| ==> batches[to] == rest[|taken|];
    assert taken == [] ==> BytesOf(taken) == 0 by { NoBytes(); }
    JoinedSize(taken);
  }

  lemma NoBytes()
    ensures BytesOf([]) == 0
  {
  }

  // ----- Consuming

  // A consumer polls logs as they grow, with a limit of its own each time.
  datatype Poll = Poll(log: LogView, limit: nat)

  ghost predicate Extends(ext: Externals, log: LogView, later: LogView) {
    && LogSound(ext, log) && LogSound(ext, later)
    && log.batches <= later.batches && log.nextOffset <= later.nextOffset
  }

  ghost predicate Growing(ext: Externals, polls: seq<Poll>) {
    && (forall i | 0 <= i < |polls| :: LogSound(ext, polls[i].log))
    && forall i, j | 0 <= i <= j < |polls| :: Extends(ext, polls[i].log, polls[j].log)
  }

  // Where the next fetch starts: after the last offset returned.
  function Advance(position: int, batches: seq<StoredBatch>): int {
    if batches == [] then position else batches[|batches| - 1].lastOffset + 1
  }

  function Position(polls: seq<Poll>, start: int): int {
    if polls == [] then start
    else
      var n := |polls| - 1;
      var p := Position(polls[..n], start);
      Advance(p, FetchBatches(polls[n].log, p, polls[n].limit))
  }

  function Received(polls: seq<Poll>, start: int): seq<StoredBatch> {
    if polls == [] then []
    else
      var n := |polls| - 1;
      Received(polls[..n], start) + FetchBatches(polls[n].log, Position(polls[..n], start), polls[n].limit)
  }

  // Reading from `p` what has been read so far from `start`.
  predicate CaughtUp(log: LogView, start: int, p: int, received: seq<StoredBatch>) {
    start <= p <= log.nextOffset && received + SkipTo(log.batches, p) == SkipTo(log.batches, start)
  }

  lemma CaughtUpLater(ext: Externals, log: LogView, later: LogView, start: int, p: int, received: seq<StoredBatch>)
    requires Extends(ext, log, later) && CaughtUp(log, start, p, received)
    ensures CaughtUp(later, start, p, received)
  {
    hide Sequenced, WindowSound, EpochsSound, StoredSound, AllStored, Tiled, SkipTo;
    var more := later.batches[|log.batches|..];
    assert later.batches == log.batches + more;
    TiledSuffix(log.batches, more, 0, log.nextOffset, later.nextOffset);
    SkipGrows(log.batches, more, p, 0, log.nextOffset, later.nextOffset);
    SkipGrows(log.batches, more, start, 0, log.nextOffset, later.nextOffset);
    assert received + (SkipTo(log.batches, p) + more) == (received + SkipTo(log.batches, p)) + more;
  }

  lemma {:induction false} TiledSuffix(a: seq<StoredBatch>, b: seq<StoredBatch>, start: int, middle: int, end: int)
    requires Tiled(a, start, middle) && Tiled(a + b, start, end)
    ensures Tiled(b, middle, end)
  {
    if a == [] {
      assert a + b == b;
    } else {
      assert (a + b)[1..] == a[1..] + b;
      TiledSuffix(a[1..], b, a[0].lastOffset + 1, middle, end);
    }
  }

  // One more poll stays caught up, and moves on unless there is nothing left.
  lemma PollAdvances(ext: Externals, log: LogView, start: int, p: int, limit: nat, received: seq<StoredBatch>)
    requires LogSound(ext, log) && 0 <= start && CaughtUp(log, start, p, received)
    ensures var got := FetchBatches(log, p, limit);
            && CaughtUp(log, start, Advance(p, got), received + got)
            && (p < log.nextOffset ==> p < Advance(p, got))
            && (p == log.nextOffset ==> got == [])
  {
    hide Sequenced, WindowSound, EpochsSound, StoredSound, AllStored, Tiled, SkipTo, FetchBatches, BytesOf, JoinBytes;
    var from, to := FetchIsSlice(ext, log, p, limit);
    if from < to {
      SliceMovesOn(ext, log, p, limit, from, to);
      var got, later := log.batches[from..to], log.batches[to..];
      assert received + (got + later) == (received + got) + later;
    } else {
      assert log.batches[from..to] == [] && received + [] == received;
    }
  }

  // After a slice the consumer stands where the rest of the log starts, further than before.
  lemma SliceMovesOn(ext: Externals, log: LogView, p: int, limit: nat, from: nat, to: nat)
    requires LogSound(ext, log) && 0 <= p <= log.nextOffset && Slice(log, p, limit, from, to) && from < to
    ensures var got, next := log.batches[from..to], Advance(p, log.batches[from..to]);
            && SkipTo(log.batches, p) == got + log.batches[to..]
            && SkipTo(log.batches, next) == log.batches[to..] && p < next <= log.nextOffset
  {
    hide Sequenced, WindowSound, EpochsSound, StoredSound, AllStored, Tiled, SkipTo, FetchBatches, BytesOf;
    SliceIsPrefix(ext, log, p, limit, from, to);
    SkipPast(log.batches, to - 1, 0, log.nextOffset);
    LastIsNotBefore(log.batches, from, to - 1, 0, log.nextOffset);
    TiledSpan(log.batches, 0, log.nextOffset);
    assert log.batches[from..to][|log.batches[from..to]| - 1] == log.batches[to - 1];
  }

  lemma SliceIsPrefix(ext: Externals, log: LogView, p: int, limit: nat, from: nat, to: nat)
    requires LogSound(ext, log) && 0 <= p <= log.nextOffset && Slice(log, p, limit, from, to) && from < to
    ensures SkipTo(log.batches, p) == log.batches[from..to] + log.batches[to..]
  {
    hide Sequenced, WindowSound, EpochsSound, StoredSound, AllStored, Tiled, SkipTo, BytesOf;
    SkipFinds(log.batches, p, 0, log.nextOffset);
    var rest := SkipTo(log.batches, p);
    var k := |log.batches| - |rest|;
    OnlyOneContains(log.batches, k, from, p, 0, log.nextOffset);
    assert log.batches[from..] == log.batches[from..to] + log.batches[to..];
  }

  lemma LastIsNotBefore(batches: seq<StoredBatch>, i: nat, j: nat, start: int, end: int)
    requires Tiled(batches, start, end) && i <= j < |batches|
    ensures batches[i].lastOffset <= batches[j].lastOffset
    ensures i < j ==> batches[i].lastOffset < batches[j].baseOffset
  {
    if i < j {
      TiledTwice(batches, batches[i].baseOffset, start, end, i);
      var tail := batches[i..];
      TiledSpan(tail[1..], tail[0].lastOffset + 1, end);
      assert tail[1..][j - i - 1] == batches[j];
    }
  }

  lemma OnlyOneContains(batches: seq<StoredBatch>, i: nat, j: nat, p: int, start: int, end: int)
    requires Tiled(batches, start, end) && i < |batches| && j < |batches|
    requires batches[i].baseOffset <= p <= batches[i].lastOffset && batches[j].baseOffset <= p <= batches[j].lastOffset
    ensures i == j
  {
    LastIsNotBefore(batches, if i <= j then i else j, if i <= j then j else i, start, end);
  }

  // Whatever the limits and however the log grows meanwhile, the batches received are exactly those from
  // the one that contains the start offset up to the current position, once each and in order.
  lemma {:induction false} ConsumerReceivesInOrder(ext: Externals, polls: seq<Poll>, start: int, log: LogView)
    requires Growing(ext, polls + [Poll(log, 0)]) && 0 <= start
    requires polls != [] ==> start <= polls[0].log.nextOffset
    requires polls == [] ==> start <= log.nextOffset
    ensures CaughtUp(log, start, Position(polls, start), Received(polls, start))
    decreases |polls|
  {
    hide LogSound, FetchBatches, SkipTo;
    var all := polls + [Poll(log, 0)];
    if polls == [] {
      assert all[0].log == log;
    } else {
      var n := |polls| - 1;
      var current := polls[n];
      var before := polls[..n];
      var shorter := before + [Poll(current.log, 0)];
      assert forall i | 0 <= i < |shorter| :: shorter[i].log == all[i].log;
      assert n > 0 ==> before[0] == polls[0];
      ConsumerReceivesInOrder(ext, before, start, current.log);
      var p, received := Position(before, start), Received(before, start);
      assert all[n].log == current.log && all[n + 1].log == log;
      PollAdvances(ext, current.log, start, p, current.limit, received);
      CaughtUpLater(ext, current.log, log, start, Position(polls, start), Received(polls, start));
    }
  }

  // The polls of a consumer while the appends of a run go on: the `i`-th after `cuts[i]` of them.
  ghost function PollsDuring(ext: Externals, sets: seq<Bytes>, cuts: seq<nat>, limits: seq<nat>): seq<Poll>
    requires |cuts| == |limits| && forall i | 0 <= i < |cuts| :: cuts[i] <= |sets|
  {
    seq(|cuts|, i requires 0 <= i < |cuts| => Poll(LogAfter(ext, sets[..cuts[i]]), limits[i]))
  }

  lemma RunExtends(ext: Externals, sets: seq<Bytes>, a: nat, b: nat)
    requires a <= b <= |sets|
    ensures Extends(ext, LogAfter(ext, sets[..a]), LogAfter(ext, sets[..b]))
  {
    hide LogSound, LogAfter;
    LogOnlyGrows(ext, sets[..b], a);
    assert sets[..b][..a] == sets[..a];
  }

  // However appends and polls interleave, a consumer has received exactly the batches from the one that
  // contains its start up to its position.
  lemma RunIsConsumedInOrder(ext: Externals, sets: seq<Bytes>, cuts: seq<nat>, limits: seq<nat>, start: int)
    requires |cuts| == |limits| && (forall i | 0 <= i < |cuts| :: cuts[i] <= |sets|)
    requires forall i, j | 0 <= i <= j < |cuts| :: cuts[i] <= cuts[j]
    requires 0 <= start <= LogAfter(ext, if cuts == [] then sets else sets[..cuts[0]]).nextOffset
    ensures var polls := PollsDuring(ext, sets, cuts, limits);
            CaughtUp(LogAfter(ext, sets), start, Position(polls, start), Received(polls, start))
  {
    hide LogSound, LogAfter, CaughtUp, Position, Received, Extends;
    var polls, log := PollsDuring(ext, sets, cuts, limits), LogAfter(ext, sets);
    var all := polls + [Poll(log, 0)];
    assert sets[..|sets|] == sets;
    forall i, j | 0 <= i <= j < |all| ensures Extends(ext, all[i].log, all[j].log) {
      RunExtends(ext, sets, if i < |cuts| then cuts[i] else |sets|, if j < |cuts| then cuts[j] else |sets|);
    }
    ConsumerReceivesInOrder(ext, polls, start, log);
  }

  // Over a log that no longer changes: fetch until nothing comes back.
  ghost function Drain(ext: Externals, log: LogView, p: int, limits: nat -> nat, round: nat): seq<StoredBatch>
    requires LogSound(ext, log) && 0 <= p <= log.nextOffset
    decreases log.nextOffset - p
  {
    var got := FetchBatches(log, p, limits(round));
    assert CaughtUp(log, p, p, []) by { assert [] + SkipTo(log.batches, p) == SkipTo(log.batches, p); }
    PollAdvances(ext, log, p, p, limits(round), []);
    if got == [] then [] else got + Drain(ext, log, Advance(p, got), limits, round + 1)
  }

  // It stops at the high watermark, having received every batch from the one containing its start on.
  lemma {:induction false} DrainIsComplete(ext: Externals, log: LogView, p: int, limits: nat -> nat, round: nat)
    requires LogSound(ext, log) && 0 <= p <= log.nextOffset
    ensures Drain(ext, log, p, limits, round) == SkipTo(log.batches, p)
    decreases log.nextOffset - p
  {
    hide Sequenced, WindowSound, EpochsSound, StoredSound, AllStored, Tiled, SkipTo, FetchBatches;
    var got := FetchBatches(log, p, limits(round));
    assert [] + SkipTo(log.batches, p) == SkipTo(log.batches, p) && [] + got == got;
    PollAdvances(ext, log, p, p, limits(round), []);
    if got == [] {
      SkipFinds(log.batches, p, 0, log.nextOffset);
    } else {
      DrainIsComplete(ext, log, Advance(p, got), limits, round + 1);
    }
  }

  // ----- Fetched bytes

  function Metas(ext: Externals, batches: seq<StoredBatch>): seq<ValidatedBatch> {
    seq(|batches|, i requires 0 <= i < |batches| => Meta(ext, batches[i]))
  }

  // Fetched bytes split into exactly the stored batches they came from.
  lemma {:induction false} FetchedSplits(ext: Externals, batches: seq<StoredBatch>)
    requires AllStored(ext, batches)
    ensures SplitBatches(ext, JoinBytes(batches)) == Ok(Metas(ext, batches))
    ensures forall i | 0 <= i < |batches| ::
      Metas(ext, batches)[i].bytes == batches[i].bytes && I64Value(batches[i].bytes[..8]) == batches[i].baseOffset
  {
    hide ValidateBatch, SplitBatches, I64Value;
    if batches == [] {
      assert SplitBatches(ext, []) == Ok([]) by { SplitNothing(ext); }
    } else {
      var rest := batches[1..];
      FetchedSplits(ext, rest);
      assert StoredSound(ext, batches[0]);
      SplitStep(ext, batches[0].bytes, JoinBytes(rest));
      assert Metas(ext, batches) == [Meta(ext, batches[0])] + Metas(ext, rest);
      assert forall i | 0 < i < |batches| :: batches[i] == rest[i - 1];
    }
  }

  lemma SplitNothing(ext: Externals)
    ensures SplitBatches(ext, []) == Ok([])
  {
  }

  // They pass validation again if and only if they are of one producer, which a log need not be.
  lemma FetchedRevalidates(ext: Externals, batches: seq<StoredBatch>)
    requires AllStored(ext, batches)
    ensures ValidateRecordSet(ext, JoinBytes(batches))
            == if batches != [] && SameProducer(Metas(ext, batches)) then Ok(Metas(ext, batches)) else Err(Malformed)
  {
    hide ValidateBatch, SplitBatches, I64Value, Meta;
    FetchedSplits(ext, batches);
    StoredAreNotEmpty(ext, batches);
  }
}
