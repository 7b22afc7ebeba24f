/** What every requested partition of a fetch is answered, said of the catalogue it is read in. */
module FetchContracts {
  import opened Text
  import opened Octets
  import opened RecordFormat
  import opened PartitionModel
  import opened PartitionSafety
  import opened PartitionRuns
  import opened PartitionFetch
  import opened FetchBudget

  // ----- One answer

  // The room a partition has: the least of its own limit and of what the request has left, and never less
  // than nothing.
  function Room(own: int, maxBytes: int, spent: nat): nat {
    var least := if own < maxBytes - spent then own else maxBytes - spent;
    if least < 0 then 0 else least
  }

  // Batches `from` up to `to` are the longest slice that starts at the batch containing the offset and has
  // room, or just that batch.
  predicate LongestSlice(batches: seq<StoredBatch>, offset: int, room: nat, from: nat, to: nat) {
    && from < to <= |batches|
    && batches[from].baseOffset <= offset <= batches[from].lastOffset
    && (|JoinBytes(batches[from..to])| <= room || to == from + 1)
    && (to < |batches| ==> |JoinBytes(batches[from..to])| + |batches[to].bytes| > room)
  }

  // Records that exceed what the request has left are dropped, unless they are its first.
  function Kept(records: Bytes, maxBytes: int, spent: nat): Bytes {
    if spent > 0 && spent + |records| > maxBytes then [] else records
  }

  // What a partition is answered when it is read in this catalogue with `spent` bytes already used.
  ghost predicate ReadRule(catalogue: Catalogue, topic: string, request: PartitionRequest, maxBytes: int, spent: nat,
                           data: PartitionData)
  {
    var index, offset := request.index, request.offset;
    if topic !in catalogue || index < 0 || index >= |catalogue[topic]| then
      data == PartitionData(index, UnknownTopicOrPartition, -1, [])
    else
      var log := catalogue[topic][index];
      if offset < 0 || offset > log.nextOffset then data == PartitionData(index, OffsetOutOfRange, -1, [])
      else
        && data.index == index && data.code == NoError && data.highWatermark == log.nextOffset
        && (offset == log.nextOffset ==> data.records == [])
        && (offset < log.nextOffset ==>
              exists from: nat, to: nat ::
                && LongestSlice(log.batches, offset, Room(request.maxBytes, maxBytes, spent), from, to)
                && data.records == Kept(JoinBytes(log.batches[from..to]), maxBytes, spent))
  }

  ghost predicate CatalogueSound(ext: Externals, catalogue: Catalogue) {
    forall topic, i | topic in catalogue && 0 <= i < |catalogue[topic]| :: LogSound(ext, catalogue[topic][i])
  }

  lemma SliceIsLongest(ext: Externals, log: LogView, offset: int, room: nat) returns (from: nat, to: nat)
    requires LogSound(ext, log) && 0 <= offset < log.nextOffset
    ensures LongestSlice(log.batches, offset, room, from, to)
    ensures Fetch(log, offset, room) == Some(FetchSnapshot(JoinBytes(log.batches[from..to]), log.nextOffset))
  {
    hide LogSound, BytesOf, JoinBytes, FetchBatches;
    from, to := FetchIsSlice(ext, log, offset, room);
  }

  lemma NothingAtTheEnd(ext: Externals, log: LogView, room: nat)
    requires LogSound(ext, log)
    ensures 0 <= log.nextOffset && Fetch(log, log.nextOffset, room) == Some(FetchSnapshot([], log.nextOffset))
  {
    hide Sequenced, WindowSound, EpochsSound, AllStored, Tiled, BytesOf, JoinBytes, FetchBatches;
    var from, to := FetchIsSlice(ext, log, log.nextOffset, room);
    assert log.batches[from..to] == [];
    JoinNothing();
  }

  lemma ReadIsExact(ext: Externals, catalogue: Catalogue, w: Wanted, maxBytes: int, spent: nat)
    requires CatalogueSound(ext, catalogue)
    ensures ReadRule(catalogue, w.topic, w.request, maxBytes, spent,
                     AnswerWithin(Seen(w, catalogue), Clamp(maxBytes), spent))
  {
    hide LogSound, JoinBytes, Fetch, LongestSlice;
    var room := Room(w.request.maxBytes, maxBytes, spent);
    assert room == Lesser(Clamp(w.request.maxBytes), Remaining(Clamp(maxBytes), spent));
    var topic, index, offset := w.topic, w.request.index, w.request.offset;
    if topic in catalogue && 0 <= index < |catalogue[topic]| {
      var log := catalogue[topic][index];
      FetchInRange(log, offset, room);
      if 0 <= offset < log.nextOffset {
        var from, to := SliceIsLongest(ext, log, offset, room);
      } else if offset == log.nextOffset {
        NothingAtTheEnd(ext, log, room);
      }
    }
  }

  lemma FetchInRange(log: LogView, offset: int, room: nat)
    ensures Fetch(log, offset, room).None? <==> offset < 0 || offset > log.nextOffset
  {
  }

  // ----- All answers

  // The bytes in the first `n` answers.
  function SpentBefore(answers: seq<PartitionData>, n: nat): nat
    requires n <= |answers|
  {
    if n == 0 then 0 else SpentBefore(answers, n - 1) + |answers[n - 1].records|
  }

  lemma {:induction false} SpentStep(answers: seq<PartitionData>, n: nat)
    requires 0 < n <= |answers|
    ensures SpentBefore(answers, n) == |answers[0].records| + SpentBefore(answers[1..], n - 1)
  {
    if n > 1 {
      SpentStep(answers, n - 1);
    }
  }

  lemma {:induction false} SpentInAll(answers: seq<PartitionData>)
    ensures SpentBefore(answers, |answers|) == TotalBytes(answers)
  {
    if answers != [] {
      SpentStep(answers, |answers|);
      SpentInAll(answers[1..]);
    }
  }

  lemma {:induction false} BudgetedAt(asked: seq<Asked>, max: nat, spent: nat, i: nat)
    requires i < |asked|
    ensures var answers := Budgeted(asked, max, spent);
            |answers| == |asked| && answers[i] == AnswerWithin(asked[i], max, spent + SpentBefore(answers, i))
    decreases |asked|
  {
    hide AnswerWithin;
    var first := AnswerWithin(asked[0], max, spent);
    var rest := Budgeted(asked[1..], max, spent + |first.records|);
    var answers := Budgeted(asked, max, spent);
    assert answers == [first] + rest && answers[1..] == rest;
    if |asked| > 1 {
      BudgetedAt(asked[1..], max, spent + |first.records|, if i > 0 then i - 1 else 0);
      if i > 0 {
        SpentStep(answers, i);
      }
    }
  }

  // Where the partitions of topic `t` begin in the request.
  function Position(topics: seq<TopicRequest>, t: nat): nat
    requires t <= |topics|
  {
    if t == 0 then 0 else Position(topics, t - 1) + |topics[t - 1].partitions|
  }

  lemma {:induction false} PositionStep(topics: seq<TopicRequest>, t: nat)
    requires 0 < t <= |topics|
    ensures Position(topics, t) == |topics[0].partitions| + Position(topics[1..], t - 1)
  {
    if t > 1 {
      PositionStep(topics, t - 1);
    }
  }

  lemma {:induction false} WantedAt(topics: seq<TopicRequest>, t: nat, p: nat)
    requires t < |topics| && p < |topics[t].partitions|
    ensures Position(topics, t) + p < |FlatWanted(topics)|
    ensures FlatWanted(topics)[Position(topics, t) + p] == Wanted(topics[t].name, topics[t].partitions[p])
    decreases |topics|
  {
    if t > 0 {
      PositionStep(topics, t);
      WantedAt(topics[1..], t - 1, p);
    }
  }

  lemma {:induction false} DataAt(topics: seq<TopicRequest>, data: seq<TopicData>, t: nat, p: nat)
    requires SameShape(topics, data) && t < |topics| && p < |topics[t].partitions|
    ensures Position(topics, t) + p < |FlatData(data)|
    ensures FlatData(data)[Position(topics, t) + p] == data[t].partitions[p]
    decreases |topics|
  {
    if t > 0 {
      PositionStep(topics, t);
      DataAt(topics[1..], data[1..], t - 1, p);
    }
  }

  lemma AskedIsSeen(wanted: seq<Wanted>, views: nat -> Catalogue, n: nat)
    requires n < |wanted|
    ensures AskedAt(wanted, views)[n] == Seen(wanted[n], views(n))
  {
    hide Seen;
  }

  // A reply in the request's shape, with the answers that the nested loops compute.
  ghost predicate Replied(topics: seq<TopicRequest>, maxBytes: int, views: nat -> Catalogue, data: seq<TopicData>) {
    SameShape(topics, data) && FlatData(data) == Budgeted(AskedAt(FlatWanted(topics), views), Clamp(maxBytes), 0)
  }

  // The `p`-th partition asked of the `t`-th topic is answered by the rule, from the partition of its own name in
  // the catalogue as it is when the request reaches it, with what the answers before it have used.
  lemma ReplyIsExact(ext: Externals, topics: seq<TopicRequest>, maxBytes: int, views: nat -> Catalogue,
                     data: seq<TopicData>, t: nat, p: nat)
    requires Replied(topics, maxBytes, views, data) && t < |topics| && p < |topics[t].partitions|
    requires CatalogueSound(ext, views(Position(topics, t) + p))
    ensures var n := Position(topics, t) + p;
            && n <= |FlatData(data)| && |data| == |topics| && data[t].name == topics[t].name
            && p < |data[t].partitions|
            && ReadRule(views(n), topics[t].name, topics[t].partitions[p], maxBytes, SpentBefore(FlatData(data), n),
                        data[t].partitions[p])
  {
    hide FlatWanted, FlatData, Budgeted, ReadRule, CatalogueSound, AnswerWithin, AskedAt, Seen, SpentBefore, Position;
    var n := Position(topics, t) + p;
    var wanted := FlatWanted(topics);
    WantedAt(topics, t, p);
    DataAt(topics, data, t, p);
    AskedIsSeen(wanted, views, n);
    BudgetedAt(AskedAt(wanted, views), Clamp(maxBytes), 0, n);
    ReadIsExact(ext, views(n), wanted[n], maxBytes, SpentBefore(FlatData(data), n));
  }

  // ----- The request's limit

  ghost predicate ViewsSound(ext: Externals, views: nat -> Catalogue) {
    forall i: nat :: CatalogueSound(ext, views(i))
  }

  lemma AskedSound(ext: Externals, wanted: seq<Wanted>, views: nat -> Catalogue)
    requires ViewsSound(ext, views)
    ensures LogsSound(ext, AskedAt(wanted, views))
  {
    hide LogSound;
    forall i | 0 <= i < |wanted| && AskedAt(wanted, views)[i].log.Some?
      ensures LogSound(ext, AskedAt(wanted, views)[i].log.value)
    {
      assert CatalogueSound(ext, views(i));
    }
  }

  // The records of the reply exceed the request's limit only if they are one batch of one requested partition.
  lemma OverrunIsOneBatchOf(ext: Externals, wanted: seq<Wanted>, maxBytes: int, views: nat -> Catalogue)
    returns (k: nat, b: nat)
    requires ViewsSound(ext, views)
    requires var total := TotalBytes(Budgeted(AskedAt(wanted, views), Clamp(maxBytes), 0));
             total > 0 && total > maxBytes
    ensures var answers := Budgeted(AskedAt(wanted, views), Clamp(maxBytes), 0);
            && |answers| == |wanted| && k < |wanted|
            && (forall i | 0 <= i < |answers| && i != k :: answers[i].records == [])
            && var topic, index := wanted[k].topic, wanted[k].request.index;
            && topic in views(k) && 0 <= index < |views(k)[topic]|
            && b < |views(k)[topic][index].batches|
            && answers[k].records == views(k)[topic][index].batches[b].bytes
  {
    hide LogSound, Budgeted, TotalBytes;
    var asked := AskedAt(wanted, views);
    AskedSound(ext, wanted, views);
    k := OverrunIsOneBatch(ext, asked, Clamp(maxBytes));
    assert asked[k] == Seen(wanted[k], views(k));
    var answers := Budgeted(asked, Clamp(maxBytes), 0);
    assert OneBatch(asked[k], answers[k]);
    b :| 0 <= b < |asked[k].log.value.batches| && answers[k].records == asked[k].log.value.batches[b].bytes;
  }
}
