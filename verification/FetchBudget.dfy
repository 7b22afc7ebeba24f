/** The request-wide byte budget of a fetch over many partitions. */
module FetchBudget {
  import opened Text
  import opened Octets
  import opened RecordFormat
  import opened PartitionModel
  import opened PartitionSafety
  import opened PartitionRuns
  import opened PartitionFetch

  // ----- Requests and replies

  datatype FetchCode = NoError | UnknownTopicOrPartition | OffsetOutOfRange

  datatype PartitionRequest = PartitionRequest(index: int, offset: int, maxBytes: int)

  datatype TopicRequest = TopicRequest(name: string, partitions: seq<PartitionRequest>)

  // The logs of the partitions of every topic.
  type Catalogue = map<string, seq<LogView>>

  function Find(catalogue: Catalogue, topic: string, index: int): Option<LogView> {
    if topic in catalogue && 0 <= index < |catalogue[topic]| then Some(catalogue[topic][index]) else None
  }

  // One requested partition, with the log found under its name when the request reached it.
  datatype Asked = Asked(topic: string, index: int, offset: int, maxBytes: int, log: Option<LogView>)

  datatype PartitionData = PartitionData(index: int, code: FetchCode, highWatermark: int, records: Bytes)

  datatype TopicData = TopicData(name: string, partitions: seq<PartitionData>)

  // A negative limit is read as zero.
  function Clamp(x: int): nat {
    if x < 0 then 0 else x
  }

  function Lesser(a: nat, b: nat): nat {
    if a <= b then a else b
  }

  function Remaining(max: nat, spent: nat): nat {
    if spent <= max then max - spent else 0
  }

  function Answer(a: Asked, limit: nat): PartitionData {
    match a.log
    case None => PartitionData(a.index, UnknownTopicOrPartition, -1, [])
    case Some(log) =>
      match Fetch(log, a.offset, limit)
      case None => PartitionData(a.index, OffsetOutOfRange, -1, [])
      case Some(snapshot) => PartitionData(a.index, NoError, snapshot.highWatermark, snapshot.records)
  }

  // Over-budget records are blanked, the rest of the answer kept.
  function Charged(data: PartitionData, max: nat, spent: nat): PartitionData {
    if spent > 0 && spent + |data.records| > max then data.(records := []) else data
  }

  function AnswerWithin(a: Asked, max: nat, spent: nat): PartitionData {
    Charged(Answer(a, Lesser(Clamp(a.maxBytes), Remaining(max, spent))), max, spent)
  }

  // The answers to all requested partitions, in request order, when `spent` bytes are already used.
  function Budgeted(asked: seq<Asked>, max: nat, spent: nat): seq<PartitionData> {
    if asked == [] then []
    else
      var first := AnswerWithin(asked[0], max, spent);
      [first] + Budgeted(asked[1..], max, spent + |first.records|)
  }

  function TotalBytes(answers: seq<PartitionData>): nat {
    if answers == [] then 0 else |answers[0].records| + TotalBytes(answers[1..])
  }

  function ValidCount(answers: seq<PartitionData>): nat {
    if answers == [] then 0 else (if answers[0].code == NoError then 1 else 0) + ValidCount(answers[1..])
  }

  // ----- What the budget guarantees

  ghost predicate LogsSound(ext: Externals, asked: seq<Asked>) {
    forall i | 0 <= i < |asked| && asked[i].log.Some? :: LogSound(ext, asked[i].log.value)
  }

  // The partition exists and holds records at the requested offset.
  predicate HasData(a: Asked) {
    a.log.Some? && 0 <= a.offset < a.log.value.nextOffset
  }

  predicate InRange(a: Asked) {
    a.log.Some? && 0 <= a.offset <= a.log.value.nextOffset
  }

  // The answer carries a slice of its log that starts with the batch containing the offset and keeps to
  // the partition's own limit unless it is one batch; or it carries nothing.
  ghost predicate SliceOrNothing(a: Asked, data: PartitionData) {
    data.records == [] ||
    (HasData(a) && exists from, to :: SliceFor(a, data, from, to))
  }

  predicate SliceFor(a: Asked, data: PartitionData, from: nat, to: nat)
    requires a.log.Some?
  {
    var batches := a.log.value.batches;
    && from < to <= |batches|
    && data.records == JoinBytes(batches[from..to])
    && batches[from].baseOffset <= a.offset <= batches[from].lastOffset
    && (|data.records| <= Clamp(a.maxBytes) || to == from + 1)
  }

  predicate OneBatch(a: Asked, data: PartitionData) {
    a.log.Some? && exists k :: 0 <= k < |a.log.value.batches| && data.records == a.log.value.batches[k].bytes
  }

  // One answer, before it is charged.
  lemma AnswerIsSlice(ext: Externals, a: Asked, limit: nat)
    requires a.log.Some? ==> LogSound(ext, a.log.value)
    requires limit <= Clamp(a.maxBytes)
    ensures var d := Answer(a, limit);
            && SliceOrNothing(a, d)
            && (d.records != [] <==> HasData(a))
            && (|d.records| <= limit || OneBatch(a, d))
            && (d.code == NoError <==> InRange(a))
  {
    hide LogSound, BytesOf, JoinBytes, FetchBatches;
    if InRange(a) {
      var log := a.log.value;
      var from, to := FetchedSlice(ext, log, a.offset, limit);
      var d := Answer(a, limit);
      if from < to {
        assert SliceFor(a, d, from, to);
        if to == from + 1 {
          JoinOne(log.batches[from]);
          assert log.batches[from..to] == [log.batches[from]];
        }
      } else {
        assert log.batches[from..to] == [];
        JoinNothing();
      }
    }
  }

  lemma JoinOne(b: StoredBatch)
    ensures JoinBytes([b]) == b.bytes
  {
    assert b.bytes + [] == b.bytes;
  }

  lemma JoinNothing()
    ensures JoinBytes([]) == []
  {
  }

  // `FetchIsSlice`, with the bytes it returns.
  lemma FetchedSlice(ext: Externals, log: LogView, offset: int, limit: nat) returns (from: nat, to: nat)
    requires LogSound(ext, log) && 0 <= offset <= log.nextOffset
    ensures Fetch(log, offset, limit)
            == Some(FetchSnapshot(JoinBytes(FetchBatches(log, offset, limit)), log.nextOffset))
    ensures from <= to <= |log.batches| && FetchBatches(log, offset, limit) == log.batches[from..to]
    ensures from < to <==> offset < log.nextOffset
    ensures from < to ==> log.batches[from].baseOffset <= offset <= log.batches[from].lastOffset
    ensures |JoinBytes(log.batches[from..to])| <= limit || to == from + 1
    ensures from < to ==> JoinBytes(log.batches[from..to]) != []
  {
    hide Sequenced, WindowSound, EpochsSound, StoredSound, Tiled, BytesOf, FetchBatches;
    from, to := FetchIsSlice(ext, log, offset, limit);
    if from < to {
      StoredAreNotEmpty(ext, log.batches);
      assert log.batches[from..to][0] == log.batches[from];
    }
  }

  // Once something is spent, the budget is kept.
  lemma {:induction false} SpentStaysWithin(asked: seq<Asked>, max: nat, spent: nat)
    requires spent > 0
    ensures spent <= max ==> spent + TotalBytes(Budgeted(asked, max, spent)) <= max
    ensures spent > max ==>
            forall i | 0 <= i < |Budgeted(asked, max, spent)| :: Budgeted(asked, max, spent)[i].records == []
  {
    hide Answer;
    if asked != [] {
      var first := AnswerWithin(asked[0], max, spent);
      SpentStaysWithin(asked[1..], max, spent + |first.records|);
      assert Budgeted(asked, max, spent)[1..] == Budgeted(asked[1..], max, spent + |first.records|);
    }
  }

  // The answers line up with the request, each a slice of its log or nothing, with its code unaffected by the budget.
  lemma {:induction false} AnswersLineUp(ext: Externals, asked: seq<Asked>, max: nat, spent: nat)
    requires LogsSound(ext, asked)
    ensures var answers := Budgeted(asked, max, spent);
            && |answers| == |asked|
            && forall i | 0 <= i < |asked| ::
                 && answers[i].index == asked[i].index
                 && (answers[i].code == NoError <==> InRange(asked[i]))
                 && SliceOrNothing(asked[i], answers[i])
    decreases |asked|
  {
    hide LogSound, Answer, SliceOrNothing;
    if asked != [] {
      var a := asked[0];
      var first := AnswerWithin(a, max, spent);
      var limit := Lesser(Clamp(a.maxBytes), Remaining(max, spent));
      AnswerIsSlice(ext, a, limit);
      assert Answer(a, limit).index == a.index by { AnswerKeepsIndex(a, limit); }
      assert SliceOrNothing(a, Answer(a, limit).(records := [])) by { NothingIsFine(a, Answer(a, limit)); }
      AnswersLineUp(ext, asked[1..], max, spent + |first.records|);
      var answers, rest := Budgeted(asked, max, spent), Budgeted(asked[1..], max, spent + |first.records|);
      assert forall i | 0 < i < |asked| :: answers[i] == rest[i - 1] && asked[i] == asked[1..][i - 1];
    }
  }

  lemma AnswerKeepsIndex(a: Asked, limit: nat)
    ensures Answer(a, limit).index == a.index
  {
  }

  lemma NothingIsFine(a: Asked, d: PartitionData)
    ensures SliceOrNothing(a, d.(records := []))
  {
  }

  // All the bytes are in answer `k`, and they are one stored batch.
  predicate SingleBatch(asked: seq<Asked>, answers: seq<PartitionData>, k: nat) {
    && |asked| == |answers| && k < |answers|
    && OneBatch(asked[k], answers[k])
    && forall i | 0 <= i < |answers| && i != k :: answers[i].records == []
  }

  // The budget is exceeded only by a reply whose records are all in one batch.
  lemma {:induction false} OverrunIsOneBatch(ext: Externals, asked: seq<Asked>, max: nat) returns (k: nat)
    requires LogsSound(ext, asked) && TotalBytes(Budgeted(asked, max, 0)) > max
    ensures SingleBatch(asked, Budgeted(asked, max, 0), k)
    decreases |asked|
  {
    hide LogSound, Answer, OneBatch, SliceOrNothing, SingleBatch;
    var answers := Budgeted(asked, max, 0);
    AnswersLineUp(ext, asked, max, 0);
    var a := asked[0];
    var first := AnswerWithin(a, max, 0);
    var limit := Lesser(Clamp(a.maxBytes), Remaining(max, 0));
    AnswerIsSlice(ext, a, limit);
    var rest := Budgeted(asked[1..], max, |first.records|);
    assert answers == [first] + rest && answers[1..] == rest;
    if first.records == [] {
      var j := OverrunIsOneBatch(ext, asked[1..], max);
      SingleBatchLater(asked, answers, j);
      k := j + 1;
    } else {
      SpentStaysWithin(asked[1..], max, |first.records|);
      SingleBatchFirst(asked, answers);
      k := 0;
    }
  }

  lemma SingleBatchLater(asked: seq<Asked>, answers: seq<PartitionData>, j: nat)
    requires asked != [] && answers != [] && answers[0].records == [] && SingleBatch(asked[1..], answers[1..], j)
    ensures SingleBatch(asked, answers, j + 1)
  {
    hide OneBatch;
    assert asked[j + 1] == asked[1..][j] && answers[j + 1] == answers[1..][j];
    assert forall i | 0 < i < |answers| :: answers[i] == answers[1..][i - 1];
  }

  lemma SingleBatchFirst(asked: seq<Asked>, answers: seq<PartitionData>)
    requires |asked| == |answers| > 0 && OneBatch(asked[0], answers[0])
    requires forall i | 0 <= i < |answers[1..]| :: answers[1..][i].records == []
    ensures SingleBatch(asked, answers, 0)
  {
    hide OneBatch;
    assert forall i | 0 < i < |answers| :: answers[i] == answers[1..][i - 1];
  }

  // Whenever some requested partition has data at its offset, the reply carries records.
  lemma {:induction false} DataIsReturned(ext: Externals, asked: seq<Asked>, max: nat, i: nat)
    requires LogsSound(ext, asked) && i < |asked| && HasData(asked[i])
    ensures TotalBytes(Budgeted(asked, max, 0)) > 0
    decreases |asked|
  {
    hide LogSound, Answer, OneBatch, SliceOrNothing;
    var a := asked[0];
    AnswerIsSlice(ext, a, Lesser(Clamp(a.maxBytes), Remaining(max, 0)));
    var first := AnswerWithin(a, max, 0);
    var rest := Budgeted(asked[1..], max, |first.records|);
    assert Budgeted(asked, max, 0) == [first] + rest && ([first] + rest)[1..] == rest;
    if first.records == [] {
      assert asked[i] == asked[1..][i - 1];
      DataIsReturned(ext, asked[1..], max, i - 1);
    }
  }

  // ----- The nested loops

  // A requested partition by its full name.
  datatype Wanted = Wanted(topic: string, request: PartitionRequest)

  function WantedOf(t: TopicRequest): (wanted: seq<Wanted>)
    ensures |wanted| == |t.partitions|
  {
    seq(|t.partitions|, p requires 0 <= p < |t.partitions| => Wanted(t.name, t.partitions[p]))
  }

  function FlatWanted(topics: seq<TopicRequest>): seq<Wanted> {
    if topics == [] then [] else WantedOf(topics[0]) + FlatWanted(topics[1..])
  }

  function Seen(w: Wanted, catalogue: Catalogue): Asked {
    Asked(w.topic, w.request.index, w.request.offset, w.request.maxBytes, Find(catalogue, w.topic, w.request.index))
  }

  // The `i`-th requested partition is looked up in the catalogue as it is at the `i`-th read.
  function AskedAt(wanted: seq<Wanted>, views: nat -> Catalogue): (asked: seq<Asked>)
    ensures |asked| == |wanted|
  {
    seq(|wanted|, i requires 0 <= i < |wanted| => Seen(wanted[i], views(i)))
  }

  function FlatData(topics: seq<TopicData>): seq<PartitionData> {
    if topics == [] then [] else topics[0].partitions + FlatData(topics[1..])
  }

  // The reply has the request's topics, each with as many partitions as asked.
  predicate SameShape(topics: seq<TopicRequest>, data: seq<TopicData>) {
    && |data| == |topics|
    && forall i | 0 <= i < |topics| :: data[i].name == topics[i].name && |data[i].partitions| == |topics[i].partitions|
  }

  lemma {:induction false} FlatDataAppend(a: seq<TopicData>, t: TopicData)
    ensures FlatData(a + [t]) == FlatData(a) + t.partitions
  {
    if a == [] {
      assert a + [t] == [t];
      assert FlatData([t]) == t.partitions + FlatData([]);
    } else {
      FlatDataAppend(a[1..], t);
      assert (a + [t])[1..] == a[1..] + [t];
    }
  }

  lemma {:induction false} FlatWantedAppend(a: seq<TopicRequest>, t: TopicRequest)
    ensures FlatWanted(a + [t]) == FlatWanted(a) + WantedOf(t)
  {
    hide WantedOf;
    if a == [] {
      assert a + [t] == [t];
      assert FlatWanted([t]) == WantedOf(t) + FlatWanted([]);
    } else {
      FlatWantedAppend(a[1..], t);
      assert (a + [t])[1..] == a[1..] + [t];
    }
  }

  lemma AskedAppend(wanted: seq<Wanted>, w: Wanted, views: nat -> Catalogue)
    ensures AskedAt(wanted + [w], views) == AskedAt(wanted, views) + [Seen(w, views(|wanted|))]
  {
    hide Seen;
  }

  lemma {:induction false} TotalsAppend(answers: seq<PartitionData>, d: PartitionData)
    ensures TotalBytes(answers + [d]) == TotalBytes(answers) + |d.records|
    ensures ValidCount(answers + [d]) == ValidCount(answers) + (if d.code == NoError then 1 else 0)
  {
    if answers == [] {
      assert answers + [d] == [d];
    } else {
      TotalsAppend(answers[1..], d);
      assert (answers + [d])[1..] == answers[1..] + [d];
    }
  }

  lemma {:induction false} BudgetedAppend(asked: seq<Asked>, a: Asked, max: nat, spent: nat)
    ensures Budgeted(asked + [a], max, spent)
            == Budgeted(asked, max, spent) + [AnswerWithin(a, max, spent + TotalBytes(Budgeted(asked, max, spent)))]
    decreases |asked|
  {
    hide AnswerWithin;
    if asked == [] {
      assert asked + [a] == [a];
    } else {
      var first := AnswerWithin(asked[0], max, spent);
      var rest := Budgeted(asked[1..], max, spent + |first.records|);
      BudgetedAppend(asked[1..], a, max, spent + |first.records|);
      assert (asked + [a])[1..] == asked[1..] + [a];
      assert ([first] + rest)[1..] == rest;
    }
  }

  // The running counter is the bytes returned, and the reply the budgeted answers in the request's shape.
  method Snapshot(topics: seq<TopicRequest>, maxBytes: int, views: nat -> Catalogue)
    returns (responses: seq<TopicData>, recordBytes: nat, validPartitions: nat)
    ensures SameShape(topics, responses)
    ensures FlatData(responses) == Budgeted(AskedAt(FlatWanted(topics), views), Clamp(maxBytes), 0)
    ensures recordBytes == TotalBytes(FlatData(responses))
    ensures validPartitions == ValidCount(FlatData(responses))
  {
    hide Answer, Budgeted, FlatWanted, FlatData, TotalBytes, ValidCount, AskedAt;
    var max := Clamp(maxBytes);
    recordBytes, validPartitions, responses := 0, 0, [];
    var looked := 0;
    assert topics[..0] == [];
    EmptyFlat(max, views);
    for t := 0 to |topics|
      invariant SameShape(topics[..t], responses) && looked == |FlatWanted(topics[..t])|
      invariant FlatData(responses) == Budgeted(AskedAt(FlatWanted(topics[..t]), views), max, 0)
      invariant recordBytes == TotalBytes(FlatData(responses))
      invariant validPartitions == ValidCount(FlatData(responses))
    {
      var topic := topics[t];
      var partitions: seq<PartitionData> := [];
      ghost var before, answered, wanted := FlatWanted(topics[..t]), FlatData(responses), WantedOf(topic);
      assert before + wanted[..0] == before && answered + partitions == answered;
      for p := 0 to |topic.partitions|
        invariant |partitions| == p && looked == |before| + p
        invariant answered + partitions == Budgeted(AskedAt(before + wanted[..p], views), max, 0)
        invariant recordBytes == TotalBytes(answered + partitions)
        invariant validPartitions == ValidCount(answered + partitions)
      {
        var request := topic.partitions[p];
        var limit := Lesser(Clamp(request.maxBytes), Remaining(max, recordBytes));
        var asked := Seen(Wanted(topic.name, request), views(looked));
        var response := Answer(asked, limit);
        assert before + wanted[..p + 1] == (before + wanted[..p]) + [wanted[p]];
        AskedAppend(before + wanted[..p], wanted[p], views);
        BudgetedAppend(AskedAt(before + wanted[..p], views), asked, max, 0);
        looked := looked + 1;
        if response.code == NoError {
          validPartitions := validPartitions + 1;
        }
        if recordBytes > 0 && recordBytes + |response.records| > max {
          response := response.(records := []);
        } else {
          recordBytes := recordBytes + |response.records|;
        }
        TotalsAppend(answered + partitions, response);
        assert answered + (partitions + [response]) == (answered + partitions) + [response];
        partitions := partitions + [response];
      }
      assert wanted[..|topic.partitions|] == wanted;
      FlatDataAppend(responses, TopicData(topic.name, partitions));
      FlatWantedAppend(topics[..t], topic);
      assert topics[..t + 1] == topics[..t] + [topic];
      responses := responses + [TopicData(topic.name, partitions)];
    }
    assert topics[..|topics|] == topics;
  }

  lemma EmptyFlat(max: nat, views: nat -> Catalogue)
    ensures FlatWanted([]) == [] && FlatData([]) == [] && AskedAt([], views) == [] && Budgeted([], max, 0) == []
    ensures TotalBytes([]) == 0 && ValidCount([]) == 0
  {
  }

  // ----- A partition requested twice

  // Topics are never removed, and their logs only grow, while a request is served.
  ghost predicate GrowingViews(ext: Externals, views: nat -> Catalogue) {
    forall i: nat, j: nat, topic: string, index: int | i <= j && Find(views(i), topic, index).Some? ::
      Find(views(j), topic, index).Some?
      && Extends(ext, Find(views(i), topic, index).value, Find(views(j), topic, index).value)
  }

  lemma RepeatedRead(ext: Externals, wanted: seq<Wanted>, views: nat -> Catalogue, i: nat, j: nat)
    requires GrowingViews(ext, views) && i <= j < |wanted|
    requires wanted[i].topic == wanted[j].topic && wanted[i].request.index == wanted[j].request.index
    ensures var a, b := AskedAt(wanted, views)[i], AskedAt(wanted, views)[j];
            a.log.Some? ==> b.log.Some? && Extends(ext, a.log.value, b.log.value)
  {
    hide Extends, Find;
    assert AskedAt(wanted, views)[i] == Seen(wanted[i], views(i));
    assert AskedAt(wanted, views)[j] == Seen(wanted[j], views(j));
  }

  lemma GrowingIsSound(ext: Externals, wanted: seq<Wanted>, views: nat -> Catalogue)
    requires GrowingViews(ext, views)
    ensures LogsSound(ext, AskedAt(wanted, views))
  {
    hide LogSound;
    forall i | 0 <= i < |wanted| && AskedAt(wanted, views)[i].log.Some?
      ensures LogSound(ext, AskedAt(wanted, views)[i].log.value)
    {
      RepeatedRead(ext, wanted, views, i, i);
    }
  }

  // Slices of a log and of a longer one that start at the same offset start with the same batch.
  lemma SlicesAgree(ext: Externals, log: LogView, later: LogView, offset: int, from: nat, to: nat, start: nat, end: nat)
    requires Extends(ext, log, later)
    requires from < to <= |log.batches| && log.batches[from].baseOffset <= offset <= log.batches[from].lastOffset
    requires start < end <= |later.batches|
    requires later.batches[start].baseOffset <= offset <= later.batches[start].lastOffset
    ensures start == from
    ensures log.batches[from..to] <= later.batches[start..end] || later.batches[start..end] <= log.batches[from..to]
  {
    hide Sequenced, WindowSound, EpochsSound, AllStored, Tiled;
    assert later.batches[from] == log.batches[from];
    OnlyOneContains(later.batches, from, start, offset, 0, later.nextOffset);
    assert log.batches[from..to] == later.batches[from..to];
  }

  lemma {:induction false} JoinedPrefix(a: seq<StoredBatch>, b: seq<StoredBatch>)
    requires a <= b
    ensures JoinBytes(a) <= JoinBytes(b)
  {
    if a != [] {
      JoinedPrefix(a[1..], b[1..]);
    }
  }

  // Two answers about one partition at one offset: the later one is valid if the earlier one is, and the
  // records of one are the front of the other's.
  lemma RepeatedPartitionAgrees(ext: Externals, wanted: seq<Wanted>, views: nat -> Catalogue, max: nat, i: nat, j: nat)
    requires GrowingViews(ext, views) && i < j < |wanted|
    requires wanted[i].topic == wanted[j].topic && wanted[i].request.index == wanted[j].request.index
    requires wanted[i].request.offset == wanted[j].request.offset
    ensures var answers := Budgeted(AskedAt(wanted, views), max, 0);
            && |answers| == |wanted|
            && (answers[i].code == NoError ==> answers[j].code == NoError)
            && (answers[i].records <= answers[j].records || answers[j].records <= answers[i].records)
  {
    hide Budgeted, LogSound, JoinBytes, Extends, AskedAt, GrowingViews;
    var asked := AskedAt(wanted, views);
    GrowingIsSound(ext, wanted, views);
    AnswersLineUp(ext, asked, max, 0);
    RepeatedRead(ext, wanted, views, i, j);
    SameRequest(wanted, views, i, j);
    var a, b := asked[i], asked[j];
    var answers := Budgeted(asked, max, 0);
    if InRange(a) {
      EndIsNotLower(ext, a.log.value, b.log.value);
    }
    if answers[i].records != [] && answers[j].records != [] {
      var from: nat, to: nat :| SliceFor(a, answers[i], from, to);
      var start: nat, end: nat :| SliceFor(b, answers[j], start, end);
      SlicesAgree(ext, a.log.value, b.log.value, a.offset, from, to, start, end);
      var x, y := a.log.value.batches[from..to], b.log.value.batches[start..end];
      if x <= y {
        JoinedPrefix(x, y);
      } else {
        JoinedPrefix(y, x);
      }
    }
  }

  lemma SameRequest(wanted: seq<Wanted>, views: nat -> Catalogue, i: nat, j: nat)
    requires i < |wanted| && j < |wanted| && wanted[i].request.offset == wanted[j].request.offset
    ensures AskedAt(wanted, views)[i].offset == AskedAt(wanted, views)[j].offset
  {
    assert AskedAt(wanted, views)[i] == Seen(wanted[i], views(i));
    assert AskedAt(wanted, views)[j] == Seen(wanted[j], views(j));
  }

  lemma EndIsNotLower(ext: Externals, log: LogView, later: LogView)
    requires Extends(ext, log, later)
    ensures log.nextOffset <= later.nextOffset
  {
  }
}
