/** Cursor pagination over the partitions of the topic catalogue. */
module TopicPages {
  import opened Text

  // ----- Requests and pages

  datatype Cursor = Cursor(topic: string, partition: int)

  // No topics means all topics of the catalogue.
  datatype PageRequest = PageRequest(topics: seq<string>, cursor: Option<Cursor>, limit: int)

  datatype TopicCode = UnknownTopic | InvalidTopic | InvalidRequest

  // A topic with the partitions `from` up to `to`, or a topic that has none to show.
  datatype PageTopic = Found(name: string, from: nat, to: nat) | Failed(name: string, code: TopicCode)

  datatype Page = Page(topics: seq<PageTopic>, next: Option<Cursor>)

  // Partition counts by topic name.
  type Catalog = map<string, nat>

  predicate NameChar(c: char) {
    'a' <= c <= 'z' || 'A' <= c <= 'Z' || '0' <= c <= '9' || c == '.' || c == '_' || c == '-'
  }

  predicate ValidName(name: string) {
    0 < |name| <= 249 && name != "." && name != ".." && forall i | 0 <= i < |name| :: NameChar(name[i])
  }

  // The characters next to the admitted ranges, and names next to the admitted ones.
  lemma NameLimits()
    ensures forall c | c in "azAZ09._-" :: NameChar(c)
    ensures forall c | c in "`{@[/:,+ " :: !NameChar(c)
    ensures !ValidName("") && !ValidName(".") && !ValidName("..") && ValidName("...")
    ensures forall name: string | forall i | 0 <= i < |name| :: NameChar(name[i]) ::
              3 <= |name| ==> (ValidName(name) <==> |name| <= 249)
  {
    assert |"..."| == 3 && forall i | 0 <= i < 3 :: "..."[i] == '.';
  }

  predicate InBounds(cursor: Option<Cursor>) {
    cursor.Some? ==> cursor.value.partition >= 0
  }

  function NamesOf(topics: seq<string>, catalog: Catalog): set<string> {
    if topics == [] then catalog.Keys else Elements(topics)
  }

  // The names at or after the cursor's.
  function FromName(names: seq<string>, name: string): seq<string> {
    if names == [] then []
    else if Le(name, names[0]) then [names[0]] + FromName(names[1..], name)
    else FromName(names[1..], name)
  }

  function FromCursor(names: seq<string>, cursor: Option<Cursor>): seq<string> {
    if cursor.None? then names else FromName(names, cursor.value.topic)
  }

  predicate CursorAccepted(topics: seq<string>, cursor: Option<Cursor>) {
    InBounds(cursor) && (topics != [] && cursor.Some? ==> cursor.value.topic in topics)
  }

  function StartIn(cursor: Option<Cursor>, name: string): nat
    requires InBounds(cursor)
  {
    if cursor.Some? && cursor.value.topic == name then cursor.value.partition else 0
  }

  function Taken(start: nat, end: nat, remaining: nat): nat {
    if end <= start then 0 else if end - start < remaining then end - start else remaining
  }

  function PushFront(t: PageTopic, page: Page): Page {
    Page([t] + page.topics, page.next)
  }

  // One page over the selected names with `remaining` partitions to give out.
  function PageOf(catalog: Catalog, names: seq<string>, cursor: Option<Cursor>, remaining: nat): Page
    requires InBounds(cursor)
  {
    if names == [] then Page([], None)
    else
      var name := names[0];
      if !ValidName(name) then PushFront(Failed(name, InvalidTopic), PageOf(catalog, names[1..], cursor, remaining))
      else if name !in catalog then
        PushFront(Failed(name, UnknownTopic), PageOf(catalog, names[1..], cursor, remaining))
      else
        var start, end := StartIn(cursor, name), catalog[name];
        var take := Taken(start, end, remaining);
        var found := Found(name, start, start + take);
        if start + take < end then Page([found], Some(Cursor(name, start + take)))
        else if remaining == take && |names| > 1 then Page([found], Some(Cursor(names[1], 0)))
        else PushFront(found, PageOf(catalog, names[1..], cursor, remaining - take))
  }

  function AtLeastOne(limit: int): nat {
    if limit < 1 then 1 else limit
  }

  function Refused(topics: seq<string>): Page {
    Page(seq(|topics|, i requires 0 <= i < |topics| => Failed(topics[i], InvalidRequest)), None)
  }

  ghost function Respond(catalog: Catalog, request: PageRequest): Page {
    if !CursorAccepted(request.topics, request.cursor) then Refused(request.topics)
    else
      PageOf(catalog, FromCursor(Sorted(NamesOf(request.topics, catalog)), request.cursor), request.cursor,
             AtLeastOne(request.limit))
  }

  // ----- The loops

  lemma {:induction false} FromNameAppend(names: seq<string>, last: string, name: string)
    ensures FromName(names + [last], name) == FromName(names, name) + (if Le(name, last) then [last] else [])
  {
    if names == [] {
      assert names + [last] == [last];
    } else {
      FromNameAppend(names[1..], last, name);
      assert (names + [last])[1..] == names[1..] + [last];
    }
  }

  method SelectNames(request: PageRequest, catalog: Catalog) returns (names: seq<string>)
    requires CursorAccepted(request.topics, request.cursor)
    ensures names == FromCursor(Sorted(NamesOf(request.topics, catalog)), request.cursor)
  {
    hide Sorted, Le, StrictlySorted;
    var all := SortIds(NamesOf(request.topics, catalog));
    if request.cursor.None? {
      return all;
    }
    var cursor := request.cursor.value.topic;
    names := [];
    for i := 0 to |all|
      invariant names == FromName(all[..i], cursor)
    {
      FromNameAppend(all[..i], all[i], cursor);
      assert all[..i + 1] == all[..i] + [all[i]];
      if Le(cursor, all[i]) {
        names := names + [all[i]];
      }
    }
    assert all[..|all|] == all;
  }

  // The page that the topics already pushed and the page of the remaining names make together.
  function Pushed(topics: seq<PageTopic>, rest: Page): Page {
    Page(topics + rest.topics, rest.next)
  }

  lemma PushedOne(topics: seq<PageTopic>, t: PageTopic, rest: Page)
    ensures Pushed(topics, PushFront(t, rest)) == Pushed(topics + [t], rest)
  {
    assert topics + ([t] + rest.topics) == (topics + [t]) + rest.topics;
  }

  // The page of the names from index `i` on, by its first name.
  lemma PageStep(catalog: Catalog, names: seq<string>, i: nat, cursor: Option<Cursor>, remaining: nat)
    requires InBounds(cursor) && i < |names|
    ensures var name := names[i];
            var start, end := StartIn(cursor, name), if name in catalog then catalog[name] else 0;
            var take := Taken(start, end, remaining);
            PageOf(catalog, names[i..], cursor, remaining)
            == if !ValidName(name) then
                 PushFront(Failed(name, InvalidTopic), PageOf(catalog, names[i + 1..], cursor, remaining))
               else if name !in catalog then
                 PushFront(Failed(name, UnknownTopic), PageOf(catalog, names[i + 1..], cursor, remaining))
               else if start + take < end then
                 Page([Found(name, start, start + take)], Some(Cursor(name, start + take)))
               else if remaining == take && i + 1 < |names| then
                 Page([Found(name, start, start + take)], Some(Cursor(names[i + 1], 0)))
               else
                 PushFront(Found(name, start, start + take), PageOf(catalog, names[i + 1..], cursor, remaining - take))
  {
    hide ValidName, PushFront;
    assert names[i..][1..] == names[i + 1..];
  }

  lemma PageEnd(catalog: Catalog, names: seq<string>, cursor: Option<Cursor>, remaining: nat)
    requires InBounds(cursor)
    ensures PageOf(catalog, names[|names|..], cursor, remaining) == Page([], None)
  {
  }

  method FillPage(catalog: Catalog, names: seq<string>, cursor: Option<Cursor>, limit: nat) returns (page: Page)
    requires InBounds(cursor)
    ensures page == PageOf(catalog, names, cursor, limit)
  {
    hide ValidName, PageOf, PushFront;
    var remaining := limit;
    var topics: seq<PageTopic> := [];
    ghost var whole := PageOf(catalog, names, cursor, limit);
    assert names[0..] == names && [] + whole.topics == whole.topics;
    for i := 0 to |names|
      invariant Pushed(topics, PageOf(catalog, names[i..], cursor, remaining)) == whole
    {
      var name := names[i];
      PageStep(catalog, names, i, cursor, remaining);
      var pushed;
      if !ValidName(name) {
        pushed := Failed(name, InvalidTopic);
      } else if name !in catalog {
        pushed := Failed(name, UnknownTopic);
      } else {
        var start, end := StartIn(cursor, name), catalog[name];
        var take := Taken(start, end, remaining);
        pushed := Found(name, start, start + take);
        if start + take < end {
          return Page(topics + [pushed], Some(Cursor(name, start + take)));
        }
        if remaining == take && i + 1 < |names| {
          return Page(topics + [pushed], Some(Cursor(names[i + 1], 0)));
        }
        remaining := remaining - take;
      }
      PushedOne(topics, pushed, PageOf(catalog, names[i + 1..], cursor, remaining));
      topics := topics + [pushed];
    }
    PageEnd(catalog, names, cursor, remaining);
    assert topics + [] == topics;
    page := Page(topics, None);
  }

  method Response(catalog: Catalog, request: PageRequest) returns (page: Page)
    ensures page == Respond(catalog, request)
  {
    if !CursorAccepted(request.topics, request.cursor) {
      return Refused(request.topics);
    }
    var names := SelectNames(request, catalog);
    page := FillPage(catalog, names, request.cursor, AtLeastOne(request.limit));
  }

  // ----- The unpaged listing

  datatype Item = Part(topic: string, partition: nat) | Missing(topic: string, code: TopicCode)

  function Parts(name: string, from: nat, to: nat): seq<Item> {
    if to <= from then [] else seq(to - from, i requires 0 <= i < to - from => Part(name, from + i))
  }

  function ItemsOf(t: PageTopic): seq<Item> {
    match t
    case Found(name, from, to) => Parts(name, from, to)
    case Failed(name, code) => [Missing(name, code)]
  }

  function Items(topics: seq<PageTopic>): seq<Item> {
    if topics == [] then [] else ItemsOf(topics[0]) + Items(topics[1..])
  }

  // All there is to tell about a topic from partition `from` on.
  function TopicItems(catalog: Catalog, name: string, from: nat): seq<Item> {
    if !ValidName(name) then [Missing(name, InvalidTopic)]
    else if name !in catalog then [Missing(name, UnknownTopic)]
    else Parts(name, from, catalog[name])
  }

  function Listing(catalog: Catalog, names: seq<string>, cursor: Option<Cursor>): seq<Item>
    requires InBounds(cursor)
  {
    if names == [] then []
    else TopicItems(catalog, names[0], StartIn(cursor, names[0])) + Listing(catalog, names[1..], cursor)
  }

  function PartCount(topics: seq<PageTopic>): nat {
    if topics == [] then 0
    else
      var t := topics[0];
      (if t.Found? && t.from < t.to then t.to - t.from else 0) + PartCount(topics[1..])
  }

  // ----- One page

  // The cursor `next` is after `cursor`.
  ghost predicate Later(cursor: Option<Cursor>, next: Cursor) {
    cursor.None? || Lt(cursor.value.topic, next.topic)
      || (cursor.value.topic == next.topic && cursor.value.partition < next.partition)
  }

  ghost predicate AllFrom(names: seq<string>, cursor: Option<Cursor>) {
    cursor.Some? ==> forall i | 0 <= i < |names| :: Le(cursor.value.topic, names[i])
  }

  // The page is the front of the listing and its cursor the start of the rest.
  ghost predicate Covers(catalog: Catalog, names: seq<string>, cursor: Option<Cursor>, remaining: nat, page: Page) {
    && InBounds(cursor)
    && PartCount(page.topics) <= remaining
    && match page.next
       case None => Items(page.topics) == Listing(catalog, names, cursor)
       case Some(next) =>
         && next.topic in names && next.partition >= 0 && Later(cursor, next)
         && PartCount(page.topics) == remaining
         && Items(page.topics) + Listing(catalog, FromName(names, next.topic), Some(next))
            == Listing(catalog, names, cursor)
         && |Listing(catalog, FromName(names, next.topic), Some(next))| < |Listing(catalog, names, cursor)|
  }

  // In a sorted listing the names from one of them on are a suffix.
  lemma {:induction false} FromNameIsSuffix(names: seq<string>, k: nat)
    requires StrictlySorted(names) && k < |names|
    ensures FromName(names, names[k]) == names[k..]
    decreases |names|
  {
    hide Le;
    if k == 0 {
      LeIsTotal(names[0], names[0]);
      AllKept(names[1..], names[0]);
    } else {
      assert !Le(names[k], names[0]) by {
        if Le(names[k], names[0]) { LeIsAntisymmetric(names[k], names[0]); }
      }
      FromNameIsSuffix(names[1..], k - 1);
    }
  }

  lemma {:induction false} AllKept(names: seq<string>, name: string)
    requires forall i | 0 <= i < |names| :: Le(name, names[i])
    ensures FromName(names, name) == names
  {
    hide Le;
    if names != [] {
      AllKept(names[1..], name);
    }
  }

  lemma {:induction false} SameStarts(catalog: Catalog, names: seq<string>, a: Option<Cursor>, b: Option<Cursor>)
    requires InBounds(a) && InBounds(b) && forall i | 0 <= i < |names| :: StartIn(a, names[i]) == StartIn(b, names[i])
    ensures Listing(catalog, names, a) == Listing(catalog, names, b)
  {
    if names != [] {
      SameStarts(catalog, names[1..], a, b);
    }
  }

  // After the first selected name, listing starts at partition 0.
  lemma RestStartsAtZero(names: seq<string>, cursor: Option<Cursor>, i: nat)
    requires StrictlySorted(names) && InBounds(cursor) && AllFrom(names, cursor) && 0 < i < |names|
    ensures StartIn(cursor, names[i]) == 0 && (cursor.Some? ==> Lt(cursor.value.topic, names[i]))
  {
    if cursor.Some? {
      LtIsTransitive(cursor.value.topic, names[0], names[i]);
    }
  }

  lemma PartsJoin(name: string, a: nat, b: nat, c: nat)
    requires a <= b <= c
    ensures Parts(name, a, b) + Parts(name, b, c) == Parts(name, a, c)
  {
  }

  lemma ItemsOfOne(t: PageTopic)
    ensures Items([t]) == ItemsOf(t) && PartCount([t]) == if t.Found? && t.from < t.to then t.to - t.from else 0
  {
    assert ItemsOf(t) + [] == ItemsOf(t);
  }

  lemma CutListing(catalog: Catalog, names: seq<string>, cursor: Option<Cursor>, start: nat, remaining: nat)
    requires StrictlySorted(names) && InBounds(cursor) && AllFrom(names, cursor)
    requires names != [] && ValidName(names[0]) && names[0] in catalog
    requires start == StartIn(cursor, names[0]) && start + remaining < catalog[names[0]]
    ensures Parts(names[0], start, start + remaining)
            + Listing(catalog, names, Some(Cursor(names[0], start + remaining)))
            == Listing(catalog, names, cursor)
  {
    hide ValidName, Le, Parts, StrictlySorted, AllFrom, Listing;
    var next := Some(Cursor(names[0], start + remaining));
    var rest := names[1..];
    forall i | 0 <= i < |rest| ensures StartIn(cursor, rest[i]) == StartIn(next, rest[i]) {
      RestStartsAtZero(names, cursor, i + 1);
      assert rest[i] == names[i + 1] && names[i + 1] != names[0] by { FirstIsAlone(names, i + 1); }
    }
    SameStarts(catalog, rest, cursor, next);
    PartsJoin(names[0], start, start + remaining, catalog[names[0]]);
    ListingStep(catalog, names, cursor);
    ListingStep(catalog, names, next);
  }

  lemma ListingStep(catalog: Catalog, names: seq<string>, cursor: Option<Cursor>)
    requires names != [] && InBounds(cursor)
    ensures Listing(catalog, names, cursor)
            == TopicItems(catalog, names[0], StartIn(cursor, names[0])) + Listing(catalog, names[1..], cursor)
  {
  }

  lemma FirstIsAlone(names: seq<string>, i: nat)
    requires StrictlySorted(names) && 0 < i < |names|
    ensures names[i] != names[0]
  {
  }

  // The limit cuts inside the first topic.
  lemma CutInTopic(catalog: Catalog, names: seq<string>, cursor: Option<Cursor>, start: nat, remaining: nat)
    requires StrictlySorted(names) && InBounds(cursor) && AllFrom(names, cursor) && remaining > 0
    requires names != [] && ValidName(names[0]) && names[0] in catalog
    requires start == StartIn(cursor, names[0]) && start + remaining < catalog[names[0]]
    ensures Covers(catalog, names, cursor, remaining,
                   Page([Found(names[0], start, start + remaining)], Some(Cursor(names[0], start + remaining))))
  {
    hide ValidName, Le, FromName, Items, PartCount, Listing, StrictlySorted;
    ItemsOfOne(Found(names[0], start, start + remaining));
    FromNameIsSuffix(names, 0);
    assert names[0..] == names;
    CutListing(catalog, names, cursor, start, remaining);
    assert names[0] in names;
  }

  // The limit is used up exactly at the end of the first topic.
  lemma CutAfterTopic(catalog: Catalog, names: seq<string>, cursor: Option<Cursor>, start: nat, remaining: nat)
    requires StrictlySorted(names) && InBounds(cursor) && AllFrom(names, cursor) && remaining > 0
    requires |names| > 1 && ValidName(names[0]) && names[0] in catalog
    requires start == StartIn(cursor, names[0]) && start + remaining == catalog[names[0]]
    ensures Covers(catalog, names, cursor, remaining,
                   Page([Found(names[0], start, start + remaining)], Some(Cursor(names[1], 0))))
  {
    hide ValidName, Le;
    var next := Cursor(names[1], 0);
    ItemsOfOne(Found(names[0], start, start + remaining));
    FromNameIsSuffix(names, 1);
    forall i | 0 <= i < |names[1..]| ensures StartIn(cursor, names[1..][i]) == StartIn(Some(next), names[1..][i]) {
      RestStartsAtZero(names, cursor, i + 1);
    }
    SameStarts(catalog, names[1..], cursor, Some(next));
    RestStartsAtZero(names, cursor, 1);
    assert names[1] in names;
  }

  // A topic shown in full before a page of the remaining names.
  lemma PushCovers(catalog: Catalog, names: seq<string>, cursor: Option<Cursor>, t: PageTopic, page: Page, left: nat)
    requires StrictlySorted(names) && names != [] && InBounds(cursor)
    requires Covers(catalog, names[1..], cursor, left, page)
    requires ItemsOf(t) == TopicItems(catalog, names[0], StartIn(cursor, names[0]))
    ensures Covers(catalog, names, cursor, PartCount([t]) + left, PushFront(t, page))
  {
    hide ValidName, Le, TopicItems, ItemsOf, Listing, FromName;
    ListingStep(catalog, names, cursor);
    var pushed := PushFront(t, page);
    ItemsOfOne(t);
    assert pushed.topics[1..] == page.topics;
    if page.next.Some? {
      var next := page.next.value;
      var k :| 0 <= k < |names[1..]| && names[1..][k] == next.topic;
      FromNameIsSuffix(names, k + 1);
      FromNameIsSuffix(names[1..], k);
      assert names[k + 1..] == names[1..][k..];
      var more := Listing(catalog, FromName(names, next.topic), Some(next));
      assert ItemsOf(t) + (Items(page.topics) + more) == (ItemsOf(t) + Items(page.topics)) + more;
      assert names[k + 1] in names;
    }
  }

  lemma {:induction false} PageCovers(catalog: Catalog, names: seq<string>, cursor: Option<Cursor>, remaining: nat)
    requires StrictlySorted(names) && InBounds(cursor) && AllFrom(names, cursor) && remaining > 0
    ensures Covers(catalog, names, cursor, remaining, PageOf(catalog, names, cursor, remaining))
    decreases |names|
  {
    hide ValidName, Le, Covers;
    if names == [] {
      NothingCovers(catalog, cursor, remaining);
    } else {
      var name, rest := names[0], names[1..];
      if !ValidName(name) || name !in catalog {
        PageCovers(catalog, rest, cursor, remaining);
        var failed := Failed(name, if !ValidName(name) then InvalidTopic else UnknownTopic);
        ItemsOfOne(failed);
        PushCovers(catalog, names, cursor, failed, PageOf(catalog, rest, cursor, remaining), remaining);
      } else {
        var start, end := StartIn(cursor, name), catalog[name];
        var take := Taken(start, end, remaining);
        var found := Found(name, start, start + take);
        if start + take < end {
          CutInTopic(catalog, names, cursor, start, remaining);
        } else if remaining == take && |names| > 1 {
          CutAfterTopic(catalog, names, cursor, start, remaining);
        } else {
          if remaining > take {
            PageCovers(catalog, rest, cursor, remaining - take);
          } else {
            NothingCovers(catalog, cursor, 0);
          }
          ItemsOfOne(found);
          PushCovers(catalog, names, cursor, found, PageOf(catalog, rest, cursor, remaining - take), remaining - take);
        }
      }
    }
  }

  lemma NothingCovers(catalog: Catalog, cursor: Option<Cursor>, remaining: nat)
    requires InBounds(cursor)
    ensures Covers(catalog, [], cursor, remaining, Page([], None))
  {
  }

  // ----- Following the cursor

  ghost function Selected(catalog: Catalog, topics: seq<string>, cursor: Option<Cursor>): seq<string> {
    FromCursor(Sorted(NamesOf(topics, catalog)), cursor)
  }

  lemma {:induction false} FromNameKeeps(names: seq<string>, name: string)
    requires StrictlySorted(names)
    ensures StrictlySorted(FromName(names, name))
    ensures forall i | 0 <= i < |FromName(names, name)| ::
            FromName(names, name)[i] in names && Le(name, FromName(names, name)[i])
  {
    hide Le;
    if names != [] {
      var rest := FromName(names[1..], name);
      FromNameKeeps(names[1..], name);
      forall i | 0 <= i < |rest| ensures Lt(names[0], rest[i]) && rest[i] in names {
        var j :| 0 <= j < |names[1..]| && names[1..][j] == rest[i];
      }
    }
  }

  lemma {:induction false} FromNameTwice(names: seq<string>, a: string, b: string)
    requires Le(a, b)
    ensures FromName(FromName(names, a), b) == FromName(names, b)
  {
    hide Le;
    if names != [] {
      FromNameTwice(names[1..], a, b);
      if Le(b, names[0]) {
        LeIsTransitive(a, b, names[0]);
      }
    }
  }

  // Every accepted request is answered by the front of its listing, and the cursor it returns is
  // accepted, later, and the start of exactly the rest.
  lemma ResponseCovers(catalog: Catalog, request: PageRequest)
    requires CursorAccepted(request.topics, request.cursor)
    ensures var page := Respond(catalog, request);
            var names := Selected(catalog, request.topics, request.cursor);
            && Covers(catalog, names, request.cursor, AtLeastOne(request.limit), page)
            && (page.next.Some? ==>
                  && CursorAccepted(request.topics, page.next)
                  && Selected(catalog, request.topics, page.next) == FromName(names, page.next.value.topic))
  {
    hide Le, Sorted, PageOf, Listing, Items, PartCount;
    var all := Sorted(NamesOf(request.topics, catalog));
    var names := Selected(catalog, request.topics, request.cursor);
    if request.cursor.Some? {
      FromNameKeeps(all, request.cursor.value.topic);
    }
    PageCovers(catalog, names, request.cursor, AtLeastOne(request.limit));
    var page := Respond(catalog, request);
    if page.next.Some? {
      var next := page.next.value;
      assert next.topic in all;
      assert next.topic in Elements(all);
      if request.cursor.Some? {
        FromNameTwice(all, request.cursor.value.topic, next.topic);
      }
    }
  }

  ghost function Left(catalog: Catalog, topics: seq<string>, cursor: Option<Cursor>): nat
    requires InBounds(cursor)
  {
    |Listing(catalog, Selected(catalog, topics, cursor), cursor)|
  }

  // A page shows at most as many partitions as asked for, or one; it has a cursor only if it shows so many.
  lemma PageProgresses(catalog: Catalog, request: PageRequest)
    requires CursorAccepted(request.topics, request.cursor)
    ensures var page := Respond(catalog, request);
            && PartCount(page.topics) <= (if request.limit >= 1 then request.limit else 1)
            && (page.next.Some? ==>
                  && PartCount(page.topics) == (if request.limit >= 1 then request.limit else 1)
                  && CursorAccepted(request.topics, page.next)
                  && Left(catalog, request.topics, page.next) < Left(catalog, request.topics, request.cursor))
  {
    hide Respond, Selected, Listing, PartCount, Items, FromName;
    ResponseCovers(catalog, request);
  }

  // A cursor is refused if its partition is negative, or if topics are named and its own is not among them; then
  // every named topic is told so, and there is nothing to follow.
  lemma RefusedIsExact(catalog: Catalog, request: PageRequest)
    ensures var page, cursor := Respond(catalog, request), request.cursor;
            var bad := cursor.Some? && (cursor.value.partition < 0
                                        || (request.topics != [] && cursor.value.topic !in request.topics));
            && (bad <==> !CursorAccepted(request.topics, cursor))
            && (bad ==>
                  && page.next.None? && |page.topics| == |request.topics|
                  && forall i | 0 <= i < |request.topics| ::
                       page.topics[i] == Failed(request.topics[i], InvalidRequest))
  {
    hide PageOf, Sorted;
  }

  // The pages a client gets by following cursors, with a limit of its own for each request.
  ghost function Follow(catalog: Catalog, topics: seq<string>, cursor: Option<Cursor>, limits: nat -> int,
                        round: nat): seq<Page>
    requires CursorAccepted(topics, cursor)
    decreases Left(catalog, topics, cursor)
  {
    var page := Respond(catalog, PageRequest(topics, cursor, limits(round)));
    PageProgresses(catalog, PageRequest(topics, cursor, limits(round)));
    if page.next.None? then [page] else [page] + Follow(catalog, topics, page.next, limits, round + 1)
  }

  ghost predicate WithinLimits(pages: seq<Page>, limits: nat -> int, round: nat) {
    forall i: nat | i < |pages| ::
      PartCount(pages[i].topics) <= if limits(round + i) >= 1 then limits(round + i) else 1
  }

  lemma WithinLimitsStep(page: Page, later: seq<Page>, limits: nat -> int, round: nat)
    requires PartCount(page.topics) <= (if limits(round) >= 1 then limits(round) else 1)
    requires WithinLimits(later, limits, round + 1)
    ensures WithinLimits([page] + later, limits, round)
  {
    var pages := [page] + later;
    forall i: nat | i < |pages|
      ensures PartCount(pages[i].topics) <= if limits(round + i) >= 1 then limits(round + i) else 1
    {
      if i > 0 {
        assert pages[i] == later[i - 1] && round + i == round + 1 + (i - 1);
      }
    }
  }

  // No page shows more partitions than its request asked for, or one.
  lemma {:induction false} PagesKeepLimits(catalog: Catalog, topics: seq<string>, cursor: Option<Cursor>,
                                           limits: nat -> int, round: nat)
    requires CursorAccepted(topics, cursor)
    ensures WithinLimits(Follow(catalog, topics, cursor, limits, round), limits, round)
    decreases Left(catalog, topics, cursor)
  {
    hide Respond, Left, WithinLimits;
    var page := Respond(catalog, PageRequest(topics, cursor, limits(round)));
    PageProgresses(catalog, PageRequest(topics, cursor, limits(round)));
    if page.next.Some? {
      PagesKeepLimits(catalog, topics, page.next, limits, round + 1);
      WithinLimitsStep(page, Follow(catalog, topics, page.next, limits, round + 1), limits, round);
    } else {
      assert WithinLimits([], limits, round + 1) by { NoPages(limits, round + 1); }
      WithinLimitsStep(page, [], limits, round);
      assert [page] + [] == [page];
    }
  }

  lemma NoPages(limits: nat -> int, round: nat)
    ensures WithinLimits([], limits, round)
  {
  }

  function AllItems(pages: seq<Page>): seq<Item> {
    if pages == [] then [] else Items(pages[0].topics) + AllItems(pages[1..])
  }

  // Together the pages are the unpaged listing.
  lemma {:induction false} PagesAreTheListing(catalog: Catalog, topics: seq<string>, cursor: Option<Cursor>,
                                              limits: nat -> int, round: nat)
    requires CursorAccepted(topics, cursor)
    ensures AllItems(Follow(catalog, topics, cursor, limits, round))
            == Listing(catalog, Selected(catalog, topics, cursor), cursor)
    decreases Left(catalog, topics, cursor)
  {
    hide Respond, Listing, Items, Selected, PartCount;
    var request := PageRequest(topics, cursor, limits(round));
    var page := Respond(catalog, request);
    ResponseCovers(catalog, request);
    if page.next.Some? {
      PagesAreTheListing(catalog, topics, page.next, limits, round + 1);
      var later := Follow(catalog, topics, page.next, limits, round + 1);
      assert ([page] + later)[1..] == later;
    } else {
      assert [page][1..] == [];
      assert Items(page.topics) + [] == Items(page.topics);
    }
  }

  // ----- What the unpaged listing is

  ghost predicate Precedes(a: Item, b: Item) {
    Lt(a.topic, b.topic) || (a.topic == b.topic && a.Part? && b.Part? && a.partition < b.partition)
  }

  // What the catalogue has to tell about the names.
  ghost predicate Expected(catalog: Catalog, names: set<string>, item: Item) {
    && item.topic in names
    && match item
       case Part(topic, partition) => ValidName(topic) && topic in catalog && partition < catalog[topic]
       case Missing(topic, code) =>
         if !ValidName(topic) then code == InvalidTopic else topic !in catalog && code == UnknownTopic
  }

  ghost predicate InOrder(listing: seq<Item>) {
    forall i, j | 0 <= i < j < |listing| :: Precedes(listing[i], listing[j])
  }

  ghost predicate IsExact(catalog: Catalog, names: set<string>, listing: seq<Item>) {
    forall item :: item in listing <==> Expected(catalog, names, item)
  }

  // Every partition of every known name once, every other name once, in order.
  lemma {:induction false} ListingIsExact(catalog: Catalog, names: seq<string>)
    requires StrictlySorted(names)
    ensures InOrder(Listing(catalog, names, None)) && IsExact(catalog, Elements(names), Listing(catalog, names, None))
    decreases |names|
  {
    hide Le, TopicItems, InOrder, IsExact;
    if names == [] {
      NothingIsExact(catalog);
      assert Elements(names) == {};
    } else {
      ListingIsExact(catalog, names[1..]);
      FirstIsExact(catalog, names[0]);
      JoinIsExact(catalog, names[0], Elements(names[1..]), TopicItems(catalog, names[0], 0),
                  Listing(catalog, names[1..], None));
      assert Elements(names) == {names[0]} + Elements(names[1..]);
    }
  }

  lemma NothingIsExact(catalog: Catalog)
    ensures InOrder([]) && IsExact(catalog, {}, [])
  {
  }

  lemma JoinIsExact(catalog: Catalog, name: string, names: set<string>, first: seq<Item>, rest: seq<Item>)
    requires forall other | other in names :: Lt(name, other)
    requires InOrder(first) && IsExact(catalog, {name}, first) && InOrder(rest) && IsExact(catalog, names, rest)
    ensures InOrder(first + rest) && IsExact(catalog, {name} + names, first + rest)
  {
    hide Le, ValidName;
    var listing := first + rest;
    forall i, j | 0 <= i < j < |listing| ensures Precedes(listing[i], listing[j]) {
      if i < |first| <= j {
        assert Expected(catalog, {name}, first[i]) && Expected(catalog, names, rest[j - |first|]);
      } else if i >= |first| {
        assert Precedes(rest[i - |first|], rest[j - |first|]);
      }
    }
    forall item ensures item in listing <==> Expected(catalog, {name} + names, item) {
      assert item in listing <==> item in first || item in rest;
    }
  }

  lemma FirstIsExact(catalog: Catalog, name: string)
    ensures InOrder(TopicItems(catalog, name, 0)) && IsExact(catalog, {name}, TopicItems(catalog, name, 0))
  {
    hide ValidName;
    forall item ensures item in TopicItems(catalog, name, 0) <==> Expected(catalog, {name}, item) {
      if Expected(catalog, {name}, item) && item.Part? {
        assert TopicItems(catalog, name, 0)[item.partition] == item;
      }
    }
  }

  // From the first page on: the pages a client collects list exactly what the catalogue has to tell
  // about the requested names, once each and in order.
  lemma PagingIsComplete(catalog: Catalog, topics: seq<string>, limits: nat -> int)
    ensures InOrder(AllItems(Follow(catalog, topics, None, limits, 0)))
    ensures IsExact(catalog, NamesOf(topics, catalog), AllItems(Follow(catalog, topics, None, limits, 0)))
  {
    hide Sorted, Listing, Follow, AllItems, InOrder, IsExact;
    PagesAreTheListing(catalog, topics, None, limits, 0);
    ListingIsExact(catalog, Sorted(NamesOf(topics, catalog)));
  }
}
