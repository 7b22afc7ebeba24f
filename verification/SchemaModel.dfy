/** The schema registry's four indexes as a value, and what every run of registrations keeps of them. */
module SchemaModel {
  import opened Text
  import opened Octets

  datatype Registered = Registered(subject: string, version: int, id: int, schema: string)

  datatype RegistryError = SubjectNotFound | VersionNotFound | SchemaNotFound

  datatype Answer<+T> = Ok(value: T) | Err(error: RegistryError)

  datatype Store = Store(
    nextId: int,
    idByText: map<string, int>,
    textById: map<int, string>,
    subjects: map<string, seq<Registered>>)

  function EmptyStore(): Store {
    Store(1, map[], map[], map[])
  }

  function VersionsOf(s: Store, subject: string): seq<Registered> {
    if subject in s.subjects then s.subjects[subject] else []
  }

  function FindSchema(versions: seq<Registered>, schema: string): (found: Option<nat>)
    ensures found.Some? ==> found.value < |versions| && versions[found.value].schema == schema
    ensures found.None? ==> forall k | 0 <= k < |versions| :: versions[k].schema != schema
  {
    if versions == [] then None
    else if versions[0].schema == schema then Some(0)
    else
      match FindSchema(versions[1..], schema)
      case None =>
        assert forall k | 0 < k < |versions| :: versions[k] == versions[1..][k - 1];
        None
      case Some(k) => Some(k + 1)
  }

  // ----- Registering

  // No result stands for the panic on an exhausted space of ids or versions.
  datatype Outcome = Outcome(store: Store, result: Option<Registered>)

  // The id of a text, allocated if need be; none when no id is left.
  function Allocate(s: Store, schema: string): (t: Option<Store>)
    ensures t.Some? ==> schema in t.value.idByText
  {
    if schema in s.idByText then Some(s)
    else if s.nextId + 1 > MAX_I32 then None
    else
      Some(s.(nextId := s.nextId + 1,
              idByText := s.idByText[schema := s.nextId],
              textById := s.textById[s.nextId := schema]))
  }

  function Register(s: Store, subject: string, schema: string): Outcome {
    var versions := VersionsOf(s, subject);
    var found := FindSchema(versions, schema);
    if found.Some? then Outcome(s, Some(versions[found.value]))
    else
      match Allocate(s, schema)
      case None => Outcome(s, None)
      case Some(t) =>
        if |versions| + 1 > MAX_I32 then Outcome(t, None)
        else
          var registered := Registered(subject, |versions| + 1, t.idByText[schema], schema);
          Outcome(t.(subjects := t.subjects[subject := versions + [registered]]), Some(registered))
  }

  // ----- The invariant

  // Text to id and id to text are inverse bijections onto 1 .. nextId - 1.
  ghost predicate IndexesInverse(s: Store) {
    && 1 <= s.nextId <= MAX_I32
    && (forall id :: id in s.textById <==> 1 <= id < s.nextId)
    && (forall id | id in s.textById :: s.textById[id] in s.idByText && s.idByText[s.textById[id]] == id)
    && forall text | text in s.idByText :: s.idByText[text] in s.textById && s.textById[s.idByText[text]] == text
  }

  // A subject's versions are 1 to n, with distinct texts whose ids are the global ones.
  predicate HistorySound(idByText: map<string, int>, subject: string, versions: seq<Registered>) {
    && versions != []
    && (forall k | 0 <= k < |versions| ::
          && versions[k].subject == subject && versions[k].version == k + 1
          && versions[k].schema in idByText && versions[k].id == idByText[versions[k].schema])
    && forall j, k | 0 <= j < k < |versions| :: versions[j].schema != versions[k].schema
  }

  predicate HasText(versions: seq<Registered>, text: string) {
    exists k :: 0 <= k < |versions| && versions[k].schema == text
  }

  ghost predicate InUse(s: Store, text: string) {
    exists subject :: subject in s.subjects && HasText(s.subjects[subject], text)
  }

  ghost predicate StoreSound(s: Store) {
    && IndexesInverse(s)
    && (forall subject | subject in s.subjects :: HistorySound(s.idByText, subject, s.subjects[subject]))
    && forall text | text in s.idByText :: InUse(s, text)
  }

  lemma EmptyStoreIsSound()
    ensures StoreSound(EmptyStore())
  {
  }

  lemma AllocateKeepsInverse(s: Store, schema: string)
    requires IndexesInverse(s)
    ensures match Allocate(s, schema)
            case None => s.nextId == MAX_I32 && schema !in s.idByText
            case Some(t) =>
              && IndexesInverse(t) && schema in t.idByText && t.subjects == s.subjects
              && s.nextId <= t.nextId
              && (forall text | text in s.idByText :: text in t.idByText && t.idByText[text] == s.idByText[text])
              && forall text | text in t.idByText :: text in s.idByText || text == schema
  {
  }

  // ----- Versions never run out before ids do

  lemma {:induction false} DistinctIdsFit(ids: seq<int>, bound: nat)
    requires forall k | 0 <= k < |ids| :: 1 <= ids[k] <= bound
    requires forall j, k | 0 <= j < k < |ids| :: ids[j] != ids[k]
    ensures |ids| <= bound
    decreases bound
  {
    if ids != [] {
      assert 1 <= ids[0] <= bound;
      if bound in ids {
        var k :| 0 <= k < |ids| && ids[k] == bound;
        DistinctIdsFit(ids[..k] + ids[k + 1..], bound - 1);
      } else {
        DistinctIdsFit(ids, bound - 1);
      }
    }
  }

  lemma HistoryIsShort(s: Store, subject: string, schema: string)
    requires StoreSound(s) && FindSchema(VersionsOf(s, subject), schema).None?
    ensures schema in s.idByText ==> |VersionsOf(s, subject)| + 1 < s.nextId
    ensures schema !in s.idByText ==> |VersionsOf(s, subject)| < s.nextId
  {
    var versions := VersionsOf(s, subject);
    var ids := seq(|versions|, k requires 0 <= k < |versions| => versions[k].id);
    assert subject in s.subjects ==> HistorySound(s.idByText, subject, versions);
    forall k | 0 <= k < |ids| ensures 1 <= ids[k] <= s.nextId - 1 && s.textById[ids[k]] == versions[k].schema {
    }
    forall j, k | 0 <= j < k < |ids| ensures ids[j] != ids[k] {
      assert s.textById[ids[j]] != s.textById[ids[k]];
    }
    if schema in s.idByText {
      var more := ids + [s.idByText[schema]];
      forall j, k | 0 <= j < k < |more| ensures more[j] != more[k] {
        if k == |ids| {
          assert s.textById[ids[j]] != schema;
        }
      }
      DistinctIdsFit(more, s.nextId - 1);
    } else {
      DistinctIdsFit(ids, s.nextId - 1);
    }
  }

  // A registration fails only when a new text finds no id left, and then nothing has changed: the
  // version counter never runs out first.
  lemma FailsOnlyWithoutIds(s: Store, subject: string, schema: string)
    requires StoreSound(s)
    ensures Register(s, subject, schema).result.None? <==> schema !in s.idByText && s.nextId == MAX_I32
    ensures Register(s, subject, schema).result.None? ==> Register(s, subject, schema).store == s
  {
    hide FindSchema;
    var versions := VersionsOf(s, subject);
    if FindSchema(versions, schema).None? {
      HistoryIsShort(s, subject, schema);
      AllocateKeepsInverse(s, schema);
    } else {
      assert HistorySound(s.idByText, subject, versions);
    }
  }

  // ----- One registration

  lemma {:induction false} FirstIsOnly(versions: seq<Registered>, schema: string, k: nat)
    requires k < |versions| && versions[k].schema == schema
    requires forall i, j | 0 <= i < j < |versions| :: versions[i].schema != versions[j].schema
    ensures FindSchema(versions, schema) == Some(k)
  {
    var found := FindSchema(versions, schema);
    assert versions[found.value].schema == schema;
  }

  // What a registration that succeeds with a new version does.
  ghost predicate Extends(s: Store, subject: string, r: Registered, t: Store) {
    && t.subjects == s.subjects[subject := VersionsOf(s, subject) + [r]]
    && (forall text | text in s.idByText :: text in t.idByText && t.idByText[text] == s.idByText[text])
    && (forall text | text in t.idByText :: text in s.idByText || text == r.schema)
    && r.schema in t.idByText && r == Registered(subject, |VersionsOf(s, subject)| + 1, t.idByText[r.schema], r.schema)
    && s.nextId <= t.nextId && IndexesInverse(t)
  }

  lemma RegisterExtendsOrFinds(s: Store, subject: string, schema: string)
    requires StoreSound(s)
    ensures var o := Register(s, subject, schema);
            match o.result
            case None => o.store == s
            case Some(r) =>
              && r.schema == schema
              && if HasText(VersionsOf(s, subject), schema) then o.store == s && r in VersionsOf(s, subject)
                 else Extends(s, subject, r, o.store)
  {
    hide FindSchema;
    var versions := VersionsOf(s, subject);
    FailsOnlyWithoutIds(s, subject, schema);
    if FindSchema(versions, schema).None? {
      HistoryIsShort(s, subject, schema);
      AllocateKeepsInverse(s, schema);
    }
  }

  lemma RegisterKeepsSound(s: Store, subject: string, schema: string)
    requires StoreSound(s)
    ensures StoreSound(Register(s, subject, schema).store)
  {
    hide Register, IndexesInverse;
    RegisterExtendsOrFinds(s, subject, schema);
    var o := Register(s, subject, schema);
    if o.result.Some? && !HasText(VersionsOf(s, subject), schema) {
      ExtendsKeepsHistories(s, subject, o.result.value, o.store);
      ExtendsKeepsUse(s, subject, o.result.value, o.store);
    }
  }

  lemma ExtendsKeepsHistories(s: Store, subject: string, r: Registered, t: Store)
    requires StoreSound(s) && Extends(s, subject, r, t) && !HasText(VersionsOf(s, subject), r.schema)
    ensures forall other | other in t.subjects :: HistorySound(t.idByText, other, t.subjects[other])
  {
    hide IndexesInverse, InUse;
    forall other | other in t.subjects ensures HistorySound(t.idByText, other, t.subjects[other]) {
      var before := VersionsOf(s, other);
      assert before != [] ==> HistorySound(s.idByText, other, before);
    }
  }

  lemma ExtendsKeepsUse(s: Store, subject: string, r: Registered, t: Store)
    requires StoreSound(s) && Extends(s, subject, r, t)
    ensures forall text | text in t.idByText :: InUse(t, text)
  {
    hide IndexesInverse, HistorySound;
    var grown := t.subjects[subject];
    assert grown[|grown| - 1] == r && HasText(grown, r.schema);
    forall text | text in t.idByText ensures InUse(t, text) {
      if text != r.schema {
        assert InUse(s, text);
        var other :| other in s.subjects && HasText(s.subjects[other], text);
        var k :| 0 <= k < |s.subjects[other]| && s.subjects[other][k].schema == text;
        assert t.subjects[other][k].schema == text;
      }
    }
  }

  // ----- Runs

  datatype Registration = Registration(subject: string, schema: string)

  // The registry after a run of registrations; those that fail leave it as it was.
  ghost function StoreAfter(run: seq<Registration>): (s: Store)
    ensures StoreSound(s)
  {
    if run == [] then
      EmptyStoreIsSound();
      EmptyStore()
    else
      var n := |run| - 1;
      var before := StoreAfter(run[..n]);
      RegisterKeepsSound(before, run[n].subject, run[n].schema);
      Register(before, run[n].subject, run[n].schema).store
  }

  // Ids, texts and versions given out are never taken back or changed.
  ghost predicate Retains(s: Store, t: Store) {
    && s.nextId <= t.nextId
    && (forall text | text in s.idByText :: text in t.idByText && t.idByText[text] == s.idByText[text])
    && forall subject | subject in s.subjects :: subject in t.subjects && s.subjects[subject] <= t.subjects[subject]
  }

  lemma RegisterRetains(s: Store, subject: string, schema: string)
    requires StoreSound(s)
    ensures Retains(s, Register(s, subject, schema).store)
  {
    hide Register, InUse, HistorySound;
    RegisterExtendsOrFinds(s, subject, schema);
  }

  lemma {:induction false} RunsRetain(run: seq<Registration>, i: nat)
    requires i <= |run|
    ensures Retains(StoreAfter(run[..i]), StoreAfter(run))
    decreases |run|
  {
    hide Register, StoreSound;
    if i == |run| {
      assert run[..i] == run;
    } else {
      var n := |run| - 1;
      RunsRetain(run[..n], i);
      assert run[..n][..i] == run[..i];
      RegisterRetains(StoreAfter(run[..n]), run[n].subject, run[n].schema);
    }
  }

  // The reply to the `i`-th registration.
  ghost function ReplyTo(run: seq<Registration>, i: nat): Option<Registered>
    requires i < |run|
  {
    Register(StoreAfter(run[..i]), run[i].subject, run[i].schema).result
  }

  lemma HeldAfterReply(s: Store, subject: string, schema: string)
    requires StoreSound(s) && Register(s, subject, schema).result.Some?
    ensures var o := Register(s, subject, schema);
            && o.result.value.schema == schema
            && subject in o.store.subjects && o.result.value in o.store.subjects[subject]
  {
    hide Register, IndexesInverse, InUse, HistorySound;
    RegisterExtendsOrFinds(s, subject, schema);
    var o := Register(s, subject, schema);
    if !HasText(VersionsOf(s, subject), schema) {
      var grown := o.store.subjects[subject];
      assert grown[|grown| - 1] == o.result.value;
    }
  }

  lemma FindsHeld(s: Store, subject: string, r: Registered)
    requires StoreSound(s) && subject in s.subjects && r in s.subjects[subject]
    ensures Register(s, subject, r.schema) == Outcome(s, Some(r))
  {
    hide IndexesInverse, InUse, FindSchema;
    var versions := s.subjects[subject];
    var k :| 0 <= k < |versions| && versions[k] == r;
    FirstIsOnly(versions, r.schema, k);
  }

  // Two successful registrations of a run get the same id exactly when they are of the same text.
  lemma SameIdIffSameText(run: seq<Registration>, i: nat, j: nat)
    requires i < |run| && j < |run| && ReplyTo(run, i).Some? && ReplyTo(run, j).Some?
    ensures ReplyTo(run, i).value.id == ReplyTo(run, j).value.id <==> run[i].schema == run[j].schema
  {
    hide Register, StoreAfter, InUse;
    ReplyIsHeld(run, i);
    ReplyIsHeld(run, j);
  }

  lemma ReplyIsHeld(run: seq<Registration>, i: nat)
    requires i < |run| && ReplyTo(run, i).Some?
    ensures var r, s := ReplyTo(run, i).value, StoreAfter(run);
            && r.schema == run[i].schema && r.subject == run[i].subject
            && r.schema in s.idByText && r.id == s.idByText[r.schema]
            && r.subject in s.subjects && r in s.subjects[r.subject]
            && 1 <= r.version <= |s.subjects[r.subject]| && s.subjects[r.subject][r.version - 1] == r
  {
    hide Register, InUse, IndexesInverse;
    var prefix := run[..i + 1];
    assert prefix[..i] == run[..i] && prefix[i] == run[i] && |prefix| - 1 == i;
    HeldAfterReply(StoreAfter(run[..i]), run[i].subject, run[i].schema);
    RunsRetain(run, i + 1);
    var s, r, subject := StoreAfter(run), ReplyTo(run, i).value, run[i].subject;
    assert r in s.subjects[subject];
    assert HistorySound(s.idByText, subject, s.subjects[subject]);
  }

  // However the run goes on, registering the same again returns the same reply and changes nothing.
  lemma ReregisteringChangesNothing(run: seq<Registration>, i: nat)
    requires i < |run| && ReplyTo(run, i).Some?
    ensures Register(StoreAfter(run), run[i].subject, run[i].schema) == Outcome(StoreAfter(run), ReplyTo(run, i))
  {
    hide *;
    ReplyIsHeld(run, i);
    FindsHeld(StoreAfter(run), run[i].subject, ReplyTo(run, i).value);
  }

  // ----- Queries

  // The versions with the given id, in version order.
  function WithId(versions: seq<Registered>, id: int): seq<Registered> {
    if versions == [] then []
    else (if versions[0].id == id then [versions[0]] else []) + WithId(versions[1..], id)
  }

  function AllWithId(s: Store, subjects: seq<string>, id: int): seq<Registered> {
    if subjects == [] then [] else WithId(VersionsOf(s, subjects[0]), id) + AllWithId(s, subjects[1..], id)
  }

  ghost function VersionsById(s: Store, id: int): Answer<seq<Registered>> {
    if id !in s.textById then Err(SchemaNotFound) else Ok(AllWithId(s, Sorted(s.subjects.Keys), id))
  }

  lemma {:induction false} WithIdIsExact(versions: seq<Registered>, id: int)
    ensures forall r :: r in WithId(versions, id) <==> r in versions && r.id == id
  {
    if versions != [] {
      WithIdIsExact(versions[1..], id);
      assert versions == [versions[0]] + versions[1..];
    }
  }

  lemma {:induction false} WithIdIsShort(versions: seq<Registered>, id: int)
    requires forall j, k | 0 <= j < k < |versions| :: versions[j].id != versions[k].id
    ensures |WithId(versions, id)| <= 1
  {
    if versions != [] {
      WithIdIsShort(versions[1..], id);
      if versions[0].id == id {
        NoneWithId(versions[1..], id);
      }
    }
  }

  lemma {:induction false} NoneWithId(versions: seq<Registered>, id: int)
    requires forall k | 0 <= k < |versions| :: versions[k].id != id
    ensures WithId(versions, id) == []
  {
    if versions != [] {
      NoneWithId(versions[1..], id);
    }
  }

  lemma HistoryHasDistinctIds(s: Store, subject: string)
    requires StoreSound(s)
    ensures var versions := VersionsOf(s, subject);
            forall j, k | 0 <= j < k < |versions| :: versions[j].id != versions[k].id
  {
    hide InUse;
    var versions := VersionsOf(s, subject);
    assert versions != [] ==> HistorySound(s.idByText, subject, versions);
    forall j, k | 0 <= j < k < |versions| ensures versions[j].id != versions[k].id {
      assert s.textById[versions[j].id] == versions[j].schema && s.textById[versions[k].id] == versions[k].schema;
    }
  }

  // Exactly the registered versions with that id.
  ghost predicate ListsId(s: Store, subjects: set<string>, id: int, found: seq<Registered>) {
    && (forall r :: r in found <==> r.subject in subjects && r.id == id && r in VersionsOf(s, r.subject))
    && forall j, k | 0 <= j < k < |found| :: Lt(found[j].subject, found[k].subject)
  }

  lemma {:induction false} AllWithIdIsExact(s: Store, subjects: seq<string>, id: int)
    requires StoreSound(s) && StrictlySorted(subjects)
    ensures ListsId(s, Elements(subjects), id, AllWithId(s, subjects, id))
    decreases |subjects|
  {
    hide StoreSound, Le, WithId;
    if subjects != [] {
      var subject := subjects[0];
      AllWithIdIsExact(s, subjects[1..], id);
      WithIdIsExact(VersionsOf(s, subject), id);
      SubjectsMatch(s, subject);
      HistoryHasDistinctIds(s, subject);
      WithIdIsShort(VersionsOf(s, subject), id);
      assert Elements(subjects) == {subject} + Elements(subjects[1..]);
      PrependSubject(s, subject, Elements(subjects[1..]), id, WithId(VersionsOf(s, subject), id),
                     AllWithId(s, subjects[1..], id));
    }
  }

  lemma SubjectsMatch(s: Store, subject: string)
    requires StoreSound(s)
    ensures forall r | r in VersionsOf(s, subject) :: r.subject == subject
  {
    hide InUse, IndexesInverse;
    var versions := VersionsOf(s, subject);
    assert versions != [] ==> HistorySound(s.idByText, subject, versions);
  }

  lemma PrependSubject(s: Store, subject: string, others: set<string>, id: int, first: seq<Registered>,
                       rest: seq<Registered>)
    requires forall other | other in others :: Lt(subject, other)
    requires ListsId(s, others, id, rest) && |first| <= 1
    requires forall r :: r in first <==> r in VersionsOf(s, subject) && r.id == id
    requires forall r | r in VersionsOf(s, subject) :: r.subject == subject
    ensures ListsId(s, {subject} + others, id, first + rest)
  {
    hide Le, VersionsOf;
    var found := first + rest;
    forall j, k | 0 <= j < k < |found| ensures Lt(found[j].subject, found[k].subject) {
      if j < |first| {
        assert first[j] in first && rest[k - |first|] in rest;
      }
    }
    forall r ensures r in found <==> r.subject in {subject} + others && r.id == id && r in VersionsOf(s, r.subject) {
      assert r in found <==> r in first || r in rest;
    }
  }

  // A known id lists exactly its registered versions: at least one, at most one per subject, by subject.
  lemma KnownIdIsListed(s: Store, id: int)
    requires StoreSound(s)
    ensures match VersionsById(s, id)
            case Err(e) => e == SchemaNotFound && !(1 <= id < s.nextId)
            case Ok(found) => 1 <= id < s.nextId && found != [] && ListsId(s, s.subjects.Keys, id, found)
  {
    hide Le, Sorted, AllWithId;
    if id in s.textById {
      AllWithIdIsExact(s, Sorted(s.subjects.Keys), id);
      var text := s.textById[id];
      assert InUse(s, text);
      var subject :| subject in s.subjects && HasText(s.subjects[subject], text);
      var k :| 0 <= k < |s.subjects[subject]| && s.subjects[subject][k].schema == text;
      assert HistorySound(s.idByText, subject, s.subjects[subject]);
      assert s.subjects[subject][k] in VersionsOf(s, subject);
      assert s.subjects[subject][k] in VersionsById(s, id).value;
    }
  }
}
