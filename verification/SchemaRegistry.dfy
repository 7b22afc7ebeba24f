/** The schema registry as it is updated in place, proved against the model. */
module SchemaRegistry {
  import opened Text
  import opened Octets
  import opened SchemaModel

  // The position of the first version with this text.
  method LocateSchema(versions: seq<Registered>, schema: string) returns (found: Option<nat>)
    ensures found == FindSchema(versions, schema)
  {
    assert versions[0..] == versions;
    for i := 0 to |versions|
      invariant FindSchema(versions, schema)
                == match FindSchema(versions[i..], schema) case None => None case Some(k) => Some(k + i)
    {
      assert versions[i..][1..] == versions[i + 1..];
      if versions[i].schema == schema {
        return Some(i);
      }
    }
    found := None;
  }

  class Registry {
    var nextId: int
    var idByText: map<string, int>
    var textById: map<int, string>
    var subjects: map<string, seq<Registered>>

    ghost function View(): Store
      reads this
    {
      Store(nextId, idByText, textById, subjects)
    }

    ghost predicate Valid()
      reads this
    {
      StoreSound(View())
    }

    constructor ()
      ensures Valid() && View() == EmptyStore()
    {
      nextId := 1;
      idByText := map[];
      textById := map[];
      subjects := map[];
      new;
      EmptyStoreIsSound();
    }

    // No result stands for the panic when no id is left; the registry is then as it was.
    method Register(subject: string, schema: string) returns (result: Option<Registered>)
      requires Valid()
      modifies this
      ensures Valid() && Outcome(View(), result) == SchemaModel.Register(old(View()), subject, schema)
      ensures result.None? <==> schema !in old(idByText) && old(nextId) == MAX_I32
    {
      hide StoreSound, FindSchema;
      RegisterKeepsSound(View(), subject, schema);
      FailsOnlyWithoutIds(View(), subject, schema);
      var versions := if subject in subjects then subjects[subject] else [];
      var existing := LocateSchema(versions, schema);
      if existing.Some? {
        return Some(versions[existing.value]);
      }
      var id;
      if schema in idByText {
        id := idByText[schema];
      } else {
        id := nextId;
        if nextId + 1 > MAX_I32 {
          return None;
        }
        nextId := nextId + 1;
        idByText := idByText[schema := id];
        textById := textById[id := schema];
      }
      var registered := Registered(subject, |versions| + 1, id, schema);
      subjects := subjects[subject := versions + [registered]];
      result := Some(registered);
    }

    method Subjects() returns (names: seq<string>)
      ensures StrictlySorted(names) && Elements(names) == subjects.Keys
    {
      names := SortIds(subjects.Keys);
    }

    // A known subject's version numbers are 1 to the number of its versions.
    method Versions(subject: string) returns (answer: Answer<seq<int>>)
      requires Valid()
      ensures answer.Err? <==> subject !in subjects
      ensures answer.Err? ==> answer.error == SubjectNotFound
      ensures answer.Ok? ==> answer.value != [] && |answer.value| == |subjects[subject]|
                             && forall k | 0 <= k < |answer.value| :: answer.value[k] == k + 1
    {
      if subject !in subjects {
        return Err(SubjectNotFound);
      }
      var versions := subjects[subject];
      assert HistorySound(idByText, subject, versions);
      var numbers: seq<int> := [];
      for i := 0 to |versions|
        invariant |numbers| == i && forall k | 0 <= k < i :: numbers[k] == k + 1
      {
        numbers := numbers + [versions[i].version];
      }
      answer := Ok(numbers);
    }

    // The one version of the subject with this text, if there is one.
    method Lookup(subject: string, schema: string) returns (answer: Answer<Registered>)
      requires Valid()
      ensures match answer
              case Ok(r) => subject in subjects && r in subjects[subject] && r.schema == schema
                            && forall other | other in subjects[subject] && other.schema == schema :: other == r
              case Err(e) =>
                if subject !in subjects then e == SubjectNotFound
                else e == SchemaNotFound && forall other | other in subjects[subject] :: other.schema != schema
    {
      hide FindSchema;
      if subject !in subjects {
        return Err(SubjectNotFound);
      }
      var versions := subjects[subject];
      assert HistorySound(idByText, subject, versions);
      var found := LocateSchema(versions, schema);
      if found.None? {
        return Err(SchemaNotFound);
      }
      answer := Ok(versions[found.value]);
    }

    // Versions are numbered from 1 without gaps.
    method Version(subject: string, version: int) returns (answer: Answer<Registered>)
      requires Valid()
      ensures answer == if subject !in subjects then Err(SubjectNotFound)
                        else if 1 <= version <= |subjects[subject]| then Ok(subjects[subject][version - 1])
                        else Err(VersionNotFound)
    {
      if subject !in subjects {
        return Err(SubjectNotFound);
      }
      var versions := subjects[subject];
      assert HistorySound(idByText, subject, versions);
      for i := 0 to |versions|
        invariant version < 1 || version > i
      {
        if versions[i].version == version {
          return Ok(versions[i]);
        }
      }
      answer := Err(VersionNotFound);
    }

    // A known subject always has a latest version.
    method Latest(subject: string) returns (answer: Answer<Registered>)
      requires Valid()
      ensures answer.Ok? <==> subject in subjects
      ensures answer.Err? ==> answer.error == SubjectNotFound
      ensures answer.Ok? ==> answer.value in subjects[subject] && answer.value.version == |subjects[subject]|
    {
      if subject !in subjects {
        return Err(SubjectNotFound);
      }
      var versions := subjects[subject];
      assert HistorySound(idByText, subject, versions);
      answer := Ok(versions[|versions| - 1]);
    }

    // The text of every id given out so far, and of no other.
    method SchemaById(id: int) returns (answer: Answer<string>)
      requires Valid()
      ensures answer.Ok? <==> 1 <= id < nextId
      ensures answer.Ok? ==> answer.value in idByText && idByText[answer.value] == id
      ensures answer.Err? ==> answer.error == SchemaNotFound
    {
      answer := if id in textById then Ok(textById[id]) else Err(SchemaNotFound);
    }

    method SchemaVersionsById(id: int) returns (answer: Answer<seq<Registered>>)
      requires Valid()
      ensures answer == VersionsById(View(), id)
    {
      hide StoreSound, Sorted, WithId, AllWithId, StrictlySorted;
      if id !in textById {
        return Err(SchemaNotFound);
      }
      var names := SortIds(subjects.Keys);
      var found: seq<Registered> := [];
      assert names[0..] == names && [] + AllWithId(View(), names, id) == AllWithId(View(), names, id);
      for i := 0 to |names|
        invariant found + AllWithId(View(), names[i..], id) == AllWithId(View(), names, id)
      {
        var versions := if names[i] in subjects then subjects[names[i]] else [];
        var kept := Filter(versions, id);
        AllWithIdStep(View(), names, i, id);
        assert found + (kept + AllWithId(View(), names[i + 1..], id))
               == (found + kept) + AllWithId(View(), names[i + 1..], id);
        found := found + kept;
      }
      AllWithIdEnd(View(), names, id);
      assert found + [] == found;
      answer := Ok(found);
    }
  }

  lemma AllWithIdStep(s: Store, names: seq<string>, i: nat, id: int)
    requires i < |names|
    ensures AllWithId(s, names[i..], id) == WithId(VersionsOf(s, names[i]), id) + AllWithId(s, names[i + 1..], id)
  {
    assert names[i..][1..] == names[i + 1..];
  }

  lemma AllWithIdEnd(s: Store, names: seq<string>, id: int)
    ensures AllWithId(s, names[|names|..], id) == []
  {
  }

  method Filter(versions: seq<Registered>, id: int) returns (kept: seq<Registered>)
    ensures kept == WithId(versions, id)
  {
    hide WithId;
    kept := [];
    assert versions[0..] == versions && [] + WithId(versions, id) == WithId(versions, id);
    for i := 0 to |versions|
      invariant kept + WithId(versions[i..], id) == WithId(versions, id)
    {
      WithIdStep(versions, i, id, kept);
      if versions[i].id == id {
        kept := kept + [versions[i]];
      }
    }
    WithIdEnd(versions, id);
    assert kept + [] == kept;
  }

  lemma WithIdStep(versions: seq<Registered>, i: nat, id: int, kept: seq<Registered>)
    requires i < |versions|
    ensures kept + WithId(versions[i..], id)
            == (if versions[i].id == id then kept + [versions[i]] else kept) + WithId(versions[i + 1..], id)
  {
    var rest := WithId(versions[i + 1..], id);
    assert versions[i..][1..] == versions[i + 1..];
    assert kept + ([versions[i]] + rest) == (kept + [versions[i]]) + rest && [] + rest == rest;
  }

  lemma WithIdEnd(versions: seq<Registered>, id: int)
    ensures WithId(versions[|versions|..], id) == []
  {
  }
}
