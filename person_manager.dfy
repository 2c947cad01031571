/**
 * The list of people the application keeps: records are appended by the
 * form and removed, every record with a given id at once, by the table's
 * delete button.
 */
module PersonManager {
  import opened Seqs
  import opened Records
  import opened PersonForm

  /** `people.filter(person => person.id !== id)` */
  function WithoutId(people: seq<Person>, id: string): (r: seq<Person>)
    ensures |r| <= |people|
    ensures forall p :: p in r <==> p in people && p.id != id
  {
    var keep := (p: Person) => p.id != id;
    assert forall p :: p in Filter(keep, people) <==> p in people && p.id != id by {
      forall p ensures p in Filter(keep, people) <==> p in people && p.id != id {
        FilterMembers(keep, people, p);
      }
    }
    Filter(keep, people)
  }

  /** Deleting distributes over a split of the list: the survivors keep their order. */
  lemma WithoutIdAppend(a: seq<Person>, b: seq<Person>, id: string)
    ensures WithoutId(a + b, id) == WithoutId(a, id) + WithoutId(b, id)
  {
    FilterAppend((p: Person) => p.id != id, a, b);
  }

  /** Deleting an id no record carries leaves the list as it was. */
  lemma DeleteAbsentId(people: seq<Person>, id: string)
    requires forall i :: 0 <= i < |people| ==> people[i].id != id
    ensures WithoutId(people, id) == people
  {
    FilterKeepsAll((p: Person) => p.id != id, people);
  }

  /** Deleting the same id twice is deleting it once. */
  lemma DeleteIdempotent(people: seq<Person>, id: string)
    ensures WithoutId(WithoutId(people, id), id) == WithoutId(people, id)
  {
    var once := WithoutId(people, id);
    assert forall i :: 0 <= i < |once| ==> once[i] in once;
    DeleteAbsentId(once, id);
  }

  /** With distinct ids, deleting the id of the record at `i` removes that
      record and only it. */
  lemma DeleteUniqueId(people: seq<Person>, i: nat)
    requires i < |people|
    requires forall j, k :: 0 <= j < k < |people| ==> people[j].id != people[k].id
    ensures WithoutId(people, people[i].id) == people[..i] + people[i + 1..]
  {
    var id := people[i].id;
    var before, after := people[..i], people[i + 1..];
    assert people == before + [people[i]] + after;
    FilterSkips((p: Person) => p.id != id, before, people[i], after);
    forall j | 0 <= j < |before + after| ensures (before + after)[j].id != id {
      if j < i { assert (before + after)[j] == people[j]; }
      else { assert (before + after)[j] == people[j + 1]; }
    }
    DeleteAbsentId(before + after, id);
  }

  /** A record added under a fresh id and then deleted leaves the list as it was. */
  lemma AddThenDelete(people: seq<Person>, p: Person)
    requires forall i :: 0 <= i < |people| ==> people[i].id != p.id
    ensures WithoutId(people + [p], p.id) == people
  {
    assert Filter((q: Person) => q.id != p.id, [p]) == [] by { assert [p][..0] == []; }
    WithoutIdAppend(people, [p], p.id);
    DeleteAbsentId(people, p.id);
  }

  /** The state of the manager component: its list of people. */
  class PersonManager {
    var people: seq<Person>

    constructor ()
      ensures people == []
    {
      people := [];
    }

    /** `handleAddPerson`: the record goes at the end, nothing else changes. */
    method HandleAddPerson(person: Person)
      modifies this
      ensures people == old(people) + [person]
    {
      people := people + [person];
    }

    /** `handleDeletePerson`: every record with the id goes, the rest stay in order. */
    method HandleDeletePerson(id: string)
      modifies this
      ensures people == WithoutId(old(people), id)
    {
      people := Filter((p: Person) => p.id != id, people);
    }

    /** The form's submit handler wired to `handleAddPerson`: a complete form
        adds one record at the end, an incomplete one adds nothing. */
    method SubmitForm(form: PersonForm, newId: string) returns (added: Option<Person>)
      modifies this, form
      ensures added == Submission(old(form.name), old(form.birthDate), old(form.documentNumber), newId)
      ensures people == old(people) + if added.Some? then [added.value] else []
      ensures added.Some? ==> form.name == "" && form.birthDate == "" && form.documentNumber == ""
      ensures added.None? ==>
                form.name == old(form.name) && form.birthDate == old(form.birthDate) && form.documentNumber == old(form.documentNumber)
    {
      added := form.HandleSubmit(newId);
      if added.Some? {
        HandleAddPerson(added.value);
      }
    }
  }
}
