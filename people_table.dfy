/**
 * Duplicate detection of the people table: three key-to-count maps built in
 * one pass over the list (lower-cased name, raw birth date, lower-cased
 * document number) and the `isDuplicate` lookups that decide which cells are
 * highlighted.
 *
 * `toLowerCase` is the parameter `lower`, since Unicode case mapping is a
 * library call; every property below holds whatever that mapping is.
 */
module PeopleTable {
  import opened Records

  /** The three columns that are checked for duplicates. */
  datatype Field = Name | BirthDate | Document

  /** The memoised `duplicateMap`: `nameMap`, `birthDateMap` and `documentMap`. */
  datatype DuplicateMap = DuplicateMap(nameMap: map<string, nat>, birthDateMap: map<string, nat>, documentMap: map<string, nat>)

  function MapOf(maps: DuplicateMap, field: Field): map<string, nat> {
    match field
    case Name => maps.nameMap
    case BirthDate => maps.birthDateMap
    case Document => maps.documentMap
  }

  function FieldOf(p: Person, field: Field): string {
    match field
    case Name => p.name
    case BirthDate => p.birthDate
    case Document => p.documentNumber
  }

  /** The key a value is counted and looked up under: names and documents are
      lower-cased and nothing else, birth dates are used as they are. */
  function KeyOf(field: Field, lower: string -> string, value: string): string {
    match field
    case Name => lower(value)
    case BirthDate => value
    case Document => lower(value)
  }

  /** The key of every person for one column, in list order. */
  function Keys(people: seq<Person>, lower: string -> string, field: Field): (keys: seq<string>)
    ensures |keys| == |people|
    ensures forall i :: 0 <= i < |people| ==> keys[i] == KeyOf(field, lower, FieldOf(people[i], field))
  {
    seq(|people|, i requires 0 <= i < |people| => KeyOf(field, lower, FieldOf(people[i], field)))
  }

  /** `m.get(k) || 0`: a missing key counts as zero. */
  function Get(m: map<string, nat>, k: string): (count: nat) {
    if k in m then m[k] else 0
  }

  /** The count map of `keys`, one increment per key from left to right. */
  function Tally(keys: seq<string>): (counts: map<string, nat>)
    decreases |keys|
  {
    if keys == [] then map[]
    else
      var m := Tally(keys[..|keys| - 1]);
      var last := keys[|keys| - 1];
      m[last := Get(m, last) + 1]
  }

  /** A key is in the tally exactly when it occurs, with the number of its occurrences. */
  lemma {:induction false} TallyCounts(keys: seq<string>)
    ensures forall k :: k in Tally(keys) <==> k in multiset(keys)
    ensures forall k :: Get(Tally(keys), k) == multiset(keys)[k]
    decreases |keys|
  {
    if keys != [] {
      var init, last := keys[..|keys| - 1], keys[|keys| - 1];
      assert keys == init + [last];
      TallyCounts(init);
    }
  }

  /** One more key is one more increment. */
  lemma TallySnoc(keys: seq<string>, k: string)
    ensures Tally(keys + [k]) == Tally(keys)[k := Get(Tally(keys), k) + 1]
  {
    assert (keys + [k])[..|keys|] == keys;
  }

  /** Counting person `i` takes the tally of the people before it to the tally up to it. */
  lemma CountNext(people: seq<Person>, lower: string -> string, field: Field, i: nat)
    requires i < |people|
    ensures var m, key := Tally(Keys(people[..i], lower, field)), KeyOf(field, lower, FieldOf(people[i], field));
            Tally(Keys(people[..i + 1], lower, field)) == m[key := Get(m, key) + 1]
  {
    var key := KeyOf(field, lower, FieldOf(people[i], field));
    var before, after := Keys(people[..i], lower, field), Keys(people[..i + 1], lower, field);
    forall j | 0 <= j < |after| ensures after[j] == (before + [key])[j] {
      if j < i { assert people[..i + 1][j] == people[..i][j]; }
    }
    assert after == before + [key];
    TallySnoc(before, key);
  }

  /** The tally of one column over the first `n` people. */
  function CountedSoFar(people: seq<Person>, lower: string -> string, field: Field, n: nat): map<string, nat>
    requires n <= |people|
  {
    Tally(Keys(people[..n], lower, field))
  }

  /** Counting person `i` increments its key in the tally of the people before it. */
  lemma CountStep(people: seq<Person>, lower: string -> string, field: Field, i: nat, m: map<string, nat>, key: string)
    requires i < |people| && m == CountedSoFar(people, lower, field, i)
    requires key == KeyOf(field, lower, FieldOf(people[i], field))
    ensures m[key := Get(m, key) + 1] == CountedSoFar(people, lower, field, i + 1)
  {
    CountNext(people, lower, field, i);
  }

  /** The three maps the table memoises for a list of people. */
  function Index(people: seq<Person>, lower: string -> string): (maps: DuplicateMap) {
    DuplicateMap(Tally(Keys(people, lower, Name)), Tally(Keys(people, lower, BirthDate)), Tally(Keys(people, lower, Document)))
  }

  /** The `useMemo` callback: one `forEach` pass updating the three maps in place. */
  method BuildDuplicateMap(people: seq<Person>, lower: string -> string) returns (maps: DuplicateMap)
    ensures maps == Index(people, lower)
  {
    var nameMap: map<string, nat> := map[];
    var birthDateMap: map<string, nat> := map[];
    var documentMap: map<string, nat> := map[];
    for i := 0 to |people|
      invariant nameMap == CountedSoFar(people, lower, Name, i)
      invariant birthDateMap == CountedSoFar(people, lower, BirthDate, i)
      invariant documentMap == CountedSoFar(people, lower, Document, i)
    {
      var person := people[i];
      CountStep(people, lower, Name, i, nameMap, lower(person.name));
      CountStep(people, lower, BirthDate, i, birthDateMap, person.birthDate);
      CountStep(people, lower, Document, i, documentMap, lower(person.documentNumber));
      nameMap := nameMap[lower(person.name) := Get(nameMap, lower(person.name)) + 1];
      birthDateMap := birthDateMap[person.birthDate := Get(birthDateMap, person.birthDate) + 1];
      documentMap := documentMap[lower(person.documentNumber) := Get(documentMap, lower(person.documentNumber)) + 1];
    }
    assert people[..|people|] == people;
    assert nameMap == Tally(Keys(people, lower, Name));
    assert birthDateMap == Tally(Keys(people, lower, BirthDate));
    assert documentMap == Tally(Keys(people, lower, Document));
    maps := DuplicateMap(nameMap, birthDateMap, documentMap);
  }

  /** Each map holds, for every key, the number of people whose column has that key;
      keys nobody has are absent. */
  lemma IndexCounts(people: seq<Person>, lower: string -> string, field: Field, k: string)
    ensures k in MapOf(Index(people, lower), field) <==> k in Keys(people, lower, field)
    ensures Get(MapOf(Index(people, lower), field), k) == multiset(Keys(people, lower, field))[k]
  {
    TallyCounts(Keys(people, lower, field));
  }

  /** `isDuplicate.name`, `isDuplicate.birthDate` and `isDuplicate.document`:
      the value's key is counted more than once. */
  predicate IsDuplicate(maps: DuplicateMap, lower: string -> string, field: Field, value: string) {
    Get(MapOf(maps, field), KeyOf(field, lower, value)) > 1
  }

  /** A key occurs at least twice exactly when two positions hold it. */
  lemma {:induction false} TwiceIffTwoPositions(keys: seq<string>, k: string)
    ensures multiset(keys)[k] >= 2 <==> exists i, j :: 0 <= i < j < |keys| && keys[i] == k && keys[j] == k
    decreases |keys|
  {
    if keys != [] {
      var init, last := keys[..|keys| - 1], keys[|keys| - 1];
      assert keys == init + [last];
      TwiceIffTwoPositions(init, k);
      if multiset(keys)[k] >= 2 {
        if last == k && multiset(init)[k] == 1 {
          assert k in multiset(init);
          var i :| 0 <= i < |init| && init[i] == k;
          assert keys[i] == k && keys[|keys| - 1] == k;
        } else {
          var i, j :| 0 <= i < j < |init| && init[i] == k && init[j] == k;
          assert keys[i] == k && keys[j] == k;
        }
      }
      if exists i, j :: 0 <= i < j < |keys| && keys[i] == k && keys[j] == k {
        var i, j :| 0 <= i < j < |keys| && keys[i] == k && keys[j] == k;
        if j < |keys| - 1 {
          assert init[i] == k && init[j] == k;
        } else {
          assert init[i] == k;
          assert k in multiset(init);
        }
      }
    }
  }

  /** A key is counted more than once exactly when two positions hold it. */
  lemma CountedTwiceIff(keys: seq<string>, k: string)
    ensures Get(Tally(keys), k) > 1 <==> exists i, j :: 0 <= i < j < |keys| && keys[i] == k && keys[j] == k
  {
    TallyCounts(keys);
    TwiceIffTwoPositions(keys, k);
  }

  /** A value is reported duplicate exactly when two people in the list share
      its key: lower-cased for names and documents, exact for birth dates. */
  lemma IsDuplicateIff(people: seq<Person>, lower: string -> string, field: Field, value: string)
    ensures IsDuplicate(Index(people, lower), lower, field, value)
        <==> exists i, j :: 0 <= i < j < |people|
                        && KeyOf(field, lower, FieldOf(people[i], field)) == KeyOf(field, lower, value)
                        && KeyOf(field, lower, FieldOf(people[j], field)) == KeyOf(field, lower, value)
  {
    var keys := Keys(people, lower, field);
    var key := KeyOf(field, lower, value);
    assert IsDuplicate(Index(people, lower), lower, field, value) <==> Get(Tally(keys), key) > 1 by {
      assert MapOf(Index(people, lower), field) == Tally(keys);
    }
    CountedTwiceIff(keys, key);
    if exists i, j :: 0 <= i < j < |keys| && keys[i] == key && keys[j] == key {
      var i, j :| 0 <= i < j < |keys| && keys[i] == key && keys[j] == key;
      assert KeyOf(field, lower, FieldOf(people[i], field)) == key && KeyOf(field, lower, FieldOf(people[j], field)) == key;
    }
    if exists i, j :: 0 <= i < j < |people|
                   && KeyOf(field, lower, FieldOf(people[i], field)) == key
                   && KeyOf(field, lower, FieldOf(people[j], field)) == key {
      var i, j :| 0 <= i < j < |people|
               && KeyOf(field, lower, FieldOf(people[i], field)) == key
               && KeyOf(field, lower, FieldOf(people[j], field)) == key;
      assert keys[i] == key && keys[j] == key;
    }
  }

  /** A key no person has is never reported duplicate. */
  lemma UnknownKeyNotDuplicate(people: seq<Person>, lower: string -> string, field: Field, value: string)
    requires forall i :: 0 <= i < |people| ==> KeyOf(field, lower, FieldOf(people[i], field)) != KeyOf(field, lower, value)
    ensures !IsDuplicate(Index(people, lower), lower, field, value)
  {
    IsDuplicateIff(people, lower, field, value);
  }

  /** A person's cell is highlighted exactly when some other person shares its key. */
  lemma HighlightedIffShared(people: seq<Person>, lower: string -> string, field: Field, i: nat)
    requires i < |people|
    ensures IsDuplicate(Index(people, lower), lower, field, FieldOf(people[i], field))
        <==> exists j :: 0 <= j < |people| && j != i
                      && KeyOf(field, lower, FieldOf(people[j], field)) == KeyOf(field, lower, FieldOf(people[i], field))
  {
    var value := FieldOf(people[i], field);
    var key := KeyOf(field, lower, value);
    IsDuplicateIff(people, lower, field, value);
    if exists j :: 0 <= j < |people| && j != i && KeyOf(field, lower, FieldOf(people[j], field)) == key {
      var j :| 0 <= j < |people| && j != i && KeyOf(field, lower, FieldOf(people[j], field)) == key;
      if j < i {
        assert KeyOf(field, lower, FieldOf(people[j], field)) == key && KeyOf(field, lower, FieldOf(people[i], field)) == key;
      } else {
        assert KeyOf(field, lower, FieldOf(people[i], field)) == key && KeyOf(field, lower, FieldOf(people[j], field)) == key;
      }
    }
  }

  /** The sum of the counts of a map. */
  ghost function SumValues(m: map<string, nat>): nat
    decreases |m|
  {
    if |m| == 0 then 0
    else
      var k :| k in m;
      assert (m - {k}).Keys == m.Keys - {k};
      m[k] + SumValues(m - {k})
  }

  /** The key `SumValues` takes apart first. */
  lemma SumValuesPick(m: map<string, nat>) returns (k: string)
    requires |m| > 0
    ensures k in m && SumValues(m) == m[k] + SumValues(m - {k})
  {
    k :| k in m && SumValues(m) == m[k] + SumValues(m - {k});
  }

  lemma RemoveOne(m: map<string, nat>, k: string)
    requires k in m
    ensures |m - {k}| == |m| - 1
  {
    assert (m - {k}).Keys == m.Keys - {k};
  }

  /** The sum does not depend on the key taken apart first. */
  lemma {:induction false} SumValuesRemove(m: map<string, nat>, k: string)
    requires k in m
    ensures SumValues(m) == m[k] + SumValues(m - {k})
    decreases |m|
  {
    var k' := SumValuesPick(m);
    if k' != k {
      var mk', mk := m - {k'}, m - {k};
      RemoveOne(m, k');
      RemoveOne(m, k);
      SumValuesRemove(mk', k);
      SumValuesRemove(mk, k');
      assert mk' - {k} == mk - {k'};
    }
  }

  /** The counts of a tally add up to the number of keys. */
  lemma {:induction false} TallySum(keys: seq<string>)
    ensures SumValues(Tally(keys)) == |keys|
    decreases |keys|
  {
    if keys != [] {
      var init, last := keys[..|keys| - 1], keys[|keys| - 1];
      TallySum(init);
      var m := Tally(init);
      var m' := m[last := Get(m, last) + 1];
      assert keys == init + [last];
      TallySnoc(init, last);
      assert Tally(keys) == m';
      SumValuesRemove(m', last);
      if last in m {
        SumValuesRemove(m, last);
        assert m' - {last} == m - {last};
      } else {
        assert m' - {last} == m;
      }
    }
  }

  /** For each of the three maps, the counts add up to the number of people. */
  lemma CountsAddUpToPeople(people: seq<Person>, lower: string -> string, field: Field)
    ensures SumValues(MapOf(Index(people, lower), field)) == |people|
  {
    TallySum(Keys(people, lower, field));
  }

  /** Document keys keep their punctuation: the two ways of writing one number
      are different keys, so neither is flagged. */
  lemma PunctuationKeptInDocumentKey(lower: string -> string, a: Person, b: Person)
    requires a.documentNumber == "123.456.789-00" && b.documentNumber == "12345678900"
    requires lower(a.documentNumber) == a.documentNumber && lower(b.documentNumber) == b.documentNumber
    ensures !IsDuplicate(Index([a, b], lower), lower, Document, a.documentNumber)
  {
    assert a.documentNumber[3] != b.documentNumber[3];
    IsDuplicateIff([a, b], lower, Document, a.documentNumber);
  }

  /** Name keys are only lower-cased: inner and outer white space is kept. */
  lemma WhiteSpaceKeptInNameKey(lower: string -> string, a: Person, b: Person)
    requires a.name == "  joão   silva " && b.name == "joão silva"
    requires lower(a.name) == a.name && lower(b.name) == b.name
    ensures !IsDuplicate(Index([a, b], lower), lower, Name, b.name)
  {
    assert |a.name| != |b.name|;
    IsDuplicateIff([a, b], lower, Name, b.name);
  }
}
