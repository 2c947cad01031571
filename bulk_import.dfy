/**
 * The bulk import component: pasted text, one person per line written as
 * `name, birth date, document`. Blank lines are skipped silently, a line with
 * fewer than three comma-separated parts is skipped with a warning, every
 * other line becomes one record, and the records are handed on together.
 *
 * `crypto.randomUUID()` is an oracle `newId`: the k-th id drawn during one
 * import is `newId(k)`. Toast messages are not modelled; the warnings are the
 * lines they name, and the outcome says which message ends the import.
 */
module BulkImport {
  import opened Text
  import opened Seqs
  import opened Records
  import opened DateFormat

  /** What one press of the import button comes to. */
  datatype ImportResult =
    | EmptyInput                                           // only white space was pasted
    | NothingValid(skipped: seq<string>)                   // no line gave a record
    | Imported(people: seq<Person>, skipped: seq<string>)  // `onImport(people)` was called

  /** `rawData.trim().split("\n")` */
  function Lines(raw: string): (lines: seq<string>)
    ensures |lines| == multiset(Trim(raw))['\n'] + 1
    ensures forall i :: 0 <= i < |lines| ==> '\n' !in lines[i]
  {
    SplitCount(Trim(raw), '\n');
    Split(Trim(raw), '\n')
  }

  /** `line.split(",").map(part => part.trim())` */
  function Parts(line: string): (parts: seq<string>)
    ensures |parts| == |Split(line, ',')| == multiset(line)[','] + 1
    ensures forall i :: 0 <= i < |parts| ==> parts[i] == Trim(Split(line, ',')[i])
  {
    var raw := Split(line, ',');
    SplitCount(line, ',');
    seq(|raw|, i requires 0 <= i < |raw| => Trim(raw[i]))
  }

  /** `!line.trim()`: the loop skips the line without a word. */
  predicate IsBlank(line: string) {
    Trim(line) == ""
  }

  /** A line that yields a record. */
  predicate Accepted(line: string) {
    !IsBlank(line) && |Parts(line)| >= 3
  }

  /** A line yields a record exactly when it is not blank and holds at least
      two commas; fewer commas get it skipped with a warning. */
  lemma AcceptedIffTwoCommas(line: string)
    ensures Accepted(line) <==> !AllSpace(line) && multiset(line)[','] >= 2
    ensures Rejected(line) <==> !AllSpace(line) && multiset(line)[','] < 2
  {
  }

  /** A line that is skipped with a warning. */
  predicate Rejected(line: string) {
    !IsBlank(line) && |Parts(line)| < 3
  }

  /** The record built from an accepted line: parts 0, 1 and 2, the date
      passed through `formatDate`; further parts are not read. */
  function PersonOf(lib: DatePlatform, line: string, id: string): (person: Person)
    requires |Parts(line)| >= 3
  {
    var parts := Parts(line);
    Person(id, parts[0], FormatDate(lib, parts[1]), parts[2])
  }

  /** The records pushed once the loop has gone through `lines`. */
  function ParsedPeople(lib: DatePlatform, newId: nat -> string, lines: seq<string>): (people: seq<Person>)
    ensures |people| <= |lines|
    decreases |lines|
  {
    if lines == [] then []
    else
      var done := ParsedPeople(lib, newId, lines[..|lines| - 1]);
      var line := lines[|lines| - 1];
      if Accepted(line) then done + [PersonOf(lib, line, newId(|done|))] else done
  }

  /** One more line of the loop. */
  lemma NextLine(lib: DatePlatform, newId: nat -> string, lines: seq<string>, i: nat)
    requires i < |lines|
    ensures var done := ParsedPeople(lib, newId, lines[..i]);
            ParsedPeople(lib, newId, lines[..i + 1])
              == if Accepted(lines[i]) then done + [PersonOf(lib, lines[i], newId(|done|))] else done
    ensures Filter(Rejected, lines[..i + 1])
              == Filter(Rejected, lines[..i]) + if Rejected(lines[i]) then [lines[i]] else []
  {
    assert lines[..i + 1][..i] == lines[..i];
  }

  /** The k-th record comes from the k-th accepted line, with the k-th id:
      one record per accepted line, in line order. */
  lemma {:induction false} ParsedPeopleFollowAcceptedLines(lib: DatePlatform, newId: nat -> string, lines: seq<string>)
    ensures var acc := Filter(Accepted, lines);
            var people := ParsedPeople(lib, newId, lines);
            && |people| == |acc|
            && forall k :: 0 <= k < |acc| ==> people[k] == PersonOf(lib, acc[k], newId(k))
    decreases |lines|
  {
    if lines != [] {
      var init, last := lines[..|lines| - 1], lines[|lines| - 1];
      ParsedPeopleFollowAcceptedLines(lib, newId, init);
      var acc0, done := Filter(Accepted, init), ParsedPeople(lib, newId, init);
      var acc, people := Filter(Accepted, lines), ParsedPeople(lib, newId, lines);
      if Accepted(last) {
        assert acc == acc0 + [last];
        assert people == done + [PersonOf(lib, last, newId(|done|))];
        RecordForLastLine(lib, newId, acc0, done, last);
      } else {
        assert acc == acc0;
        assert people == done;
      }
    }
  }

  /** The record of one more accepted line lines up with it. */
  lemma RecordForLastLine(lib: DatePlatform, newId: nat -> string, acc0: seq<string>, done: seq<Person>, last: string)
    requires |done| == |acc0|
    requires forall k :: 0 <= k < |acc0| ==> |Parts(acc0[k])| >= 3
    requires |Parts(last)| >= 3
    requires forall k :: 0 <= k < |acc0| ==> done[k] == PersonOf(lib, acc0[k], newId(k))
    ensures forall k :: 0 <= k <= |acc0| ==>
              |Parts((acc0 + [last])[k])| >= 3
              && (done + [PersonOf(lib, last, newId(|done|))])[k] == PersonOf(lib, (acc0 + [last])[k], newId(k))
  {
  }

  /** Only the accepted lines matter to the records: two inputs with the same
      accepted lines import the same records. */
  lemma SameAcceptedLinesSamePeople(lib: DatePlatform, newId: nat -> string, a: seq<string>, b: seq<string>)
    requires Filter(Accepted, a) == Filter(Accepted, b)
    ensures ParsedPeople(lib, newId, a) == ParsedPeople(lib, newId, b)
  {
    ParsedPeopleFollowAcceptedLines(lib, newId, a);
    ParsedPeopleFollowAcceptedLines(lib, newId, b);
  }

  /** The outcome of `handleImport` on the pasted text `raw`. */
  function Import(lib: DatePlatform, newId: nat -> string, raw: string): (r: ImportResult)
    ensures r.EmptyInput? <==> AllSpace(raw)
    ensures r.NothingValid? <==> !AllSpace(raw) && Filter(Accepted, Lines(raw)) == []
    ensures !r.EmptyInput? ==> r.skipped == Filter(Rejected, Lines(raw))
    ensures r.Imported? ==>
              var acc := Filter(Accepted, Lines(raw));
              && |r.people| == |acc| > 0
              && forall k :: 0 <= k < |acc| ==> r.people[k] == PersonOf(lib, acc[k], newId(k))
  {
    if Trim(raw) == "" then EmptyInput
    else
      var lines := Lines(raw);
      var people := ParsedPeople(lib, newId, lines);
      ParsedPeopleFollowAcceptedLines(lib, newId, lines);
      if |people| == 0 then NothingValid(Filter(Rejected, lines))
      else Imported(people, Filter(Rejected, lines))
  }

  /** A blank line between others changes neither the records nor the warnings. */
  lemma BlankLineIgnored(lib: DatePlatform, newId: nat -> string, a: seq<string>, line: string, b: seq<string>)
    requires IsBlank(line)
    ensures ParsedPeople(lib, newId, a + [line] + b) == ParsedPeople(lib, newId, a + b)
    ensures Filter(Rejected, a + [line] + b) == Filter(Rejected, a + b)
  {
    FilterSkips(Accepted, a, line, b);
    SameAcceptedLinesSamePeople(lib, newId, a + [line] + b, a + b);
    FilterSkips(Rejected, a, line, b);
  }

  /** A line with fewer than three parts gives no record, is warned about in
      its place, and the lines after it are processed as before. */
  lemma RejectedLineWarnedAndSkipped(lib: DatePlatform, newId: nat -> string, a: seq<string>, line: string, b: seq<string>)
    requires Rejected(line)
    ensures ParsedPeople(lib, newId, a + [line] + b) == ParsedPeople(lib, newId, a + b)
    ensures Filter(Rejected, a + [line] + b) == Filter(Rejected, a) + [line] + Filter(Rejected, b)
  {
    FilterSkips(Accepted, a, line, b);
    SameAcceptedLinesSamePeople(lib, newId, a + [line] + b, a + b);
    FilterKeeps(Rejected, a, line, b);
  }

  /** Parts after the third do not reach the record. */
  lemma ExtraPartsIgnored(lib: DatePlatform, line: string, extra: string, id: string)
    requires |Parts(line)| >= 3
    ensures |Parts(line + [','] + extra)| >= 3
    ensures PersonOf(lib, line + [','] + extra, id) == PersonOf(lib, line, id)
  {
    SplitAppend(line, ',', extra);
    var whole := Split(line + [','] + extra, ',');
    assert whole[..|Split(line, ',')|] == Split(line, ',');
  }

  /** A line of three comma-free fields yields the trimmed name and document
      and the formatted date. */
  lemma ThreeFieldLine(lib: DatePlatform, name: string, date: string, doc: string, id: string)
    requires ',' !in name && ',' !in date && ',' !in doc
    ensures var line := name + [','] + date + [','] + doc;
            |Parts(line)| == 3 && PersonOf(lib, line, id) == Person(id, Trim(name), FormatDate(lib, Trim(date)), Trim(doc))
  {
    JoinThree(name, date, doc, ',');
    SplitJoin([name, date, doc], ',');
  }

  /** The bulk import component and its text area. */
  class BulkImport {
    var rawData: string

    constructor ()
      ensures rawData == ""
    {
      rawData := "";
    }

    /** `handleImport`: on success the records go out once, all together, and
        the text area is cleared; otherwise the text area keeps its text. */
    method HandleImport(lib: DatePlatform, newId: nat -> string) returns (result: ImportResult)
      modifies this
      ensures result == Import(lib, newId, old(rawData))
      ensures rawData == if result.Imported? then "" else old(rawData)
    {
      var raw := rawData;  // the value the handler's closure captured
      if Trim(raw) == "" {
        return EmptyInput;
      }
      var lines := Split(Trim(raw), '\n');
      var importedPeople: seq<Person> := [];
      var skipped: seq<string> := [];
      for i := 0 to |lines|
        invariant rawData == raw
        invariant importedPeople == ParsedPeople(lib, newId, lines[..i])
        invariant skipped == Filter(Rejected, lines[..i])
      {
        var line := lines[i];
        NextLine(lib, newId, lines, i);
        if Trim(line) == "" {
          assert !Accepted(line) && !Rejected(line);
          continue;
        }
        var parts := Parts(line);
        if |parts| < 3 {
          assert Rejected(line) && !Accepted(line);
          skipped := skipped + [line];
          continue;
        }
        assert Accepted(line) && !Rejected(line);
        var person := Person(newId(|importedPeople|), parts[0], FormatDate(lib, parts[1]), parts[2]);
        assert person == PersonOf(lib, line, newId(|importedPeople|));
        importedPeople := importedPeople + [person];
      }
      assert lines[..|lines|] == lines;
      assert lines == Lines(raw);
      if |importedPeople| == 0 {
        return NothingValid(skipped);
      }
      result := Imported(importedPeople, skipped);
      rawData := "";
    }
  }
}
