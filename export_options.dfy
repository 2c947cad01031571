/**
 * The export menu: the list of people as comma-separated text, as JSON, or as
 * tab-separated text, one header line and one line per person, in list order.
 * Every export refuses an empty list. Fields are written as they are: there is
 * no quoting and no escaping.
 *
 * `new Date(birthDate).toLocaleDateString("pt-BR")` is the parameter
 * `display`, and `JSON.stringify(people, null, 2)` the parameter `stringify`.
 */
module ExportOptions {
  import opened Text
  import opened Records
  import opened DateFormat
  import opened BulkImport

  /** The column titles, in column order. */
  const HeaderFields: seq<string> := ["Nome", "Data de Nascimento", "Número do Documento"]

  /** The three cells written for a person: name, displayed birth date, document. */
  function Columns(p: Person, display: string -> string): (cells: seq<string>) {
    [p.name, display(p.birthDate), p.documentNumber]
  }

  /** `[header, ...rows].join("\n")` */
  function Table(header: string, rows: seq<string>): (text: string) {
    Join([header] + rows, '\n')
  }

  /** `row.join(",")` */
  function CsvRow(p: Person, display: string -> string): (row: string) {
    Join(Columns(p, display), ',')
  }

  /** `${person.name}\t${date}\t${person.documentNumber}` */
  function TextRow(p: Person, display: string -> string): (line: string) {
    p.name + ['\t'] + display(p.birthDate) + ['\t'] + p.documentNumber
  }

  /** `convertToCSV`: the empty text for no people, else the header line and one row per person. */
  function ConvertToCsv(people: seq<Person>, display: string -> string): (csv: string)
    ensures csv == "" <==> people == []
  {
    if people == [] then ""
    else
      var header := Join(HeaderFields, ',');
      assert |header| >= 4;
      Table(header, seq(|people|, i requires 0 <= i < |people| => CsvRow(people[i], display)))
  }

  /** `exportToCSV`: nothing to download for an empty list, else the CSV text. */
  function ExportToCsv(people: seq<Person>, display: string -> string): (r: Option<string>)
    ensures r.None? <==> people == []
    ensures r.Some? ==> r.value == ConvertToCsv(people, display)
  {
    var csv := ConvertToCsv(people, display);
    if csv == "" then None else Some(csv)
  }

  /** `exportToJSON`: nothing to download for an empty list, else the whole list stringified. */
  function ExportToJson(people: seq<Person>, stringify: seq<Person> -> string): (r: Option<string>)
    ensures r.None? <==> people == []
    ensures r.Some? ==> r.value == stringify(people)
  {
    if |people| == 0 then None else Some(stringify(people))
  }

  /** `exportToText`: nothing to download for an empty list, else the
      tab-separated header and one tab-separated line per person. */
  function ExportToText(people: seq<Person>, display: string -> string): (r: Option<string>)
    ensures r.None? <==> people == []
    ensures r.Some? ==> r.value == Table(Join(HeaderFields, '\t'), seq(|people|, i requires 0 <= i < |people| => TextRow(people[i], display)))
  {
    if |people| == 0 then None
    else Some(Table(Join(HeaderFields, '\t'), seq(|people|, i requires 0 <= i < |people| => TextRow(people[i], display))))
  }

  /** The tab-separated line is the three cells joined by tabs. */
  lemma TextRowIsJoin(p: Person, display: string -> string)
    ensures TextRow(p, display) == Join(Columns(p, display), '\t')
  {
    var c := Columns(p, display);
    JoinThree(c[0], c[1], c[2], '\t');
  }

  /** No cell holds a line break. */
  predicate NoBreaks(people: seq<Person>, display: string -> string) {
    forall i :: 0 <= i < |people| ==>
      '\n' !in people[i].name && '\n' !in display(people[i].birthDate) && '\n' !in people[i].documentNumber
  }

  /** The header line for a separator: the three titles with the separator between them. */
  lemma HeaderLine(sep: char)
    requires sep == ',' || sep == '\t'
    ensures Join(HeaderFields, sep) == "Nome" + [sep] + "Data de Nascimento" + [sep] + "Número do Documento"
    ensures '\n' !in Join(HeaderFields, sep)
  {
    assert HeaderFields[1..] == ["Data de Nascimento", "Número do Documento"];
    assert HeaderFields[1..][1..] == ["Número do Documento"];
    JoinAvoids(HeaderFields, sep, '\n');
  }

  /** A row of cells without line breaks and without the line break as separator has no line break. */
  lemma RowWithoutBreak(p: Person, display: string -> string, sep: char)
    requires sep != '\n'
    requires '\n' !in p.name && '\n' !in display(p.birthDate) && '\n' !in p.documentNumber
    ensures '\n' !in Join(Columns(p, display), sep)
  {
    JoinAvoids(Columns(p, display), sep, '\n');
  }

  /** Splitting a table at line breaks gives back its lines when none of them holds one. */
  lemma TableLines(header: string, rows: seq<string>)
    requires '\n' !in header
    requires forall i :: 0 <= i < |rows| ==> '\n' !in rows[i]
    ensures Split(Table(header, rows), '\n') == [header] + rows
  {
    var lines := [header] + rows;
    forall i | 0 <= i < |lines| ensures '\n' !in lines[i] {
      if i > 0 { assert lines[i] == rows[i - 1]; }
    }
    SplitJoin(lines, '\n');
  }

  /** The first line of a table is its header, whatever the rows hold. */
  lemma TableFirstLine(header: string, rows: seq<string>)
    requires '\n' !in header
    ensures Split(Table(header, rows), '\n')[0] == header
  {
    var s := Table(header, rows);
    var first := Split(s, '\n')[0];
    SplitFirst(s, '\n');
    if rows == [] {
      assert [header] + rows == [header];
    } else {
      assert s[|header|] == '\n';
    }
  }

  /** The first line of the CSV text of any non-empty list is the header, even
      when a cell holds a line break. */
  lemma CsvFirstLineAlways(people: seq<Person>, display: string -> string)
    requires people != []
    ensures Split(ConvertToCsv(people, display), '\n')[0]
         == "Nome" + [','] + "Data de Nascimento" + [','] + "Número do Documento"
  {
    HeaderLine(',');
    TableFirstLine(Join(HeaderFields, ','), seq(|people|, i requires 0 <= i < |people| => CsvRow(people[i], display)));
  }

  /** The first line of the text export of any non-empty list is the tab
      header, even when a cell holds a line break. */
  lemma TextFirstLineAlways(people: seq<Person>, display: string -> string)
    requires people != []
    ensures ExportToText(people, display).Some?
    ensures Split(ExportToText(people, display).value, '\n')[0]
         == "Nome" + ['\t'] + "Data de Nascimento" + ['\t'] + "Número do Documento"
  {
    HeaderLine('\t');
    TableFirstLine(Join(HeaderFields, '\t'), seq(|people|, i requires 0 <= i < |people| => TextRow(people[i], display)));
  }

  /** The CSV text has one line more than there are people: the header line,
      then each person's row in list order. */
  lemma CsvLines(people: seq<Person>, display: string -> string)
    requires people != []
    requires NoBreaks(people, display)
    ensures var lines := Split(ConvertToCsv(people, display), '\n');
            && |lines| == |people| + 1
            && lines[0] == "Nome" + [','] + "Data de Nascimento" + [','] + "Número do Documento"
            && forall i :: 0 <= i < |people| ==> lines[i + 1] == CsvRow(people[i], display)
  {
    var header := Join(HeaderFields, ',');
    var rows := seq(|people|, i requires 0 <= i < |people| => CsvRow(people[i], display));
    HeaderLine(',');
    forall i | 0 <= i < |rows| ensures '\n' !in rows[i] {
      RowWithoutBreak(people[i], display, ',');
    }
    TableLines(header, rows);
  }

  /** The text export has one line more than there are people: the tab-separated
      header line, then each person's line in list order. */
  lemma TextLines(people: seq<Person>, display: string -> string)
    requires people != []
    requires NoBreaks(people, display)
    ensures ExportToText(people, display).Some?
    ensures var lines := Split(ExportToText(people, display).value, '\n');
            && |lines| == |people| + 1
            && lines[0] == "Nome" + ['\t'] + "Data de Nascimento" + ['\t'] + "Número do Documento"
            && forall i :: 0 <= i < |people| ==> lines[i + 1] == TextRow(people[i], display)
  {
    var header := Join(HeaderFields, '\t');
    var rows := seq(|people|, i requires 0 <= i < |people| => TextRow(people[i], display));
    HeaderLine('\t');
    forall i | 0 <= i < |rows| ensures '\n' !in rows[i] {
      TextRowIsJoin(people[i], display);
      RowWithoutBreak(people[i], display, '\t');
    }
    TableLines(header, rows);
  }

  /** A CSV row whose cells hold no comma splits back into its three cells. */
  lemma CsvRowColumns(p: Person, display: string -> string)
    requires ',' !in p.name && ',' !in display(p.birthDate) && ',' !in p.documentNumber
    ensures Split(CsvRow(p, display), ',') == Columns(p, display)
  {
    SplitJoin(Columns(p, display), ',');
  }

  /** A text line whose cells hold no tab splits back into its three cells. */
  lemma TextRowColumns(p: Person, display: string -> string)
    requires '\t' !in p.name && '\t' !in display(p.birthDate) && '\t' !in p.documentNumber
    ensures Split(TextRow(p, display), '\t') == Columns(p, display)
  {
    TextRowIsJoin(p, display);
    SplitJoin(Columns(p, display), '\t');
  }

  /** Cells are not quoted: a CSV row splits into the pieces of each cell, so
      a comma inside a name adds a column. */
  lemma CsvRowUnquoted(p: Person, display: string -> string)
    ensures Split(CsvRow(p, display), ',')
         == Split(p.name, ',') + Split(display(p.birthDate), ',') + Split(p.documentNumber, ',')
    ensures ',' in p.name ==> |Split(CsvRow(p, display), ',')| > 3
  {
    var c := Columns(p, display);
    JoinThree(c[0], c[1], c[2], ',');
    SplitThree(c[0], c[1], c[2], ',');
    if ',' in p.name {
      SplitAtLeastTwo(p.name, ',');
    }
  }

  /** Every CSV row, commas inside its cells or not, is a line the bulk import
      accepts: it holds at least the two commas between its cells and a comma
      is not white space. */
  lemma CsvRowAlwaysAccepted(p: Person, display: string -> string)
    ensures Accepted(CsvRow(p, display))
  {
    var c := Columns(p, display);
    var row := CsvRow(p, display);
    JoinThree(c[0], c[1], c[2], ',');
    assert row == c[0] + [','] + c[1] + [','] + c[2];
    assert multiset(row)[','] >= 2 by {
      assert multiset(row) == multiset(c[0]) + multiset([',']) + multiset(c[1]) + multiset([',']) + multiset(c[2]);
    }
    assert !AllSpace(row) by {
      assert row[|c[0]|] == ',' && !IsSpace(',');
    }
    AcceptedIffTwoCommas(row);
  }

  /** A CSV row pasted into the bulk import is one accepted line giving back
      the trimmed name and document and the displayed date passed through the
      import's date formatter. */
  lemma CsvRowReimported(lib: DatePlatform, p: Person, display: string -> string, id: string)
    requires ',' !in p.name && ',' !in display(p.birthDate) && ',' !in p.documentNumber
    ensures |Parts(CsvRow(p, display))| == 3
    ensures PersonOf(lib, CsvRow(p, display), id)
         == Person(id, Trim(p.name), FormatDate(lib, Trim(display(p.birthDate))), Trim(p.documentNumber))
  {
    var c := Columns(p, display);
    JoinThree(c[0], c[1], c[2], ',');
    ThreeFieldLine(lib, c[0], c[1], c[2], id);
  }
}
