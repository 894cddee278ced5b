/** The educator dashboard: the CSV export of the observation dataset and
    the start control of each guided activity card. */
module EducatorDashboard {
  import opened Wrappers
  import CurriculumActivity

  // ----- CSV export -----

  /** A field value of a fetched record: JSON `null`, or a non-null value
      standing for itself by the text `JSON.stringify` produces for it. The
      encoder's escaping is not modelled; only its output is carried. */
  datatype Value = Null | Json(text: string)

  /** `JSON.stringify` without indentation escapes control characters, so
      its output holds no raw line break. */
  predicate Stringified(v: Value)
  {
    v.Json? ==> '\r' !in v.text && '\n' !in v.text
  }

  /** A fetched record: its own keys in `Object.keys` order, and its fields. */
  datatype Record = Record(keys: seq<string>, fields: map<string, Value>)

  /** `Object.keys(items[0])` throws when the dataset is empty. */
  datatype DownloadError = EmptyDataset

  /** `parts.join(sep)`. */
  function Join(parts: seq<string>, sep: string): string
  {
    if |parts| == 0 then ""
    else if |parts| == 1 then parts[0]
    else parts[0] + sep + Join(parts[1..], sep)
  }

  /** `JSON.stringify(row[key], replacer)` as `join` writes it: a missing
      key gives `undefined`, which `join` writes as nothing; the replacer
      turns `null` into the empty string, which is encoded as `""`. */
  function Cell(row: Record, key: string): (r: string)
    ensures r == "" <==> key !in row.fields || row.fields[key] == Json("")
    ensures (key !in row.fields || Stringified(row.fields[key])) ==> '\r' !in r && '\n' !in r
  {
    if key !in row.fields then ""
    else match row.fields[key]
      case Null => "\"\""
      case Json(t) => t
  }

  /** The cells of one data row, one per header key. When every value of
      the record is the encoder's output, no cell breaks the line. */
  function RowCells(header: seq<string>, row: Record): (r: seq<string>)
    ensures |r| == |header|
    ensures (forall k :: k in row.fields ==> Stringified(row.fields[k])) ==>
      forall j :: 0 <= j < |r| ==> '\r' !in r[j] && '\n' !in r[j]
  {
    seq(|header|, j requires 0 <= j < |header| => Cell(row, header[j]))
  }

  /** The lines before they are joined: the header, then one per record. */
  function CsvLines(items: seq<Record>): (lines: seq<string>)
    requires items != []
    ensures |lines| == |items| + 1
  {
    var header := items[0].keys;
    [Join(header, ",")] + seq(|items|, i requires 0 <= i < |items| => Join(RowCells(header, items[i]), ","))
  }

  /** The CSV text of `handleDownloadData`, or the failure its `catch`
      reports for an empty dataset. */
  function ToCsv(items: seq<Record>): (r: Result<string, DownloadError>)
    ensures r.Failure? <==> items == []
  {
    if items == [] then Failure(EmptyDataset)
    else Success(Join(CsvLines(items), "\r\n"))
  }

  /** Each data row has one cell per header key, in header order: empty
      for a missing key, `""` for a null, the encoder's text otherwise. */
  lemma RowCellsFollowHeader(header: seq<string>, row: Record)
    ensures |RowCells(header, row)| == |header|
    ensures forall j :: 0 <= j < |header| && header[j] !in row.fields ==> RowCells(header, row)[j] == ""
    ensures forall j :: 0 <= j < |header| && header[j] in row.fields && row.fields[header[j]].Null? ==>
      RowCells(header, row)[j] == "\"\""
    ensures forall j :: 0 <= j < |header| && header[j] in row.fields && row.fields[header[j]].Json? ==>
      RowCells(header, row)[j] == row.fields[header[j]].text
  {
  }

  /** Columns are fixed by the first record: two records that agree on the
      header keys give the same row, whatever else they hold. */
  lemma OnlyHeaderKeysMatter(header: seq<string>, r1: Record, r2: Record)
    requires forall k :: k in header ==> (k in r1.fields <==> k in r2.fields)
    requires forall k :: k in header && k in r1.fields ==> r1.fields[k] == r2.fields[k]
    ensures Join(RowCells(header, r1), ",") == Join(RowCells(header, r2), ",")
  {
    assert RowCells(header, r1) == RowCells(header, r2);
  }

  // ----- reading the lines back -----

  /** Splits a text at every CR LF pair, left to right. */
  function SplitLines(s: string): (r: seq<string>)
    ensures |r| >= 1
  {
    if |s| < 2 then [s]
    else if s[0] == '\r' && s[1] == '\n' then [""] + SplitLines(s[2..])
    else
      var rest := SplitLines(s[1..]);
      [[s[0]] + rest[0]] + rest[1..]
  }

  lemma {:induction false} SplitSingle(l: string)
    requires '\r' !in l
    ensures SplitLines(l) == [l]
    decreases |l|
  {
    if |l| >= 2 {
      SplitSingle(l[1..]);
      assert l == [l[0]] + l[1..];
    }
  }

  lemma {:induction false} SplitFirst(l: string, t: string)
    requires '\r' !in l
    ensures SplitLines(l + "\r\n" + t) == [l] + SplitLines(t)
    decreases |l|
  {
    var s := l + "\r\n" + t;
    if l == [] {
      assert s[2..] == t;
    } else {
      SplitFirst(l[1..], t);
      assert s[1..] == l[1..] + "\r\n" + t;
      assert [s[0]] + l[1..] == l;
    }
  }

  /** Splitting the joined lines at CR LF gives the lines back, provided
      no line holds a carriage return. */
  lemma {:induction false} SplitJoin(lines: seq<string>)
    requires |lines| >= 1
    requires forall i :: 0 <= i < |lines| ==> '\r' !in lines[i]
    ensures SplitLines(Join(lines, "\r\n")) == lines
    decreases |lines|
  {
    if |lines| == 1 {
      SplitSingle(lines[0]);
    } else {
      SplitJoin(lines[1..]);
      SplitFirst(lines[0], Join(lines[1..], "\r\n"));
      assert [lines[0]] + lines[1..] == lines;
    }
  }

  lemma {:induction false} JoinWithoutCr(parts: seq<string>, sep: string)
    requires '\r' !in sep
    requires forall i :: 0 <= i < |parts| ==> '\r' !in parts[i]
    ensures '\r' !in Join(parts, sep)
    decreases |parts|
  {
    if |parts| > 1 {
      JoinWithoutCr(parts[1..], sep);
    }
  }

  /** The export has exactly one line per record plus the header line, the
      first being the first record's keys joined by commas and each other
      the record's cells joined by commas, with no trailing separator. This
      holds when no header key holds a carriage return. */
  lemma CsvHasOneLinePerRecord(items: seq<Record>)
    requires items != []
    requires forall i :: 0 <= i < |items[0].keys| ==> '\r' !in items[0].keys[i]
    requires forall r, k :: r in items && k in r.fields ==> Stringified(r.fields[k])
    ensures ToCsv(items).Success?
    ensures SplitLines(ToCsv(items).value) == CsvLines(items)
    ensures |SplitLines(ToCsv(items).value)| == |items| + 1
    ensures SplitLines(ToCsv(items).value)[0] == Join(items[0].keys, ",")
    ensures forall i :: 0 <= i < |items| ==>
      SplitLines(ToCsv(items).value)[i + 1] == Join(RowCells(items[0].keys, items[i]), ",")
  {
    var header := items[0].keys;
    var lines := CsvLines(items);
    JoinWithoutCr(header, ",");
    forall l | 1 <= l < |lines| ensures '\r' !in lines[l] {
      var row := items[l - 1];
      assert lines[l] == Join(RowCells(header, row), ",");
      assert row in items;
      JoinWithoutCr(RowCells(header, row), ",");
    }
    assert lines[0] == Join(header, ",");
    SplitJoin(lines);
  }

  // ----- activity cards -----

  /** An activity card of the dashboard's own list. */
  datatype ActivityCard = ActivityCard(
    id: nat, title: string, subject: string, level: string, description: string, status: string)

  const Activities: seq<ActivityCard> := [
    ActivityCard(1, "Local Water Health", "Chemistry & Biology", "Grade 9-12",
      "Investigate pH and turbidity in local streams to assess habitat suitability for macroinvertebrates.",
      "Active"),
    ActivityCard(2, "Urban Heat Island Effect", "Physics & Earth Science", "Grade 6-8",
      "Map temperature variations across paved vs. green surfaces in your school neighborhood.",
      "Coming Soon")]

  datatype StartControl = StartLink(path: string) | ComingSoonButton

  /** Only an `Active` activity gets a link to its page; any other status
      shows a disabled button. */
  function StartControlFor(a: ActivityCard): (r: StartControl)
    ensures r.StartLink? <==> a.status == "Active"
    ensures r.StartLink? ==> r.path == "/activity/" + CurriculumActivity.IdText(a.id)
  {
    if a.status == "Active" then StartLink("/activity/" + CurriculumActivity.IdText(a.id))
    else ComingSoonButton
  }

  /** Every start link on the dashboard leads to an activity the activity
      page finds, with the same title; the card without a link is the one
      still coming. */
  lemma StartLinksResolve()
    ensures forall a :: a in Activities && StartControlFor(a).StartLink? ==>
      && CurriculumActivity.Lookup(CurriculumActivity.IdText(a.id)).Some?
      && CurriculumActivity.Lookup(CurriculumActivity.IdText(a.id)).value.title == a.title
    ensures StartControlFor(Activities[1]) == ComingSoonButton
  {
    assert CurriculumActivity.IdText(1) == "1";
  }
}
