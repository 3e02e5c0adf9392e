/**
 * DataTable export (datatable.js `convertToCSV`): a header line of column
 * labels, then one line per row of the working set. A string cell holding
 * `,` or `"` is wrapped in quotes with inner quotes doubled (rules 6 and 7
 * of section 2 of RFC 4180); line breaks are not quoted and header labels
 * are not escaped. A small reader for that format states the round trip.
 */
module TableCsv {
  import opened Text
  import opened Values
  import opened TableFilter

  // ------------------------------------------------------------ writing

  /** `col.label || col.field`. */
  function HeaderName(c: Column): string {
    if c.caption != "" then c.caption else c.field
  }

  /** `value.replace(/"/g, '""')`. */
  function DoubleQuotes(s: string): string {
    if |s| == 0 then ""
    else (if s[0] == '"' then "\"\"" else [s[0]]) + DoubleQuotes(s[1..])
  }

  /** One exported cell: `row[field] || ''`, quoted when it is a string holding `,` or `"`. */
  function CsvCell(v: Value): string {
    if !Truthy(v) then ""
    else match v
      case Str(s) => if Contains(s, ",") || Contains(s, "\"") then "\"" + DoubleQuotes(s) + "\"" else s
      case _ => ToText(v)
  }

  function HeaderCells(columns: seq<Column>): seq<string> {
    seq(|columns|, i requires 0 <= i < |columns| => HeaderName(columns[i]))
  }

  function RowCells(columns: seq<Column>, row: Row): seq<string> {
    seq(|columns|, i requires 0 <= i < |columns| => CsvCell(Lookup(row, columns[i].field)))
  }

  function CsvLines(columns: seq<Column>, rows: seq<Row>): seq<string> {
    [Join(HeaderCells(columns), ',')]
      + seq(|rows|, i requires 0 <= i < |rows| => Join(RowCells(columns, rows[i]), ','))
  }

  /** `convertToCSV(rows)`: the lines joined with `\n`. */
  function ConvertToCsv(columns: seq<Column>, rows: seq<Row>): string {
    Join(CsvLines(columns, rows), '\n')
  }

  // ------------------------------------------------------------ meaning

  /** The text a cell stands for: empty when falsy, otherwise its `toString()`. */
  function CellValue(v: Value): string {
    if Truthy(v) then ToText(v) else ""
  }

  function RowValues(columns: seq<Column>, row: Row): seq<string> {
    seq(|columns|, i requires 0 <= i < |columns| => CellValue(Lookup(row, columns[i].field)))
  }

  /** What a reader should get back: the header names, then each row's cell texts. */
  function ExpectedTable(columns: seq<Column>, rows: seq<Row>): seq<seq<string>> {
    [HeaderCells(columns)] + seq(|rows|, i requires 0 <= i < |rows| => RowValues(columns, rows[i]))
  }

  // ------------------------------------------------------------ reading

  /** Reads a quoted field after its opening quote: `""` is one quote, a lone `"` ends it. */
  function ReadQuoted(s: string): (r: (string, string))
    ensures |r.1| <= |s|
  {
    if |s| == 0 then ("", "")
    else if s[0] == '"' then
      if |s| > 1 && s[1] == '"' then
        var (f, rest) := ReadQuoted(s[2..]);
        (['"'] + f, rest)
      else ("", s[1..])
    else
      var (f, rest) := ReadQuoted(s[1..]);
      ([s[0]] + f, rest)
  }

  /** Splits one line into fields, honouring quoted fields. */
  function ParseRecord(line: string): seq<string>
    decreases |line|
  {
    if |line| > 0 && line[0] == '"' then
      var (field, rest) := ReadQuoted(line[1..]);
      if |rest| > 0 && rest[0] == ',' then [field] + ParseRecord(rest[1..]) else [field]
    else
      var k := IndexOf(line, ',');
      if k < |line| then [line[..k]] + ParseRecord(line[k + 1..]) else [line]
  }

  function SplitLines(text: string): seq<string>
    decreases |text|
  {
    var k := IndexOf(text, '\n');
    if k < |text| then [text[..k]] + SplitLines(text[k + 1..]) else [text]
  }

  function ParseCsv(text: string): seq<seq<string>> {
    var lines := SplitLines(text);
    seq(|lines|, i requires 0 <= i < |lines| => ParseRecord(lines[i]))
  }

  // ------------------------------------------------------------ proofs

  /** `e` is how the writer spells the field text `t`: verbatim, or quoted. */
  predicate Encodes(e: string, t: string) {
    (e == t && ',' !in t && '"' !in t) || e == "\"" + DoubleQuotes(t) + "\""
  }

  lemma {:induction false} DoubleQuotesChars(s: string, c: char)
    requires c != '"' && c !in s
    ensures c !in DoubleQuotes(s)
  {
    if |s| > 0 { DoubleQuotesChars(s[1..], c); }
  }

  lemma CsvCellEncodes(v: Value)
    ensures Encodes(CsvCell(v), CellValue(v))
    ensures '\n' !in CellValue(v) ==> '\n' !in CsvCell(v)
  {
    if Truthy(v) && v.Str? {
      ContainsChar(v.s, ',');
      ContainsChar(v.s, '"');
      if '\n' !in v.s { DoubleQuotesChars(v.s, '\n'); }
    }
  }

  lemma {:induction false} ReadQuotedInverse(x: string, rest: string)
    requires rest == "" || rest[0] != '"'
    ensures ReadQuoted(DoubleQuotes(x) + "\"" + rest) == (x, rest)
  {
    if |x| == 0 {
      assert DoubleQuotes(x) + "\"" + rest == "\"" + rest;
    } else {
      ReadQuotedInverse(x[1..], rest);
      if x[0] == '"' {
        assert DoubleQuotes(x) + "\"" + rest == "\"\"" + (DoubleQuotes(x[1..]) + "\"" + rest);
      } else {
        assert DoubleQuotes(x) + "\"" + rest == [x[0]] + (DoubleQuotes(x[1..]) + "\"" + rest);
      }
      assert x == [x[0]] + x[1..];
    }
  }

  /** What follows a field on a line: nothing, or a separator and the remaining fields. */
  function FieldsAfter(after: string): seq<string>
    requires after == "" || after[0] == ','
  {
    if after == "" then [] else ParseRecord(after[1..])
  }

  /** Reading a quoted field followed by `,` or by the end of the line. */
  lemma ParseQuotedField(t: string, after: string)
    requires after == "" || after[0] == ','
    ensures ParseRecord("\"" + DoubleQuotes(t) + "\"" + after) == [t] + FieldsAfter(after)
  {
    var line := "\"" + DoubleQuotes(t) + "\"" + after;
    assert line[0] == '"';
    assert line[1..] == DoubleQuotes(t) + "\"" + after;
    ReadQuotedInverse(t, after);
  }

  /** Reading an unquoted field followed by `,` or by the end of the line. */
  lemma ParsePlainField(t: string, after: string)
    requires ',' !in t && '"' !in t
    requires after == "" || after[0] == ','
    ensures ParseRecord(t + after) == [t] + FieldsAfter(after)
  {
    var line := t + after;
    assert |line| > 0 ==> line[0] != '"';
    IndexOfConcat(t, after, ',');
    assert IndexOf(line, ',') == |t|;
    assert line[..|t|] == t;
    if after != "" {
      assert line[|t| + 1..] == after[1..];
    } else {
      assert line == t;
    }
  }

  /** Reading one written field followed by `,` or by the end of the line. */
  lemma ParseEncodedField(e: string, t: string, after: string)
    requires Encodes(e, t)
    requires after == "" || after[0] == ','
    ensures ParseRecord(e + after) == [t] + FieldsAfter(after)
  {
    if e == "\"" + DoubleQuotes(t) + "\"" {
      ParseQuotedField(t, after);
    } else {
      ParsePlainField(t, after);
    }
  }

  /** A line of written fields reads back as their texts. */
  lemma {:induction false} ParseEncodedRecord(es: seq<string>, ts: seq<string>)
    requires |es| == |ts| >= 1
    requires forall i :: 0 <= i < |es| ==> Encodes(es[i], ts[i])
    ensures ParseRecord(Join(es, ',')) == ts
  {
    if |es| == 1 {
      ParseEncodedField(es[0], ts[0], "");
      assert es[0] + "" == es[0];
    } else {
      ParseEncodedRecord(es[1..], ts[1..]);
      var after := "," + Join(es[1..], ',');
      assert Join(es, ',') == es[0] + after;
      ParseEncodedField(es[0], ts[0], after);
      assert after[1..] == Join(es[1..], ',');
      assert ts == [ts[0]] + ts[1..];
    }
  }

  /** The first line of a text runs up to the first line break. */
  lemma SplitFirstLine(a: string, rest: string)
    requires '\n' !in a
    ensures SplitLines(a + "\n" + rest) == [a] + SplitLines(rest)
  {
    var text := a + "\n" + rest;
    IndexOfConcat(a, "\n" + rest, '\n');
    assert a + ("\n" + rest) == text;
    assert text[..|a|] == a;
    assert text[|a| + 1..] == rest;
  }

  /** A text without line breaks is a single line. */
  lemma SplitSingleLine(a: string)
    requires '\n' !in a
    ensures SplitLines(a) == [a]
  {
    IndexOfConcat(a, "", '\n');
    assert a + "" == a;
  }

  /** Splitting a join of line-break-free lines gives the lines back. */
  lemma {:induction false} SplitJoinedLines(lines: seq<string>)
    requires |lines| >= 1
    requires forall i :: 0 <= i < |lines| ==> '\n' !in lines[i]
    ensures SplitLines(Join(lines, '\n')) == lines
  {
    if |lines| == 1 {
      SplitSingleLine(lines[0]);
    } else {
      var rest := Join(lines[1..], '\n');
      assert Join(lines, '\n') == lines[0] + "\n" + rest;
      SplitFirstLine(lines[0], rest);
      SplitJoinedLines(lines[1..]);
      assert lines == [lines[0]] + lines[1..];
    }
  }

  /** Header names that survive unescaped: no separator, quote or line break. */
  predicate PlainHeaders(columns: seq<Column>) {
    forall i :: 0 <= i < |columns| ==>
      ',' !in HeaderName(columns[i]) && '"' !in HeaderName(columns[i]) && '\n' !in HeaderName(columns[i])
  }

  /** No exported cell text holds a line break (the writer does not quote them). */
  predicate NoLineBreaks(columns: seq<Column>, rows: seq<Row>) {
    forall r, i :: 0 <= r < |rows| && 0 <= i < |columns| ==>
      '\n' !in CellValue(Lookup(rows[r], columns[i].field))
  }

  lemma RowLine(columns: seq<Column>, row: Row)
    requires |columns| >= 1
    requires forall i :: 0 <= i < |columns| ==> '\n' !in CellValue(Lookup(row, columns[i].field))
    ensures ParseRecord(Join(RowCells(columns, row), ',')) == RowValues(columns, row)
    ensures '\n' !in Join(RowCells(columns, row), ',')
  {
    var es := RowCells(columns, row);
    forall i | 0 <= i < |columns|
      ensures Encodes(es[i], RowValues(columns, row)[i]) && '\n' !in es[i]
    {
      CsvCellEncodes(Lookup(row, columns[i].field));
    }
    ParseEncodedRecord(es, RowValues(columns, row));
    JoinChars(es, ',', '\n');
  }

  /**
   * Export then re-read: the header names and every row's cell texts come
   * back, including texts holding commas and quotes, provided there is at
   * least one column, the labels need no escaping and no cell holds a line
   * break.
   */
  lemma CsvRoundTrip(columns: seq<Column>, rows: seq<Row>)
    requires |columns| >= 1
    requires PlainHeaders(columns)
    requires NoLineBreaks(columns, rows)
    ensures ParseCsv(ConvertToCsv(columns, rows)) == ExpectedTable(columns, rows)
  {
    var lines := CsvLines(columns, rows);
    LinesReadBack(columns, rows);
    SplitJoinedLines(lines);
    ParseLines(ConvertToCsv(columns, rows), lines, ExpectedTable(columns, rows));
  }

  /** Every exported line is free of line breaks and reads back as its expected record. */
  lemma LinesReadBack(columns: seq<Column>, rows: seq<Row>)
    requires |columns| >= 1
    requires PlainHeaders(columns)
    requires NoLineBreaks(columns, rows)
    ensures |CsvLines(columns, rows)| == |ExpectedTable(columns, rows)|
    ensures forall i :: 0 <= i < |CsvLines(columns, rows)| ==>
              '\n' !in CsvLines(columns, rows)[i]
              && ParseRecord(CsvLines(columns, rows)[i]) == ExpectedTable(columns, rows)[i]
  {
    var lines := CsvLines(columns, rows);
    var hs := HeaderCells(columns);
    ParseEncodedRecord(hs, hs);
    JoinChars(hs, ',', '\n');
    forall i | 0 <= i < |lines|
      ensures '\n' !in lines[i] && ParseRecord(lines[i]) == ExpectedTable(columns, rows)[i]
    {
      if i > 0 {
        RowLine(columns, rows[i - 1]);
      }
    }
  }

  /** A text that splits into the given lines parses into those lines' records. */
  lemma ParseLines(text: string, lines: seq<string>, expected: seq<seq<string>>)
    requires SplitLines(text) == lines && |lines| == |expected|
    requires forall i :: 0 <= i < |lines| ==> ParseRecord(lines[i]) == expected[i]
    ensures ParseCsv(text) == expected
  {
  }
}
