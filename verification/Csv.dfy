/**
 * The two CSV printers, each against a parser of what it prints: report exports
 * against the grammar of section 2 of RFC 4180, and seed rows against the CSV
 * form of COPY with the null string \N.
 */
module Csv {
  import opened Options

  const BOM: char := '\U{FEFF}'
  const CRLF := "\r\n"

  /** A value as its text; none is null or undefined. */
  type Cell = Option<string>

  // ----- printing

  predicate Special(c: char) {
    c == '"' || c == ',' || c == '\n' || c == '\r'
  }

  /** Every quote doubled. */
  function Doubled(text: string): string {
    if text == "" then ""
    else (if text[0] == '"' then "\"\"" else [text[0]]) + Doubled(text[1..])
  }

  function Quoted(text: string): string {
    "\"" + Doubled(text) + "\""
  }

  function Join(parts: seq<string>, separator: string): string {
    if |parts| == 0 then ""
    else if |parts| == 1 then parts[0]
    else parts[0] + separator + Join(parts[1..], separator)
  }

  /** An exported cell prints null as nothing. */
  function Text(cell: Cell): string {
    if cell.Some? then cell.value else ""
  }

  function CsvCell(cell: Cell): string {
    var text := Text(cell);
    if exists i :: 0 <= i < |text| && Special(text[i]) then Quoted(text) else text
  }

  function CsvRow(row: seq<Cell>): string {
    Join(seq(|row|, i requires 0 <= i < |row| => CsvCell(row[i])), ",")
  }

  function CsvRows(rows: seq<seq<Cell>>): string {
    Join(seq(|rows|, i requires 0 <= i < |rows| => CsvRow(rows[i])), CRLF)
  }

  function ToCsv(headers: seq<string>, rows: seq<seq<Cell>>): string {
    [BOM] + CsvRows([HeaderRow(headers)] + rows)
  }

  function HeaderRow(headers: seq<string>): (row: seq<Cell>)
    ensures |row| == |headers|
  {
    seq(|headers|, i requires 0 <= i < |headers| => Some(headers[i]))
  }

  /** A value of a COPY row: null is bare, everything else is quoted. */
  function CopyValue(cell: Cell): string {
    if cell.None? then "\\N" else Quoted(cell.value)
  }

  function CopyRow(row: seq<Cell>): string {
    Join(seq(|row|, i requires 0 <= i < |row| => CopyValue(row[i])), ",") + "\n"
  }

  /** What is written to the COPY stream, row by row. */
  function CopyRows(rows: seq<seq<Cell>>): string {
    if rows == [] then "" else CopyRow(rows[0]) + CopyRows(rows[1..])
  }

  /** The rows are written to the stream one after the other. */
  method CopyInto(rows: seq<seq<Cell>>) returns (stream: string)
    ensures stream == CopyRows(rows)
  {
    stream := "";
    for i := 0 to |rows|
      invariant stream + CopyRows(rows[i..]) == CopyRows(rows)
    {
      hide CopyRow;
      assert rows[i..][0] == rows[i] && rows[i..][1..] == rows[i + 1..];
      stream := stream + CopyRow(rows[i]);
    }
  }

  // ----- parsing

  datatype Parsed<T> = Parsed(value: T, rest: string)

  /** Text up to the next character that cannot stand bare. */
  function ParseBare(s: string): (p: Parsed<string>)
    ensures |p.rest| <= |s|
  {
    if s == "" || Special(s[0]) then Parsed("", s)
    else
      var p := ParseBare(s[1..]);
      Parsed([s[0]] + p.value, p.rest)
  }

  /** Text up to the closing quote; a doubled quote is one quote. */
  function ParseQuoted(s: string): (p: Option<Parsed<string>>)
    ensures p.Some? ==> |p.value.rest| < |s|
  {
    if s == "" then None
    else if s[0] == '"' && (|s| == 1 || s[1] != '"') then Some(Parsed("", s[1..]))
    else
      var p := ParseQuoted(if s[0] == '"' then s[2..] else s[1..]);
      if p.None? then None else Some(Parsed([s[0]] + p.value.value, p.value.rest))
  }

  function ParseField(s: string): (p: Option<Parsed<string>>)
    ensures p.Some? ==> |p.value.rest| <= |s|
  {
    if s != "" && s[0] == '"' then ParseQuoted(s[1..]) else Some(ParseBare(s))
  }

  function ParseRecord(s: string): (p: Option<Parsed<seq<string>>>)
    ensures p.Some? ==> |p.value.rest| <= |s|
    decreases |s|
  {
    var first := ParseField(s);
    if first.None? then None
    else if first.value.rest == "" || first.value.rest[0] != ',' then Some(Parsed([first.value.value], first.value.rest))
    else
      var others := ParseRecord(first.value.rest[1..]);
      if others.None? then None else Some(Parsed([first.value.value] + others.value.value, others.value.rest))
  }

  /** Records with line breaks between them; with `ending`, the last record may have one too. */
  function ParseFile(s: string, ending: bool): Option<seq<seq<string>>>
    decreases |s|
  {
    var first := ParseRecord(s);
    if first.None? then None
    else
      var rest := first.value.rest;
      if rest == "" then Some([first.value.value])
      else if |rest| < 2 || rest[..2] != "\r\n" then None
      else if ending && |rest| == 2 then Some([first.value.value])
      else
        var others := ParseFile(rest[2..], ending);
        if others.None? then None else Some([first.value.value] + others.value)
  }

  /** A reader that takes the byte order mark off first. */
  function ParseCsv(s: string, ending: bool): Option<seq<seq<string>>> {
    if s == "" || s[0] != '\U{FEFF}' then None else ParseFile(s[1..], ending)
  }

  /** A COPY value: bare text is null when it is the null string, quoted text never is. */
  function ParseCopyValue(s: string): (p: Option<Parsed<Cell>>)
    ensures p.Some? ==> |p.value.rest| <= |s|
  {
    if s != "" && s[0] == '"' then
      var p := ParseQuoted(s[1..]);
      if p.None? then None else Some(Parsed(Some(p.value.value), p.value.rest))
    else
      var p := ParseBare(s);
      Some(Parsed(if p.value == "\\N" then None else Some(p.value), p.rest))
  }

  function ParseCopyRow(s: string): (p: Option<Parsed<seq<Cell>>>)
    ensures p.Some? ==> |p.value.rest| < |s|
    decreases |s|
  {
    var first := ParseCopyValue(s);
    if first.None? || first.value.rest == "" then None
    else if first.value.rest[0] == '\n' then Some(Parsed([first.value.value], first.value.rest[1..]))
    else if first.value.rest[0] != ',' then None
    else
      var others := ParseCopyRow(first.value.rest[1..]);
      if others.None? then None else Some(Parsed([first.value.value] + others.value.value, others.value.rest))
  }

  function ParseCopy(s: string): Option<seq<seq<Cell>>>
    decreases |s|
  {
    if s == "" then Some([])
    else
      var first := ParseCopyRow(s);
      if first.None? then None
      else
        var others := ParseCopy(first.value.rest);
        if others.None? then None else Some([first.value.value] + others.value)
  }

  // ----- cells

  predicate StartsBare(rest: string) {
    rest == "" || rest[0] != '"'
  }

  /** A printed quote, or any other character, is read before the rest. */
  lemma OneQuotedCharacter(c: char, tail: string)
    ensures var p := ParseQuoted(tail);
            ParseQuoted((if c == '"' then "\"\"" else [c]) + tail)
            == if p.None? then None else Some(Parsed([c] + p.value.value, p.value.rest))
  {
    var s := (if c == '"' then "\"\"" else [c]) + tail;
    assert (if c == '"' then s[2..] else s[1..]) == tail;
  }

  lemma ClosingQuote(rest: string)
    requires StartsBare(rest)
    ensures ParseQuoted("\"" + rest) == Some(Parsed("", rest))
  {
    assert ("\"" + rest)[1..] == rest;
  }

  lemma {:induction false} QuotedRoundTrip(text: string, rest: string)
    requires StartsBare(rest)
    ensures ParseQuoted(Doubled(text) + "\"" + rest) == Some(Parsed(text, rest))
  {
    hide ParseQuoted;
    if text == "" {
      ClosingQuote(rest);
      assert Doubled(text) + "\"" + rest == "\"" + rest;
    } else {
      var first, tail := if text[0] == '"' then "\"\"" else [text[0]], Doubled(text[1..]) + "\"" + rest;
      QuotedRoundTrip(text[1..], rest);
      OneQuotedCharacter(text[0], tail);
      assert Doubled(text) + "\"" + rest == first + tail;
      assert text == [text[0]] + text[1..];
    }
  }

  lemma {:induction false} BareRoundTrip(text: string, rest: string)
    requires forall i :: 0 <= i < |text| ==> !Special(text[i])
    requires rest == "" || Special(rest[0])
    ensures ParseBare(text + rest) == Parsed(text, rest)
  {
    if text == "" {
      assert text + rest == rest;
    } else {
      BareRoundTrip(text[1..], rest);
      assert (text + rest)[1..] == text[1..] + rest;
      assert (text + rest)[0] == text[0] && text == [text[0]] + text[1..];
    }
  }

  /** What may follow a printed cell. */
  predicate AfterCell(rest: string) {
    rest == "" || rest[0] == ',' || rest[0] == '\n' || rest[0] == '\r'
  }

  lemma CellRoundTrip(cell: Cell, rest: string)
    requires AfterCell(rest)
    ensures ParseField(CsvCell(cell) + rest) == Some(Parsed(Text(cell), rest))
  {
    hide Doubled;
    hide ParseQuoted;
    hide ParseBare;
    var text := Text(cell);
    if exists i :: 0 <= i < |text| && Special(text[i]) {
      QuotedRoundTrip(text, rest);
      var inside := Doubled(text) + "\"" + rest;
      assert CsvCell(cell) + rest == ['"'] + inside;
      assert (['"'] + inside)[1..] == inside;
    } else {
      BareRoundTrip(text, rest);
      assert text != "" ==> !Special(text[0]) && (text + rest)[0] == text[0];
      assert text == "" ==> text + rest == rest;
    }
  }

  /** Null and text stay apart, whatever the text is: also when it is the null string itself. */
  lemma CopyValueRoundTrip(cell: Cell, rest: string)
    requires AfterCell(rest)
    ensures ParseCopyValue(CopyValue(cell) + rest) == Some(Parsed(cell, rest))
  {
    if cell.None? {
      NullRoundTrip(rest);
    } else {
      QuotedRoundTrip(cell.value, rest);
      var inside := Doubled(cell.value) + "\"" + rest;
      hide Doubled;
      hide ParseQuoted;
      hide ParseBare;
      assert CopyValue(cell) + rest == ['"'] + inside;
      assert (['"'] + inside)[1..] == inside;
    }
  }

  lemma NullRoundTrip(rest: string)
    requires AfterCell(rest)
    ensures ParseCopyValue("\\N" + rest) == Some(Parsed(None, rest))
  {
    BareRoundTrip("\\N", rest);
    hide ParseBare;
    hide ParseQuoted;
    assert ("\\N" + rest)[0] == '\\';
  }

  // ----- rows

  /** What a printed row reads back as: a row without cells looks like one empty cell. */
  function Texts(row: seq<Cell>): (texts: seq<string>)
    ensures |texts| > 0
  {
    if row == [] then [""] else seq(|row|, i requires 0 <= i < |row| => Text(row[i]))
  }

  lemma CsvRowUnfold(row: seq<Cell>)
    requires row != []
    ensures CsvRow(row) == if |row| == 1 then CsvCell(row[0]) else CsvCell(row[0]) + "," + CsvRow(row[1..])
  {
    var cells := seq(|row|, i requires 0 <= i < |row| => CsvCell(row[i]));
    var others := row[1..];
    assert cells[1..] == seq(|others|, i requires 0 <= i < |others| => CsvCell(others[i]));
  }

  lemma RecordStep(s: string, field: string, after: string, others: seq<string>, rest: string)
    requires ParseField(s) == Some(Parsed(field, after)) && after != "" && after[0] == ','
    requires ParseRecord(after[1..]) == Some(Parsed(others, rest))
    ensures ParseRecord(s) == Some(Parsed([field] + others, rest))
  {
    hide ParseField;
  }

  lemma LastField(s: string, field: string, rest: string)
    requires ParseField(s) == Some(Parsed(field, rest)) && (rest == "" || rest[0] != ',')
    ensures ParseRecord(s) == Some(Parsed([field], rest))
  {
    hide ParseField;
  }

  lemma EmptyRow(rest: string)
    requires rest == "" || rest[0] == '\r'
    ensures ParseRecord(CsvRow([]) + rest) == Some(Parsed([""], rest))
  {
    assert CsvRow([]) + rest == rest;
    assert ParseBare(rest) == Parsed("", rest);
  }

  lemma {:induction false} RowRoundTrip(row: seq<Cell>, rest: string)
    requires rest == "" || rest[0] == '\r'
    ensures ParseRecord(CsvRow(row) + rest) == Some(Parsed(Texts(row), rest))
  {
    hide CsvRow;
    hide CsvCell;
    hide ParseField;
    if row == [] {
      EmptyRow(rest);
    } else {
      CsvRowUnfold(row);
      if |row| == 1 {
        CellRoundTrip(row[0], rest);
        LastField(CsvCell(row[0]) + rest, Text(row[0]), rest);
        assert Texts(row) == [Text(row[0])];
      } else {
        hide ParseRecord;
        var after := "," + (CsvRow(row[1..]) + rest);
        CellRoundTrip(row[0], after);
        RowRoundTrip(row[1..], rest);
        assert after[1..] == CsvRow(row[1..]) + rest;
        assert CsvRow(row) + rest == CsvCell(row[0]) + after;
        RecordStep(CsvCell(row[0]) + after, Text(row[0]), after, Texts(row[1..]), rest);
        assert Texts(row) == [Text(row[0])] + Texts(row[1..]);
      }
    }
  }

  lemma CopyRowUnfold(row: seq<Cell>)
    requires row != []
    ensures CopyRow(row) == CopyValue(row[0]) + (if |row| == 1 then "\n" else "," + CopyRow(row[1..]))
  {
    var values := seq(|row|, i requires 0 <= i < |row| => CopyValue(row[i]));
    var others := row[1..];
    assert values[1..] == seq(|others|, i requires 0 <= i < |others| => CopyValue(others[i]));
  }

  lemma CopyRowStep(s: string, value: Cell, after: string, others: seq<Cell>, rest: string)
    requires ParseCopyValue(s) == Some(Parsed(value, after)) && after != "" && after[0] == ','
    requires ParseCopyRow(after[1..]) == Some(Parsed(others, rest))
    ensures ParseCopyRow(s) == Some(Parsed([value] + others, rest))
  {
    hide ParseCopyValue;
  }

  /** A row without columns writes an empty line, which reads as one empty text. */
  function Filled(row: seq<Cell>): seq<Cell> {
    if row == [] then [Some("")] else row
  }

  lemma EmptyCopyRow(rest: string)
    ensures ParseCopyRow(CopyRow([]) + rest) == Some(Parsed([Some("")], rest))
  {
    var s := CopyRow([]) + rest;
    assert s == "\n" + rest && s[1..] == rest;
    assert ParseBare(s) == Parsed("", s);
  }

  lemma {:induction false} CopyRowRoundTrip(row: seq<Cell>, rest: string)
    ensures ParseCopyRow(CopyRow(row) + rest) == Some(Parsed(Filled(row), rest))
  {
    hide CopyRow;
    hide CopyValue;
    hide ParseCopyValue;
    var s := CopyRow(row) + rest;
    if row == [] {
      EmptyCopyRow(rest);
    } else {
      CopyRowUnfold(row);
      assert row == [row[0]] + row[1..];
      if |row| == 1 {
        var after := "\n" + rest;
        CopyValueRoundTrip(row[0], after);
        assert s == CopyValue(row[0]) + after && after[1..] == rest;
        assert row == [row[0]];
      } else {
        hide ParseCopyRow;
        var after := "," + (CopyRow(row[1..]) + rest);
        CopyValueRoundTrip(row[0], after);
        CopyRowRoundTrip(row[1..], rest);
        assert after[1..] == CopyRow(row[1..]) + rest;
        assert s == CopyValue(row[0]) + after;
        CopyRowStep(s, row[0], after, row[1..], rest);
      }
    }
  }

  // ----- tables

  function TableTexts(rows: seq<seq<Cell>>): (table: seq<seq<string>>)
    ensures |table| == |rows|
  {
    seq(|rows|, i requires 0 <= i < |rows| => Texts(rows[i]))
  }

  lemma CsvRowsUnfold(rows: seq<seq<Cell>>)
    requires |rows| > 1
    ensures CsvRows(rows) == CsvRow(rows[0]) + CRLF + CsvRows(rows[1..])
  {
    var lines := seq(|rows|, i requires 0 <= i < |rows| => CsvRow(rows[i]));
    var others := rows[1..];
    assert lines[1..] == seq(|others|, i requires 0 <= i < |others| => CsvRow(others[i]));
  }

  /** What a reader of printed rows sees: a last row that prints as nothing goes unnoticed where a final line break is allowed. */
  function Read(rows: seq<seq<Cell>>, ending: bool): seq<seq<string>> {
    var table := TableTexts(rows);
    if ending && |table| > 1 && table[|table| - 1] == [""] then table[..|table| - 1] else table
  }

  lemma PrintsNothingExactly(row: seq<Cell>)
    ensures CsvRow(row) == "" <==> Texts(row) == [""]
  {
    if |row| == 1 {
      assert CsvRow(row) == CsvCell(row[0]);
      assert Texts(row)[0] == Text(row[0]);
      assert CsvCell(row[0]) == "" <==> Text(row[0]) == "";
    } else if |row| > 1 {
      CsvRowUnfold(row);
      assert |Texts(row)| == |row|;
    }
  }

  lemma OneRowRead(row: seq<Cell>, ending: bool)
    ensures ParseFile(CsvRows([row]), ending) == Some(Read([row], ending))
  {
    hide CsvRow;
    hide ParseRecord;
    hide Texts;
    RowRoundTrip(row, "");
    assert CsvRows([row]) == CsvRow(row) == CsvRow(row) + "";
    assert Read([row], ending) == [Texts(row)];
  }

  lemma {:induction false} RowsRead(rows: seq<seq<Cell>>, ending: bool)
    requires rows != []
    ensures ParseFile(CsvRows(rows), ending) == Some(Read(rows, ending))
  {
    hide CsvRow;
    hide CsvRows;
    hide Read;
    hide Texts;
    hide ParseFile;
    hide ParseRecord;
    if |rows| == 1 {
      OneRowRead(rows[0], ending);
      assert rows == [rows[0]];
    } else {
      CsvRowsUnfold(rows);
      ReadUnfold(rows, ending);
      var others := CsvRows(rows[1..]);
      RowRoundTrip(rows[0], CRLF + others);
      assert CsvRows(rows) == CsvRow(rows[0]) + (CRLF + others);
      RowsRead(rows[1..], ending);
      FileStep(CsvRows(rows), Texts(rows[0]), others, ending);
    }
  }

  lemma FileStep(s: string, record: seq<string>, others: string, ending: bool)
    requires ParseRecord(s) == Some(Parsed(record, CRLF + others)) && ParseFile(others, ending).Some?
    ensures ParseFile(s, ending) == Some(if ending && others == "" then [record] else [record] + ParseFile(others, ending).value)
  {
    hide ParseRecord;
    var rest := CRLF + others;
    assert rest[..2] == CRLF && rest[2..] == others;
  }

  lemma ReadUnfold(rows: seq<seq<Cell>>, ending: bool)
    requires |rows| > 1
    ensures Read(rows, ending) == if ending && CsvRows(rows[1..]) == "" then [Texts(rows[0])] else [Texts(rows[0])] + Read(rows[1..], ending)
  {
    var table, others := TableTexts(rows), TableTexts(rows[1..]);
    assert table == [Texts(rows[0])] + others;
    assert table[|table| - 1] == others[|others| - 1];
    if |rows| == 2 {
      PrintsNothingExactly(rows[1]);
      assert CsvRows(rows[1..]) == CsvRow(rows[1]);
      assert table[..1] == [Texts(rows[0])];
    } else {
      CsvRowsUnfold(rows[1..]);
      assert |CsvRows(rows[1..])| >= 2;
      assert table[..|table| - 1] == [Texts(rows[0])] + others[..|others| - 1];
    }
  }

  /** The table as text: what a lossless export has to give back. */
  function AsText(rows: seq<seq<Cell>>): (table: seq<seq<string>>)
    ensures |table| == |rows|
  {
    seq(|rows|, i requires 0 <= i < |rows| => seq(|rows[i]|, j requires 0 <= j < |rows[i]| => Text(rows[i][j])))
  }

  predicate NoEmptyRow(rows: seq<seq<Cell>>) {
    forall i :: 0 <= i < |rows| ==> rows[i] != []
  }

  lemma AsTextExactly(rows: seq<seq<Cell>>)
    ensures TableTexts(rows) == AsText(rows) <==> NoEmptyRow(rows)
  {
    forall i | 0 <= i < |rows| ensures TableTexts(rows)[i] == AsText(rows)[i] <==> rows[i] != [] {
      if rows[i] == [] { assert |AsText(rows)[i]| == 0; }
    }
    if NoEmptyRow(rows) {
      assert TableTexts(rows) == AsText(rows);
    } else {
      var i :| 0 <= i < |rows| && rows[i] == [];
      assert TableTexts(rows)[i] != AsText(rows)[i];
    }
  }

  /** The last of several lines holds nothing but one empty cell. */
  predicate EndsBlank(rows: seq<seq<Cell>>) {
    |rows| > 1 && |rows[|rows| - 1]| == 1 && Text(rows[|rows| - 1][0]) == ""
  }

  lemma BlankTexts(row: seq<Cell>)
    ensures Texts(row) == [""] <==> row == [] || (|row| == 1 && Text(row[0]) == "")
  {
    if row != [] { assert Texts(row)[0] == Text(row[0]); }
  }

  lemma ReadIsTextExactly(rows: seq<seq<Cell>>, ending: bool)
    requires rows != []
    ensures Read(rows, ending) == AsText(rows) <==> NoEmptyRow(rows) && !(ending && EndsBlank(rows))
  {
    AsTextExactly(rows);
    var last := rows[|rows| - 1];
    BlankTexts(last);
    assert TableTexts(rows)[|rows| - 1] == Texts(last);
    hide Texts;
    hide Text;
    assert NoEmptyRow(rows) ==> last != [];
  }

  /**
   * An export reads back as the table it was made of, whatever quotes, commas
   * and line breaks its cells hold, exactly when it has no row without cells,
   * and, for a reader that allows the final line break of RFC 4180, when it
   * does not end in a line with one empty cell.
   */
  lemma ExportRoundTripExactly(headers: seq<string>, rows: seq<seq<Cell>>, ending: bool)
    ensures ToCsv(headers, rows)[..1] == "\U{FEFF}"
    ensures ParseCsv(ToCsv(headers, rows), ending) == Some(Original(headers, rows))
            <==> headers != [] && NoEmptyRow(rows) && !(ending && rows != [] && rows[|rows| - 1] in {[None], [Some("")]})
  {
    hide CsvRows;
    hide ParseFile;
    hide Read;
    var table := [HeaderRow(headers)] + rows;
    assert ToCsv(headers, rows)[1..] == CsvRows(table);
    RowsRead(table, ending);
    ReadIsTextExactly(table, ending);
    OriginalText(headers, rows);
    assert NoEmptyRow(table) <==> headers != [] && NoEmptyRow(rows) by {
      assert table[0] == HeaderRow(headers) && forall i :: 0 <= i < |rows| ==> table[i + 1] == rows[i];
    }
    if rows != [] {
      var last := rows[|rows| - 1];
      assert table[|table| - 1] == last;
      assert |last| == 1 && Text(last[0]) == "" <==> last in {[None], [Some("")]} by { BlankRow(last); }
    }
  }

  /** The table as it is to be read back: the headers, and each cell's text, with nothing for null. */
  function Original(headers: seq<string>, rows: seq<seq<Cell>>): seq<seq<string>> {
    [headers] + seq(|rows|, i requires 0 <= i < |rows| =>
                      seq(|rows[i]|, j requires 0 <= j < |rows[i]| => match rows[i][j] case None => "" case Some(text) => text))
  }

  lemma OriginalText(headers: seq<string>, rows: seq<seq<Cell>>)
    ensures AsText([HeaderRow(headers)] + rows) == Original(headers, rows)
  {
    var table := [HeaderRow(headers)] + rows;
    forall i | 0 <= i < |table| ensures AsText(table)[i] == Original(headers, rows)[i] {
      if i > 0 { assert table[i] == rows[i - 1]; }
    }
  }

  lemma BlankRow(row: seq<Cell>)
    ensures |row| == 1 && Text(row[0]) == "" <==> row in {[None], [Some("")]}
  {
    if |row| == 1 { assert row == [row[0]]; }
  }

  function FilledRows(rows: seq<seq<Cell>>): (filled: seq<seq<Cell>>)
    ensures |filled| == |rows|
    ensures forall i :: 0 <= i < |rows| ==> filled[i] == Filled(rows[i])
  {
    if rows == [] then [] else [Filled(rows[0])] + FilledRows(rows[1..])
  }

  lemma {:induction false} CopyRead(rows: seq<seq<Cell>>)
    ensures ParseCopy(CopyRows(rows)) == Some(FilledRows(rows))
  {
    if rows != [] {
      hide CopyRow;
      hide ParseCopyRow;
      hide Filled;
      CopyRowRoundTrip(rows[0], CopyRows(rows[1..]));
      CopyRead(rows[1..]);
    }
  }

  /** A COPY stream gives back every row, telling null from every text, exactly when no row is without columns. */
  lemma CopyRoundTripExactly(rows: seq<seq<Cell>>)
    ensures ParseCopy(CopyRows(rows)) == Some(rows) <==> NoEmptyRow(rows)
  {
    CopyRead(rows);
    hide CopyRows;
    hide ParseCopy;
    var read := FilledRows(rows);
    if NoEmptyRow(rows) {
      assert read == rows;
    } else {
      var i :| 0 <= i < |rows| && rows[i] == [];
      assert read[i] == Filled(rows[i]);
    }
  }
}
