/** The CSV reader behind payment imports (src/payments/payment-import.csv.ts). */
module PaymentImportCsv {

  datatype Parsed = Rows(rows: seq<seq<string>>) | UnclosedQuote

  /** What the reader's loop carries from one character to the next. */
  datatype Scan = Scan(rows: seq<seq<string>>, row: seq<string>, field: string, quoted: bool)

  const START := Scan([], [], "", false)

  predicate HasContent(row: seq<string>) {
    exists i | 0 <= i < |row| :: row[i] != ""
  }

  /** Rows without a non-empty field are dropped. */
  function KeepRow(rows: seq<seq<string>>, row: seq<string>): seq<seq<string>> {
    if HasContent(row) then rows + [row] else rows
  }

  function EndField(s: Scan): Scan {
    s.(row := s.row + [s.field], field := "")
  }

  function EndRow(s: Scan): Scan {
    Scan(KeepRow(s.rows, s.row + [s.field]), [], "", s.quoted)
  }

  predicate Follows(input: string, c: char) {
    |input| > 1 && input[1] == c
  }

  /** The reader's state after consuming all of `input`. */
  function Consume(input: string, s: Scan): Scan
    decreases |input|
  {
    if input == "" then s
    else
      var c := input[0];
      if s.quoted then
        if c == '"' && Follows(input, '"') then Consume(input[2..], s.(field := s.field + "\""))
        else if c == '"' then Consume(input[1..], s.(quoted := false))
        else Consume(input[1..], s.(field := s.field + [c]))
      else if c == '"' && s.field == "" then Consume(input[1..], s.(quoted := true))
      else if c == ',' then Consume(input[1..], EndField(s))
      else if c == '\n' || c == '\r' then
        Consume(input[if c == '\r' && Follows(input, '\n') then 2 else 1..], EndRow(s))
      else Consume(input[1..], s.(field := s.field + [c]))
  }

  function Finish(s: Scan): Parsed {
    if s.quoted then UnclosedQuote
    else if s.field != "" || s.row != [] then Rows(EndRow(s).rows)
    else Rows(s.rows)
  }

  function Parse(input: string): Parsed {
    Finish(Consume(input, START))
  }

  method ParseCsv(input: string) returns (r: Parsed)
    ensures r == Parse(input)
  {
    var rows: seq<seq<string>>, row: seq<string>, field := [], [], "";
    var quoted := false;
    var i := 0;
    while i < |input|
      invariant i <= |input|
      invariant Consume(input[i..], Scan(rows, row, field, quoted)) == Consume(input, START)
    {
      var c := input[i];
      assert Follows(input[i..], '"') <==> i + 1 < |input| && input[i + 1] == '"';
      assert Follows(input[i..], '\n') <==> i + 1 < |input| && input[i + 1] == '\n';
      assert input[i..][1..] == input[i + 1..];
      assert i + 1 < |input| ==> input[i..][2..] == input[i + 2..];
      if quoted {
        if c == '"' && i + 1 < |input| && input[i + 1] == '"' {
          field := field + "\"";
          i := i + 1;
        } else if c == '"' {
          quoted := false;
        } else {
          field := field + [c];
        }
      } else if c == '"' && |field| == 0 {
        quoted := true;
      } else if c == ',' {
        row := row + [field];
        field := "";
      } else if c == '\n' || c == '\r' {
        if c == '\r' && i + 1 < |input| && input[i + 1] == '\n' {
          i := i + 1;
        }
        row := row + [field];
        field := "";
        if HasContent(row) {
          rows := rows + [row];
        }
        row := [];
      } else {
        field := field + [c];
      }
      i := i + 1;
    }
    assert input[i..] == "";
    if quoted {
      return UnclosedQuote;
    }
    if |field| > 0 || |row| > 0 {
      row := row + [field];
      if HasContent(row) {
        rows := rows + [row];
      }
    }
    return Rows(rows);
  }
}

/** The two CSV writers: the audit-log export and the analytics export. */
module CsvWriters {
  import opened Wrappers
  import Text

  function Escape(value: string): string {
    if value == "" then ""
    else (if value[0] == '"' then "\"\"" else [value[0]]) + Escape(value[1..])
  }

  function Quote(value: string): string {
    "\"" + Escape(value) + "\""
  }

  predicate LooksLikeFormula(value: string) {
    value != "" && value[0] in "=+-@\t\r"
  }

  /** A value a spreadsheet could evaluate is prefixed with a single quote. */
  function Neutralise(value: string): string {
    if LooksLikeFormula(value) then "'" + value else value
  }

  /** `csvField`; an absent value prints as the empty field, anything else comes already rendered as text. */
  function CsvField(value: Option<string>): string {
    match value
    case None => "\"\""
    case Some(text) => Quote(Neutralise(text))
  }

  /** The value a reader is meant to get back from `CsvField(value)`. */
  function FieldValue(value: Option<string>): string {
    match value
    case None => ""
    case Some(text) => Neutralise(text)
  }

  function Line(fields: seq<string>): string {
    Text.Join(fields, ",")
  }

  function CsvRow(row: seq<Option<string>>): seq<string> {
    seq(|row|, i requires 0 <= i < |row| => CsvField(row[i]))
  }

  function QuoteRow(row: seq<string>): seq<string> {
    seq(|row|, i requires 0 <= i < |row| => Quote(row[i]))
  }

  /** Column names go through `csvField` like any other value. */
  function Header(columns: seq<string>): seq<Option<string>> {
    seq(|columns|, i requires 0 <= i < |columns| => Some(columns[i]))
  }

  const AUDIT_COLUMNS := ["id", "actor", "action", "resource", "before", "after", "ip", "createdAt"]

  /** The audit-log export; the source passes AUDIT_COLUMNS. */
  function ToCsv(columns: seq<string>, data: seq<seq<Option<string>>>): string {
    var header := Line(CsvRow(Header(columns)));
    if data == [] then header + "\n"
    else Text.Join([header] + seq(|data|, i requires 0 <= i < |data| => Line(CsvRow(data[i]))), "\r\n")
  }

  const EXPORT_COLUMNS := ["date", "payment_volume", "settlement_gross", "settlement_net", "fees"]

  /** The analytics export; the source passes EXPORT_COLUMNS and prints them unquoted. */
  function ToExportCsv(columns: seq<string>, rows: seq<seq<string>>): string {
    Text.Join([Line(columns)] + seq(|rows|, i requires 0 <= i < |rows| => Line(QuoteRow(rows[i]))), "\n")
  }
}

/** Reading back what either writer wrote (section 2 of RFC 4180). */
module CsvRoundTrip {
  import opened Wrappers
  import opened PaymentImportCsv
  import opened CsvWriters
  import Text

  /** A value that may stand unquoted. */
  predicate Plain(value: string) {
    && (forall i | 0 <= i < |value| :: value[i] !in ",\n\r")
    && (value == "" || value[0] != '"')
  }

  predicate Prints(text: string, value: string) {
    text == Quote(value) || (text == value && Plain(value))
  }

  predicate RowPrints(texts: seq<string>, values: seq<string>) {
    |texts| == |values| && forall i | 0 <= i < |texts| :: Prints(texts[i], values[i])
  }

  predicate TablePrints(texts: seq<seq<string>>, values: seq<seq<string>>) {
    |texts| == |values| && forall i | 0 <= i < |texts| :: RowPrints(texts[i], values[i])
  }

  function Lines(texts: seq<seq<string>>): seq<string> {
    seq(|texts|, i requires 0 <= i < |texts| => Line(texts[i]))
  }

  function NonBlank(rows: seq<seq<string>>): seq<seq<string>> {
    if rows == [] then [] else KeepRow([], rows[0]) + NonBlank(rows[1..])
  }

  /** Nothing after a closing quote may look like an escaped quote. */
  predicate Boundary(rest: string) {
    rest == "" || rest[0] in ",\n\r"
  }

  lemma ConsumeQuotedChar(c: char, rest: string, s: Scan)
    requires s.quoted
    ensures c != '"' ==> Consume([c] + rest, s) == Consume(rest, s.(field := s.field + [c]))
    ensures c == '"' ==> Consume([c, c] + rest, s) == Consume(rest, s.(field := s.field + [c]))
  {
    if c != '"' {
      assert ([c] + rest)[1..] == rest;
    } else {
      assert ([c, c] + rest)[2..] == rest;
    }
  }

  lemma {:induction false} ConsumeEscaped(value: string, rest: string, s: Scan)
    requires s.quoted
    ensures Consume(Escape(value) + rest, s) == Consume(rest, s.(field := s.field + value))
    decreases |value|
  {
    hide Consume;
    if value == "" {
      assert Escape(value) + rest == rest && s.field + value == s.field;
    } else {
      var c, tail := value[0], value[1..];
      var printed := if c == '"' then [c, c] else [c];
      assert Escape(value) == printed + Escape(tail);
      hide Escape;
      Text.Assoc(printed, Escape(tail), rest);
      ConsumeQuotedChar(c, Escape(tail) + rest, s);
      ConsumeEscaped(tail, rest, s.(field := s.field + [c]));
      Text.Assoc(s.field, [c], tail);
      assert [c] + tail == value;
    }
  }

  lemma {:induction false} ConsumePlain(value: string, rest: string, s: Scan)
    requires !s.quoted && forall i | 0 <= i < |value| :: value[i] !in ",\n\r"
    requires s.field != "" || value == "" || value[0] != '"'
    ensures Consume(value + rest, s) == Consume(rest, s.(field := s.field + value))
    decreases |value|
  {
    if value == "" {
      assert value + rest == rest && s.field + value == s.field;
    } else {
      assert (value + rest)[1..] == value[1..] + rest;
      ConsumePlain(value[1..], rest, s.(field := s.field + [value[0]]));
      assert s.field + [value[0]] + value[1..] == s.field + value;
    }
  }

  lemma ConsumeOpen(rest: string, s: Scan)
    requires !s.quoted && s.field == ""
    ensures Consume("\"" + rest, s) == Consume(rest, s.(quoted := true))
  {
    assert ("\"" + rest)[1..] == rest;
  }

  lemma ConsumeField(text: string, value: string, rest: string, s: Scan)
    requires Prints(text, value) && Boundary(rest) && !s.quoted && s.field == ""
    ensures Consume(text + rest, s) == Consume(rest, s.(field := value))
  {
    if text == Quote(value) {
      var open := s.(quoted := true);
      var tail := "\"" + rest;
      assert (text + rest)[1..] == Escape(value) + tail;
      ConsumeEscaped(value, tail, open);
      assert tail[1..] == rest;
      assert s.field + value == value;
    } else {
      ConsumePlain(value, rest, s);
      assert s.field + value == value;
    }
  }

  lemma ConsumeComma(rest: string, s: Scan)
    requires !s.quoted
    ensures Consume("," + rest, s) == Consume(rest, EndField(s))
  {
    assert ("," + rest)[1..] == rest;
  }

  predicate IsEol(eol: string) {
    eol == "\n" || eol == "\r\n" || eol == "\r"
  }

  /** A line end of one carriage return must not run into a line feed. */
  predicate EndsLine(eol: string, rest: string) {
    eol == "\r" ==> rest == "" || rest[0] != '\n'
  }

  lemma LineStarts(texts: seq<string>, values: seq<string>, rest: string)
    requires RowPrints(texts, values) && (rest == "" || rest[0] != '\n')
    ensures Line(texts) + rest == "" || (Line(texts) + rest)[0] != '\n'
  {
    if texts == [] || (|texts| == 1 && texts[0] == "") {
      assert Line(texts) + rest == rest;
    } else if texts[0] == "" {
      assert Line(texts)[0] == ',';
    } else {
      assert Prints(texts[0], values[0]);
      assert texts[0][0] != '\n';
      assert Line(texts)[0] == texts[0][0];
    }
  }

  lemma {:induction false} ClosedStarts(texts: seq<seq<string>>, values: seq<seq<string>>, eol: string, rest: string)
    requires TablePrints(texts, values) && IsEol(eol) && eol == "\r" && EndsLine(eol, rest)
    ensures EndsLine(eol, Closed(texts, eol) + rest)
  {
    if texts == [] {
      assert Closed(texts, eol) + rest == rest;
    } else {
      var tail := eol + (Closed(texts[1..], eol) + rest);
      Text.Assoc(Line(texts[0]), eol + Closed(texts[1..], eol), rest);
      Text.Assoc(eol, Closed(texts[1..], eol), rest);
      LineStarts(texts[0], values[0], tail);
    }
  }

  lemma ConsumeEol(eol: string, rest: string, s: Scan)
    requires IsEol(eol) && EndsLine(eol, rest) && !s.quoted
    ensures Consume(eol + rest, s) == Consume(rest, EndRow(s))
  {
    assert (eol + rest)[|eol|..] == rest;
  }

  /** The state after a line: every field but the last is in the row. */
  function AfterLine(rows: seq<seq<string>>, row: seq<string>, values: seq<string>): Scan {
    if values == [] then Scan(rows, row, "", false)
    else Scan(rows, row + values[..|values| - 1], values[|values| - 1], false)
  }

  lemma {:induction false} ConsumeLine(
      texts: seq<string>, values: seq<string>, rest: string, rows: seq<seq<string>>, row: seq<string>)
    requires RowPrints(texts, values) && Boundary(rest)
    ensures Consume(Line(texts) + rest, Scan(rows, row, "", false)) == Consume(rest, AfterLine(rows, row, values))
    decreases |texts|
  {
    hide Consume;
    var s := Scan(rows, row, "", false);
    if |texts| == 0 {
      assert Line(texts) + rest == rest;
    } else if |texts| == 1 {
      ConsumeField(texts[0], values[0], rest, s);
      assert row + values[..0] == row;
    } else {
      var next := Line(texts[1..]) + rest;
      assert Line(texts) + rest == texts[0] + ("," + next);
      ConsumeField(texts[0], values[0], "," + next, s);
      ConsumeComma(next, s.(field := values[0]));
      ConsumeLine(texts[1..], values[1..], rest, rows, row + [values[0]]);
      assert row + [values[0]] + values[1..][..|values| - 2] == row + values[..|values| - 1];
    }
  }

  lemma ContentAfterLine(values: seq<string>, rows: seq<seq<string>>)
    ensures EndRow(AfterLine(rows, [], values)) == Scan(KeepRow(rows, values), [], "", false)
  {
    if values != [] {
      assert [] + values[..|values| - 1] + [values[|values| - 1]] == values;
    }
  }

  /** Lines that are each closed by a line end. */
  function Closed(texts: seq<seq<string>>, eol: string): string {
    if texts == [] then "" else Line(texts[0]) + (eol + Closed(texts[1..], eol))
  }

  lemma {:induction false} JoinIsClosed(texts: seq<seq<string>>, last: seq<string>, eol: string)
    ensures Text.Join(Lines(texts + [last]), eol) == Closed(texts, eol) + Line(last)
  {
    var lines := Lines(texts + [last]);
    if texts == [] {
      assert lines == [Line(last)];
    } else {
      assert (texts + [last])[1..] == texts[1..] + [last];
      assert lines[1..] == Lines(texts[1..] + [last]);
      JoinIsClosed(texts[1..], last, eol);
    }
  }

  lemma {:induction false} ConsumeClosed(
      texts: seq<seq<string>>, values: seq<seq<string>>, eol: string, rest: string, rows: seq<seq<string>>)
    requires TablePrints(texts, values) && IsEol(eol) && EndsLine(eol, rest)
    ensures Consume(Closed(texts, eol) + rest, Scan(rows, [], "", false))
         == Consume(rest, Scan(rows + NonBlank(values), [], "", false))
    decreases |texts|
  {
    hide Consume;
    if texts == [] {
      assert Closed(texts, eol) + rest == rest && rows + NonBlank(values) == rows;
    } else {
      var tail := Closed(texts[1..], eol) + rest;
      Text.Assoc(Line(texts[0]), eol + Closed(texts[1..], eol), rest);
      Text.Assoc(eol, Closed(texts[1..], eol), rest);
      assert Closed(texts, eol) + rest == Line(texts[0]) + (eol + tail);
      if eol == "\r" {
        ClosedStarts(texts[1..], values[1..], eol, rest);
      }
      hide Closed;
      ConsumeLine(texts[0], values[0], eol + tail, rows, []);
      ConsumeEol(eol, tail, AfterLine(rows, [], values[0]));
      ContentAfterLine(values[0], rows);
      ConsumeClosed(texts[1..], values[1..], eol, rest, KeepRow(rows, values[0]));
      assert KeepRow(rows, values[0]) == rows + KeepRow([], values[0]);
      Text.Assoc(rows, KeepRow([], values[0]), NonBlank(values[1..]));
    }
  }

  lemma {:induction false} NonBlankAppend(front: seq<seq<string>>, last: seq<string>)
    ensures NonBlank(front + [last]) == KeepRow(NonBlank(front), last)
  {
    if front == [] {
      assert front + [last] == [last] && [last][1..] == [];
    } else {
      assert (front + [last])[1..] == front[1..] + [last];
      NonBlankAppend(front[1..], last);
    }
  }

  /**
   * Parsing undoes printing: whichever fields are quoted, and with each kind of
   * line end, exactly the rows that have a non-empty field come back, in order.
   */
  lemma ParseUndoesPrint(texts: seq<seq<string>>, values: seq<seq<string>>, eol: string)
    requires TablePrints(texts, values) && |texts| >= 1 && IsEol(eol)
    ensures Parse(Text.Join(Lines(texts), eol)) == Rows(NonBlank(values))
  {
    var k := |texts| - 1;
    assert texts == texts[..k] + [texts[k]] && values == values[..k] + [values[k]];
    JoinIsClosed(texts[..k], texts[k], eol);
    LineStarts(texts[k], values[k], "");
    assert Line(texts[k]) + "" == Line(texts[k]);
    ConsumeClosed(texts[..k], values[..k], eol, Line(texts[k]), []);
    var rows := [] + NonBlank(values[..k]);
    assert rows == NonBlank(values[..k]);
    assert Line(texts[k]) + "" == Line(texts[k]);
    ConsumeLine(texts[k], values[k], "", rows, []);
    ContentAfterLine(values[k], rows);
    NonBlankAppend(values[..k], values[k]);
  }

  /** A quoted field that the input never closes is an error, whatever was read before it. */
  lemma UnclosedIsReported(texts: seq<seq<string>>, values: seq<seq<string>>, eol: string, open: string)
    requires TablePrints(texts, values) && IsEol(eol)
    ensures Parse(Closed(texts, eol) + ("\"" + Escape(open))) == UnclosedQuote
  {
    ConsumeClosed(texts, values, eol, "\"" + Escape(open), []);
    var s := Scan([] + NonBlank(values), [], "", false);
    ConsumeOpen(Escape(open), s);
    assert Escape(open) + "" == Escape(open);
    ConsumeEscaped(open, "", s.(quoted := true));
  }

  /** The values a reader is meant to get back from a row. */
  function RowValues(row: seq<Option<string>>): seq<string> {
    seq(|row|, i requires 0 <= i < |row| => FieldValue(row[i]))
  }

  function AllCsvRows(data: seq<seq<Option<string>>>): seq<seq<string>> {
    seq(|data|, i requires 0 <= i < |data| => CsvRow(data[i]))
  }

  function AllRowValues(data: seq<seq<Option<string>>>): seq<seq<string>> {
    seq(|data|, i requires 0 <= i < |data| => RowValues(data[i]))
  }

  function AllQuoted(rows: seq<seq<string>>): seq<seq<string>> {
    seq(|rows|, i requires 0 <= i < |rows| => QuoteRow(rows[i]))
  }

  lemma CsvFieldPrints(value: Option<string>)
    ensures Prints(CsvField(value), FieldValue(value))
  {
    assert Quote("") == "\"\"";
  }

  lemma CsvRowsPrint(data: seq<seq<Option<string>>>)
    ensures TablePrints(AllCsvRows(data), AllRowValues(data))
  {
    forall i, j | 0 <= i < |data| && 0 <= j < |data[i]| ensures Prints(CsvRow(data[i])[j], RowValues(data[i])[j]) {
      CsvFieldPrints(data[i][j]);
    }
    forall i | 0 <= i < |data| ensures RowPrints(CsvRow(data[i]), RowValues(data[i])) {
    }
  }

  lemma AuditText(columns: seq<string>, data: seq<seq<Option<string>>>, body: seq<seq<Option<string>>>)
    requires body == if data == [] then [[]] else data
    ensures ToCsv(columns, data) ==
      Text.Join(Lines(AllCsvRows([Header(columns)] + body)), if data == [] then "\n" else "\r\n")
  {
    var header := Line(CsvRow(Header(columns)));
    var lines := Lines(AllCsvRows([Header(columns)] + body));
    if data == [] {
      assert lines == [header, ""];
    } else {
      assert lines == [header] + seq(|data|, i requires 0 <= i < |data| => Line(CsvRow(data[i])));
    }
  }

  /** The audit-log export reads back as its header and rows, up to the formula prefix. */
  lemma AuditExportReadsBack(columns: seq<string>, data: seq<seq<Option<string>>>)
    requires HasContent(columns)
    ensures Parse(ToCsv(columns, data)) == Rows([RowValues(Header(columns))] + NonBlank(AllRowValues(data)))
  {
    var body := if data == [] then [[]] else data;
    var table := [Header(columns)] + body;
    AuditText(columns, data, body);
    CsvRowsPrint(table);
    ParseUndoesPrint(AllCsvRows(table), AllRowValues(table), if data == [] then "\n" else "\r\n");
    assert AllRowValues(table) == [RowValues(Header(columns))] + AllRowValues(body);
    HeaderKept(columns, AllRowValues(body));
    BlankBody(body);
  }

  lemma BlankBody(body: seq<seq<Option<string>>>)
    ensures body == [[]] ==> NonBlank(AllRowValues(body)) == NonBlank(AllRowValues([]))
  {
    if body == [[]] {
      assert AllRowValues(body)[0] == [] && AllRowValues(body)[1..] == [];
    }
  }

  lemma HeaderKept(columns: seq<string>, body: seq<seq<string>>)
    requires HasContent(columns)
    ensures NonBlank([RowValues(Header(columns))] + body) == [RowValues(Header(columns))] + NonBlank(body)
    ensures NonBlank([columns] + body) == [columns] + NonBlank(body)
  {
    var i :| 0 <= i < |columns| && columns[i] != "";
    assert RowValues(Header(columns))[i] == Neutralise(columns[i]) != "";
    assert ([RowValues(Header(columns))] + body)[1..] == body;
    assert ([columns] + body)[1..] == body;
  }

  /** The characters a spreadsheet takes for the start of a formula. */
  predicate StartsFormula(c: char) {
    c == '=' || c == '+' || c == '-' || c == '@' || c == '\t' || c == '\r'
  }

  /**
   * No cell of the export starts a formula; it is the value itself unless that
   * would, and then the value after a single quote.
   */
  lemma NoCellIsFormula(value: Option<string>)
    ensures FieldValue(value) == "" || !StartsFormula(FieldValue(value)[0])
    ensures value.Some? ==>
      FieldValue(value) ==
        if value.value != "" && StartsFormula(value.value[0]) then "'" + value.value else value.value
    ensures Prints(CsvField(value), FieldValue(value))
  {
    CsvFieldPrints(value);
  }

  lemma AuditColumnsPrintAsThemselves()
    ensures RowValues(Header(AUDIT_COLUMNS)) == AUDIT_COLUMNS && HasContent(AUDIT_COLUMNS)
  {
    assert AUDIT_COLUMNS[0] != "";
  }

  lemma {:induction false} NothingBlank(rows: seq<seq<string>>)
    requires forall i | 0 <= i < |rows| :: HasContent(rows[i])
    ensures NonBlank(rows) == rows
  {
    if rows != [] {
      NothingBlank(rows[1..]);
    }
  }

  /** The file itself: its own column names, and every row, since a log has an identifier. */
  lemma AuditFileReadsBack(data: seq<seq<Option<string>>>)
    requires forall i | 0 <= i < |data| :: HasContent(RowValues(data[i]))
    ensures Parse(ToCsv(AUDIT_COLUMNS, data)) == Rows([AUDIT_COLUMNS] + AllRowValues(data))
  {
    AuditColumnsPrintAsThemselves();
    hide Parse, ToCsv, AUDIT_COLUMNS;
    AuditExportReadsBack(AUDIT_COLUMNS, data);
    NothingBlank(AllRowValues(data));
  }

  /** The analytics export reads back exactly. */
  lemma AnalyticsExportReadsBack(columns: seq<string>, rows: seq<seq<string>>)
    requires HasContent(columns) && forall i | 0 <= i < |columns| :: Plain(columns[i])
    ensures Parse(ToExportCsv(columns, rows)) == Rows([columns] + NonBlank(rows))
  {
    var texts := [columns] + AllQuoted(rows);
    assert RowPrints(columns, columns);
    forall i | 0 <= i < |rows| ensures RowPrints(QuoteRow(rows[i]), rows[i]) {
    }
    assert Lines(texts) == [Line(columns)] + seq(|rows|, i requires 0 <= i < |rows| => Line(QuoteRow(rows[i])));
    ParseUndoesPrint(texts, [columns] + rows, "\n");
    HeaderKept(columns, rows);
  }

  lemma ExportColumnsArePlain()
    ensures HasContent(EXPORT_COLUMNS) && forall i | 0 <= i < |EXPORT_COLUMNS| :: Plain(EXPORT_COLUMNS[i])
  {
    assert EXPORT_COLUMNS[0] != "";
  }

  /** The file itself: its own column names, and every row, since a point has a date. */
  lemma ExportFileReadsBack(rows: seq<seq<string>>)
    requires forall i | 0 <= i < |rows| :: HasContent(rows[i])
    ensures Parse(ToExportCsv(EXPORT_COLUMNS, rows)) == Rows([EXPORT_COLUMNS] + rows)
  {
    ExportColumnsArePlain();
    hide Parse, ToExportCsv, EXPORT_COLUMNS;
    AnalyticsExportReadsBack(EXPORT_COLUMNS, rows);
    NothingBlank(rows);
  }

  /** The prefix loses information only between a formula and the same text already prefixed. */
  lemma NeutraliseCollision(a: string, b: string)
    ensures Neutralise(a) == Neutralise(b) <==>
      a == b || (LooksLikeFormula(b) && a == "'" + b) || (LooksLikeFormula(a) && b == "'" + a)
  {
    if LooksLikeFormula(a) && LooksLikeFormula(b) && Neutralise(a) == Neutralise(b) {
      assert a == Neutralise(a)[1..] && b == Neutralise(b)[1..];
    }
  }
}
