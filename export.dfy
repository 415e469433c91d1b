/** Data export (src/lib/hooks/use-export.ts): a mutation that picks a file
    name and dispatches on the requested format, and the CSV writer, which
    prints a header line of the first row's keys and then one line per row,
    commas between fields and newlines between lines, with no quoting.

    The file download itself (a Blob, an object URL and a clicked link) is
    the boundary of the model: the CSV export ends in a `Download` value
    naming the content, the file name and the media type. */
module Export {
  import opened Basics

  /** One property of a row: its key and its printed value, where `None`
      stands for `null` or `undefined`. */
  datatype Field = Field(key: string, value: Option<string>)

  /** A row object; its fields are in `Object.keys` order. */
  type Row = seq<Field>

  /** `Object.keys(row)`. */
  function Keys(row: Row): (keys: seq<string>)
    ensures |keys| == |row| && forall k :: 0 <= k < |row| ==> keys[k] == row[k].key
  {
    if |row| == 0 then [] else [row[0].key] + Keys(row[1..])
  }

  /** `row[header]` as `join` prints it: `null`, `undefined` and a missing
      key all print as the empty string. */
  function Cell(row: Row, header: string): (r: string)
    ensures (forall k :: 0 <= k < |row| ==> row[k].key != header) ==> r == ""
  {
    if |row| == 0 then ""
    else if row[0].key == header then (if row[0].value.Some? then row[0].value.value else "")
    else Cell(row[1..], header)
  }

  /** `headers.map(header => row[header]).join(',')`. */
  function RowLine(row: Row, headers: seq<string>): string
  {
    Join(Cells(row, headers), ',')
  }

  function Cells(row: Row, headers: seq<string>): (cells: seq<string>)
    ensures |cells| == |headers| && forall k :: 0 <= k < |headers| ==> cells[k] == Cell(row, headers[k])
  {
    seq(|headers|, k requires 0 <= k < |headers| => Cell(row, headers[k]))
  }

  /** The lines of the CSV text: the header line, then one line per row. */
  function CsvLines(data: seq<Row>): (lines: seq<string>)
    requires |data| > 0
    ensures |lines| == |data| + 1
  {
    var headers := Keys(data[0]);
    [Join(headers, ',')] + seq(|data|, i requires 0 <= i < |data| => RowLine(data[i], headers))
  }

  /** A file handed to the browser to save. */
  datatype Download = Download(content: string, fileName: string, mimeType: string)

  datatype ExportError =
    | NoRows                  // `Object.keys(undefined)` throws on an empty list
    | NotAFunction            // calling a string throws a TypeError
    | Unsupported(message: string)

  /** `exportToCsv(data, filename)`. */
  function ExportToCsv(data: seq<Row>, fileName: string): (r: Result<Download, ExportError>)
    ensures r.Err? <==> |data| == 0
    ensures r.Err? ==> r.error == NoRows
    ensures r.Ok? ==> r.value == Download(Join(CsvLines(data), '\n'), fileName + ".csv", "text/csv")
  {
    if |data| == 0 then Err(NoRows)
    else Ok(Download(Join(CsvLines(data), '\n'), fileName + ".csv", "text/csv"))
  }

  /** What one run of the mutation achieved when it did not throw. */
  datatype Outcome = Downloaded(file: Download) | NothingExported

  /** The name used when the caller gives none: `export-<format>-<date>`,
      where the date is today's as `yyyy-MM-dd`, a parameter here. */
  function DefaultFileName(format: string, today: string): string
  {
    "export-" + format + "-" + today
  }

  /** `filename || defaultFilename`: an absent or empty name falls back. */
  function FinalFileName(fileName: Option<string>, format: string, today: string): (name: string)
    ensures fileName.Some? && fileName.value != "" ==> name == fileName.value
    ensures fileName.None? || fileName.value == "" ==> name == DefaultFileName(format, today)
  {
    if fileName.Some? && fileName.value != "" then fileName.value else DefaultFileName(format, today)
  }

  /** The mutation as written: the destructured `format` string hides the
      date formatting function, so building the default name calls a string
      and throws before the format is looked at. */
  function ExportMutationAsWritten(data: seq<Row>, format: string, fileName: Option<string>, today: string): (r: Result<Outcome, ExportError>)
    ensures r.Err? && r.error == NotAFunction
  {
    Err(NotAFunction)
  }

  /** The mutation with the date formatted by the date library, as the
      import intends: CSV is written and downloaded, Excel and PDF are not
      implemented and export nothing, any other format is refused. */
  function ExportMutation(data: seq<Row>, format: string, fileName: Option<string>, today: string): (r: Result<Outcome, ExportError>)
    ensures r.Err? <==> (format == "csv" && |data| == 0) || (format != "csv" && format != "excel" && format != "pdf")
    ensures r.Ok? && r.value.Downloaded? ==>
      format == "csv" && r.value.file.fileName == FinalFileName(fileName, format, today) + ".csv" && r.value.file.mimeType == "text/csv"
    ensures r.Ok? && r.value.NothingExported? ==> format == "excel" || format == "pdf"
  {
    var name := FinalFileName(fileName, format, today);
    if format == "csv" then
      match ExportToCsv(data, name)
      case Ok(file) => Ok(Downloaded(file))
      case Err(e) => Err(e)
    else if format == "excel" || format == "pdf" then Ok(NothingExported)
    else Err(Unsupported("Unsupported export format: " + format))
  }

  // ---------------------------------------------------------------------
  // Lemmas: the CSV text

  /** `row[header]` finds the first field with that key and prints its
      value, or nothing for `null`. */
  lemma {:induction false} CellFindsKey(row: Row, k: nat)
    requires k < |row| && forall j :: 0 <= j < k ==> row[j].key != row[k].key
    ensures Cell(row, row[k].key) == if row[k].value.Some? then row[k].value.value else ""
  {
    if k > 0 {
      CellFindsKey(row[1..], k - 1);
    }
  }

  /** The first line is the first row's keys joined by commas, and the line
      of row i lists that row's values in the order of those keys. */
  lemma CsvLayout(data: seq<Row>, i: nat)
    requires |data| > 0 && i < |data|
    ensures CsvLines(data)[0] == Join(Keys(data[0]), ',')
    ensures CsvLines(data)[i + 1] == Join(Cells(data[i], Keys(data[0])), ',')
  {
  }

  /** With no newline in any key or value, splitting the CSV text at
      newlines gives back the header line and one line per row: the text
      has exactly |data| + 1 lines and no trailing newline. */
  lemma CsvLineRoundTrip(data: seq<Row>)
    requires |data| > 0
    requires forall i, k :: 0 <= i < |data| && 0 <= k < |data[i]| ==> '\n' !in data[i][k].key
    requires forall i, k :: 0 <= i < |data| && 0 <= k < |data[i]| && data[i][k].value.Some? ==> '\n' !in data[i][k].value.value
    ensures Split(Join(CsvLines(data), '\n'), '\n') == CsvLines(data)
  {
    var lines := CsvLines(data);
    var headers := Keys(data[0]);
    forall i | 0 <= i < |lines| ensures '\n' !in lines[i] {
      if i == 0 {
        JoinKeeps(headers, ',', '\n');
      } else {
        var row := data[i - 1];
        forall k | 0 <= k < |headers| ensures '\n' !in Cell(row, headers[k]) {
          CellFrom(row, headers[k], '\n');
        }
        JoinKeeps(Cells(row, headers), ',', '\n');
      }
    }
    SplitJoin(lines, '\n');
  }

  /** A printed cell contains a character only if some value of the row
      does. */
  lemma {:induction false} CellFrom(row: Row, header: string, c: char)
    requires forall k :: 0 <= k < |row| && row[k].value.Some? ==> c !in row[k].value.value
    ensures c !in Cell(row, header)
  {
    if |row| > 0 && row[0].key != header {
      CellFrom(row[1..], header, c);
    }
  }

  /** Joining with another separator adds no new character `c`. */
  lemma {:induction false} JoinKeeps(parts: seq<string>, sep: char, c: char)
    requires sep != c && forall k :: 0 <= k < |parts| ==> c !in parts[k]
    ensures c !in Join(parts, sep)
  {
    if |parts| > 1 {
      JoinKeeps(parts[1..], sep, c);
    }
  }

  /** With no comma in the keys or values, each line splits at commas into
      exactly one field per header: the fields of row i are its values in
      header order. */
  lemma CsvFieldRoundTrip(data: seq<Row>, i: nat)
    requires |data| > 0 && i < |data|
    requires |data[0]| > 0
    requires forall k :: 0 <= k < |data[0]| ==> ',' !in data[0][k].key
    requires forall k :: 0 <= k < |data[i]| && data[i][k].value.Some? ==> ',' !in data[i][k].value.value
    ensures Split(CsvLines(data)[0], ',') == Keys(data[0])
    ensures Split(CsvLines(data)[i + 1], ',') == Cells(data[i], Keys(data[0]))
  {
    var headers := Keys(data[0]);
    SplitJoin(headers, ',');
    forall k | 0 <= k < |headers| ensures ',' !in Cell(data[i], headers[k]) {
      CellFrom(data[i], headers[k], ',');
    }
    SplitJoin(Cells(data[i], headers), ',');
  }

  /** Nothing is quoted: a value holding a comma adds a field to its line,
      so the line no longer matches the header. */
  lemma CommaInValueShiftsFields()
    ensures var data := [[Field("name", Some("Doe, Jane"))]];
      |Split(CsvLines(data)[0], ',')| == 1 && |Split(CsvLines(data)[1], ',')| == 2
  {
    var data := [[Field("name", Some("Doe, Jane"))]];
    SplitNone("name", ',');
    assert Cells(data[0], ["name"]) == ["Doe, Jane"];
    assert CsvLines(data)[1] == "Doe" + [','] + " Jane";
    SplitCons("Doe", ',', " Jane");
    SplitNone(" Jane", ',');
  }

  // ---------------------------------------------------------------------
  // Lemmas: the mutation

  /** The dispatch of the intended mutation: a CSV export of a non-empty
      list downloads `<name>.csv` as `text/csv` holding the CSV lines; an
      empty list fails; Excel and PDF export nothing; every other format is
      refused with its name in the message. */
  lemma MutationOutcomes(data: seq<Row>, format: string, fileName: Option<string>, today: string)
    ensures var r, name := ExportMutation(data, format, fileName, today), FinalFileName(fileName, format, today);
      (format == "csv" && |data| > 0 ==>
         r == Ok(Downloaded(Download(Join(CsvLines(data), '\n'), name + ".csv", "text/csv")))) &&
      (format == "csv" && |data| == 0 ==> r == Err(NoRows)) &&
      (format == "excel" || format == "pdf" ==> r == Ok(NothingExported)) &&
      (format != "csv" && format != "excel" && format != "pdf" ==>
         r == Err(Unsupported("Unsupported export format: " + format)))
  {
  }

  /** With no name given, a CSV export of today's data is saved as
      `export-csv-<date>.csv`. */
  lemma DefaultCsvName(data: seq<Row>, today: string)
    requires |data| > 0
    ensures ExportMutation(data, "csv", None, today).Ok?
    ensures ExportMutation(data, "csv", None, today).value.file.fileName == "export-csv-" + today + ".csv"
    ensures ExportMutation(data, "csv", Some(""), today) == ExportMutation(data, "csv", None, today)
  {
  }

  /** As written, every call throws before any export, whatever the data,
      format or name, so the "Unsupported export format" branch is never
      reached; the intended mutation downloads a CSV file for the same
      input. */
  lemma ShadowedFormatNeverExports(data: seq<Row>, format: string, fileName: Option<string>, today: string)
    ensures ExportMutationAsWritten(data, format, fileName, today) == Err(NotAFunction)
    ensures format == "csv" && |data| > 0 ==>
      ExportMutationAsWritten(data, format, fileName, today) != ExportMutation(data, format, fileName, today)
  {
  }
}
