/**
 * The insurance section of the patient custom report in a CSV export: a
 * header naming 23 insurance columns, then one row for each of the
 * primary, secondary and tertiary insurances, between BEGIN and END
 * marker lines (interface/patient_file/report/custom_report.php).
 */
module InsuranceCsv {
  import opened Options
  import opened Text
  import Csv

  /** The insurance columns, in the order of the header and of every row. */
  const Columns: seq<string> := [
    "type", "provider", "plan_name", "policy_number", "group_number", "subscriber_fname", "subscriber_mname",
    "subscriber_lname", "subscriber_relationship", "subscriber_ss", "subscriber_DOB", "subscriber_phone",
    "subscriber_street", "subscriber_postal_code", "subscriber_city", "subscriber_state", "subscriber_country",
    "subscriber_employer", "subscriber_employer_street", "subscriber_employer_city", "subscriber_employer_postal_code",
    "subscriber_employer_state", "subscriber_employer_country"
  ]

  /** The insurances written, one row each. */
  const InsuranceTypes: seq<string> := ["primary", "secondary", "tertiary"]

  /** The columns whose caption is spelled out rather than derived from the column name. */
  function SpecialLabel(col: string): Option<string>
  {
    if col == "subscriber_lname" then Some("Subscriber Last Name")
    else if col == "subscriber_mname" then Some("Subscriber Middle Name")
    else if col == "subscriber_fname" then Some("Subscriber First Name")
    else if col == "subscriber_ss" then Some("Subscriber SS")
    else if col == "subscriber_DOB" then Some("Subscriber Date of Birth")
    else if col == "subscriber_street" then Some("Subscriber Address")
    else if col == "subscriber_postal_code" then Some("Subscriber Zip")
    else if col == "subscriber_employer_postal_code" then Some("Subscriber Employer Zip")
    else None
  }

  /** The caption of a column: its spelled-out caption, else its words capitalised with '_' read as a space. */
  function HeaderLabel(col: string): string
  {
    match SpecialLabel(col)
    case Some(caption) => caption
    case None => Humanize(col)
  }

  /** A derived caption is free of '_' and is the column name read case-insensitively with '_' as a space. */
  lemma DerivedLabelShape(col: string)
    requires SpecialLabel(col).None?
    ensures forall i :: 0 <= i < |HeaderLabel(col)| ==> HeaderLabel(col)[i] != '_'
    ensures LowerStr(HeaderLabel(col)) == LowerStr(UnderscoresToSpaces(col))
  {
    HumanizeShape(col);
  }

  /** implode(',', parts) */
  function Implode(parts: seq<string>): string
    decreases |parts|
  {
    if parts == [] then ""
    else if |parts| == 1 then parts[0]
    else Implode(parts[..|parts| - 1]) + "," + parts[|parts| - 1]
  }

  function EscapeAll(cells: seq<string>): (escaped: seq<string>)
    ensures |escaped| == |cells|
    ensures forall i :: 0 <= i < |cells| ==> escaped[i] == Csv.Escape(cells[i])
  {
    seq(|cells|, i requires 0 <= i < |cells| => Csv.Escape(cells[i]))
  }

  /** Escaping every cell and joining with ',' writes the CSV row of the cells. */
  lemma {:induction false} ImplodeEscaped(cells: seq<string>)
    ensures Implode(EscapeAll(cells)) == Csv.Row(cells)
    decreases |cells|
  {
    if cells != [] {
      var init := cells[..|cells| - 1];
      var last := cells[|cells| - 1];
      assert cells == init + [last];
      ImplodeEscaped(init);
      Csv.RowSnoc(init, last);
      assert EscapeAll(cells)[..|cells| - 1] == EscapeAll(init);
      if init == [] {
        assert Csv.Row(init) == "" by {
          assert Csv.QuoteAll(init) == [];
        }
      }
    }
  }

  function Labels(cols: seq<string>): (labels: seq<string>)
    ensures |labels| == |cols|
    ensures forall i :: 0 <= i < |cols| ==> labels[i] == HeaderLabel(cols[i])
  {
    seq(|cols|, i requires 0 <= i < |cols| => HeaderLabel(cols[i]))
  }

  /** Every entry of the array is rewritten in place into its escaped caption. */
  method EscapeCaptions(escaped: array<string>)
    modifies escaped
    ensures escaped[..] == EscapeAll(Labels(old(escaped[..])))
  {
    ghost var names := escaped[..];
    ghost var target := EscapeAll(Labels(names));
    var col := 0;
    while col < escaped.Length
      invariant 0 <= col <= escaped.Length == |names|
      invariant forall j :: 0 <= j < col ==> escaped[j] == target[j]
      invariant forall j :: col <= j < escaped.Length ==> escaped[j] == names[j]
    {
      var caption := Csv.Escape(HeaderLabel(escaped[col]));
      escaped[col] := caption;
      col := col + 1;
    }
    assert escaped[..] == target;
  }

  /** The header: the column list copied into an array, rewritten in place, joined with ','. */
  method HeaderLine(columns: seq<string>) returns (line: string)
    ensures line == Csv.Row(Labels(columns)) + "\n"
  {
    var escaped := new string[|columns|](i requires 0 <= i < |columns| => columns[i]);
    assert escaped[..] == columns;
    EscapeCaptions(escaped);
    ImplodeEscaped(Labels(columns));
    line := Implode(escaped[..]) + "\n";
  }

  /**
   * The value written for a column of one insurance: the insurance type
   * capitalised for "type", the provider's name for "provider", the
   * record's value where it has one and "" where it has none.
   */
  function CellValue(insType: string, record: map<string, string>, col: string): string
  {
    var key := if col == "provider" then "provider_name" else col;
    if key == "type" then UcWords(insType)
    else if key in record then record[key]
    else ""
  }

  function RowCells(insType: string, record: map<string, string>, columns: seq<string>): (cells: seq<string>)
    ensures |cells| == |columns|
    ensures forall i :: 0 <= i < |columns| ==> cells[i] == CellValue(insType, record, columns[i])
  {
    seq(|columns|, i requires 0 <= i < |columns| => CellValue(insType, record, columns[i]))
  }

  /** The text the loop writes for one column, a literal empty quoted cell when the value is missing. */
  method CellText(insType: string, record: map<string, string>, col: string) returns (t: string)
    ensures t == Csv.Escape(CellValue(insType, record, col))
  {
    var key := if col == "provider" then "provider_name" else col;
    if key == "type" {
      t := Csv.Escape(UcWords(insType));
    } else if key in record {
      t := Csv.Escape(record[key]);
    } else {
      assert Csv.Escape("") == "\"\"";
      t := "\"\"";
    }
  }

  /** The loop's step: a separator unless the row is still empty, then the escaped cell. */
  method AppendCell(fields: string, cell: string, ghost cells: seq<string>, ghost i: nat) returns (out: string)
    requires i < |cells| && fields == Csv.Row(cells[..i]) && (fields == "" <==> i == 0)
    requires cell == Csv.Escape(cells[i])
    ensures out == Csv.Row(cells[..i + 1]) && out != ""
  {
    assert cells[..i + 1] == cells[..i] + [cells[i]];
    Csv.RowSnoc(cells[..i], cells[i]);
    out := fields;
    if out != "" {
      out := out + ",";
    }
    out := out + cell;
  }

  /** One insurance row: the cells joined with ',' as the loop writes them. */
  method InsuranceRow(insType: string, record: map<string, string>, columns: seq<string>) returns (line: string)
    ensures line == Csv.Row(RowCells(insType, record, columns)) + "\n"
  {
    ghost var cells := RowCells(insType, record, columns);
    var fields := "";
    var i := 0;
    while i < |columns|
      invariant 0 <= i <= |columns|
      invariant fields == Csv.Row(cells[..i])
      invariant fields == "" <==> i == 0
    {
      var cell := CellText(insType, record, columns[i]);
      fields := AppendCell(fields, cell, cells, i);
      i := i + 1;
    }
    assert cells[..i] == cells;
    line := fields + "\n";
  }

  const BeginLine: string := Csv.Escape("<BEGIN Insurance Data>") + "\n"
  const EndLine: string := Csv.Escape("<END Insurance Data>") + "\n"

  function RowLine(columns: seq<string>, insType: string, fetch: string -> map<string, string>): string
  {
    Csv.Row(RowCells(insType, fetch(insType), columns)) + "\n"
  }

  /** The rows of the given insurance types, one line each, in order. */
  function RowLines(columns: seq<string>, types: seq<string>, fetch: string -> map<string, string>): (lines: seq<string>)
    ensures |lines| == |types|
    ensures forall t :: 0 <= t < |types| ==> lines[t] == RowLine(columns, types[t], fetch)
  {
    seq(|types|, t requires 0 <= t < |types| => RowLine(columns, types[t], fetch))
  }

  lemma RowLinesStep(columns: seq<string>, types: seq<string>, t: nat, fetch: string -> map<string, string>)
    requires t < |types|
    ensures RowLines(columns, types[..t + 1], fetch) == RowLines(columns, types[..t], fetch) + [RowLine(columns, types[t], fetch)]
  {
    assert RowLines(columns, types[..t + 1], fetch)[..t] == RowLines(columns, types[..t], fetch);
  }

  /** A section with the given columns and insurance types. */
  function Section(columns: seq<string>, types: seq<string>, fetch: string -> map<string, string>): string
  {
    BeginLine + Csv.Row(Labels(columns)) + "\n" + Concat(RowLines(columns, types, fetch)) + EndLine
  }

  /** The whole section; `fetch` is the insurance lookup by type, a database read not part of this model. */
  function InsuranceSection(fetch: string -> map<string, string>): string
  {
    Section(Columns, InsuranceTypes, fetch)
  }

  /** The rows, one insurance type after another. */
  method WriteRows(columns: seq<string>, types: seq<string>, fetch: string -> map<string, string>, out0: string) returns (out: string)
    ensures out == out0 + Concat(RowLines(columns, types, fetch))
  {
    out := out0;
    var t := 0;
    while t < |types|
      invariant 0 <= t <= |types|
      invariant out == out0 + Concat(RowLines(columns, types[..t], fetch))
    {
      var row := InsuranceRow(types[t], fetch(types[t]), columns);
      RowLinesStep(columns, types, t, fetch);
      ConcatExtend(out0, RowLines(columns, types[..t], fetch), [row], out);
      ConcatOne(row);
      out := out + row;
      t := t + 1;
    }
    assert types[..t] == types;
  }

  method WriteSection(columns: seq<string>, types: seq<string>, fetch: string -> map<string, string>) returns (out: string)
    ensures out == Section(columns, types, fetch)
  {
    var header := HeaderLine(columns);
    AppendAssoc(BeginLine, Csv.Row(Labels(columns)), "\n");
    out := WriteRows(columns, types, fetch, BeginLine + header);
    out := out + EndLine;
  }

  method InsuranceCsvSection(fetch: string -> map<string, string>) returns (out: string)
    ensures out == InsuranceSection(fetch)
  {
    out := WriteSection(Columns, InsuranceTypes, fetch);
  }

  /**
   * Three insurance types give exactly their three rows, in order: the
   * section holds the primary, secondary and tertiary rows.
   */
  lemma ThreeRows(columns: seq<string>, ts: seq<string>, fetch: string -> map<string, string>)
    requires |ts| == 3
    ensures Concat(RowLines(columns, ts, fetch)) ==
      RowLine(columns, ts[0], fetch) + RowLine(columns, ts[1], fetch) + RowLine(columns, ts[2], fetch)
  {
    var a, b, c := RowLine(columns, ts[0], fetch), RowLine(columns, ts[1], fetch), RowLine(columns, ts[2], fetch);
    assert RowLines(columns, ts, fetch) == [a, b] + [c];
    ConcatAppend([a, b], [c]);
    ConcatTwo(a, b);
    ConcatOne(c);
  }

  lemma ColumnFacts()
    ensures |Columns| == 23 && Columns[0] == "type" && Columns[1] == "provider"
    ensures forall i :: 2 <= i < |Columns| ==> Columns[i] != "type" && Columns[i] != "provider"
  {
  }

  /**
   * Every insurance row reads back as exactly one value per column, the
   * header as one caption per column, and the first two cells are the
   * capitalised insurance type and the provider's name ("" when missing);
   * every other column holds the record's value, "" when it has none.
   */
  lemma RowsMatchHeader(insType: string, record: map<string, string>)
    ensures Csv.ParseRow(Csv.Row(RowCells(insType, record, Columns))) == Some(RowCells(insType, record, Columns))
    ensures Csv.ParseRow(Csv.Row(Labels(Columns))) == Some(Labels(Columns))
    ensures |RowCells(insType, record, Columns)| == |Labels(Columns)| == 23
    ensures RowCells(insType, record, Columns)[0] == UcWords(insType)
    ensures RowCells(insType, record, Columns)[1] == if "provider_name" in record then record["provider_name"] else ""
    ensures forall i :: 2 <= i < 23 ==>
      RowCells(insType, record, Columns)[i] == if Columns[i] in record then record[Columns[i]] else ""
  {
    ColumnFacts();
    Csv.RowRoundTrip(RowCells(insType, record, Columns));
    Csv.RowRoundTrip(Labels(Columns));
  }
}
