/**
 * soap_report (interface/forms/soap/report.php): renders one fetched
 * form_soap row. The HTML mode shows every visible column in a table forced
 * to one column, so each cell is followed by a row break; the CSV mode
 * writes a fixed four-column header, and the four notes when the row exists.
 */
module Soap {
  import opened Text
  import opened Records
  import opened Options
  import Csv

  const RowBreak: string := "</tr><tr>\n"

  /** The cell of one shown column: its caption in bold, then its value. */
  function CellHtml(f: Field): string
  {
    "<td><span class=bold>" + Humanize(f.0) + ": </span><span class=text>" + OnAsYes(f.1) + "</span></td>"
  }

  /** What the HTML loop prints for the columns of r, one piece per print. */
  function HtmlPieces(r: Record): seq<string>
    decreases |r|
  {
    if r == [] then []
    else
      var f := r[|r| - 1];
      HtmlPieces(r[..|r| - 1]) + (if FormSkips(f) then [] else [CellHtml(f), RowBreak])
  }

  const Captions: seq<string> := ["Subjective", "Objective", "Assessment", "Plan"]

  /** The four notes of the CSV row, in header order. */
  function Notes(data: Record): (ns: seq<string>)
    ensures |ns| == |Captions|
  {
    [Get(data, "subjective"), Get(data, "objective"), Get(data, "assessment"), Get(data, "plan")]
  }

  /** What soap_report writes; an absent row is the empty one. */
  function SoapOutput(data: Record, asCsv: bool): string
  {
    (if asCsv then Csv.Row(Captions) + "\n" else "")
    + (if data == [] then ""
       else if asCsv then Csv.Row(Notes(data)) + "\n"
       else "<table><tr>" + Concat(HtmlPieces(data)) + "</tr></table>")
  }

  /**
   * One column per row: the HTML pieces are the visible columns' cells in
   * record order, each followed by a row break.
   */
  lemma {:induction false} OneColumn(r: Record)
    ensures var p, v := HtmlPieces(r), Visible(r);
      |p| == 2 * |v| && forall i :: 0 <= i < |v| ==> p[2 * i] == CellHtml(v[i]) && p[2 * i + 1] == RowBreak
    decreases |r|
  {
    if r != [] {
      OneColumn(r[..|r| - 1]);
    }
  }

  /**
   * The CSV mode always writes the header, which reads back as the four
   * captions; with a row it then writes one line that reads back as the four
   * notes in header order ("" for a missing one).
   */
  lemma CsvShape(data: Record)
    ensures var out := SoapOutput(data, true);
      && out[..|Csv.Row(Captions)| + 1] == Csv.Row(Captions) + "\n"
      && Csv.ParseRow(Csv.Row(Captions)) == Some(Captions)
      && (data == [] ==> out == Csv.Row(Captions) + "\n")
      && (data != [] ==>
            out[|Csv.Row(Captions)| + 1..] == Csv.Row(Notes(data)) + "\n" && Csv.ParseRow(Csv.Row(Notes(data))) == Some(Notes(data)))
  {
    Csv.RowRoundTrip(Captions);
    Csv.RowRoundTrip(Notes(data));
  }

  /** soap_report($pid, $encounter, $cols, $id, $as_csv), the row formFetch returns given as `data`. */
  method SoapReport(data: Record, asCsv: bool) returns (out: string)
    ensures out == SoapOutput(data, asCsv)
  {
    out := "";
    if asCsv {
      out := HeaderLine();
    }
    if data == [] {
      assert out + "" == out;
      return;
    }
    var body;
    if !asCsv {
      body := AppendCells("<table><tr>", data);
      body := body + "</tr></table>";
    } else {
      body := NotesLine(data);
    }
    out := out + body;
  }

  /** The CSV header: the four captions, then the line break. */
  method HeaderLine() returns (line: string)
    ensures line == Csv.Row(Captions) + "\n"
  {
    line := Csv.Escape(Captions[0]) + ",";
    line := line + Csv.Escape(Captions[1]) + ",";
    line := line + Csv.Escape(Captions[2]) + ",";
    line := line + Csv.Escape(Captions[3]) + "\n";
    RowOfFour(Captions);
  }

  /** The CSV line: the four notes in header order, then the line break. */
  method NotesLine(data: Record) returns (line: string)
    ensures line == Csv.Row(Notes(data)) + "\n"
  {
    var n := Notes(data);
    line := Csv.Escape(n[0]) + "," + Csv.Escape(n[1]) + "," + Csv.Escape(n[2]) + "," + Csv.Escape(n[3]) + "\n";
    RowOfFour(n);
  }

  /** The HTML loop with $cols forced to 1: $count is back at 0 after every shown column. */
  method AppendCells(start: string, data: Record) returns (out: string)
    ensures out == start + Concat(HtmlPieces(data))
  {
    var cols := 1;
    var count := 0;
    out := start;
    var i := 0;
    while i < |data|
      invariant 0 <= i <= |data|
      invariant out == start + Concat(HtmlPieces(data[..i])) && count == 0
    {
      var key, value := data[i].0, data[i].1;
      PiecesSnoc(data, i);
      if FormAuditKey(key) || value == "" || value == ZeroTimestamp {
        assert HtmlPieces(data[..i + 1]) == HtmlPieces(data[..i]);
        i := i + 1;
        continue;
      }
      ghost var before := out;
      if value == "on" {
        value := "yes";
      }
      key := Humanize(key);
      count := count + 1;
      var cell := "<td><span class=bold>" + key + ": </span><span class=text>" + value + "</span></td>";
      assert cell == CellHtml(data[i]);
      out := out + cell;
      if count == cols {
        count := 0;
        out := out + RowBreak;
      }
      AppendAssoc(before, cell, RowBreak);
      ConcatTwo(cell, RowBreak);
      ConcatExtend(start, HtmlPieces(data[..i]), [CellHtml(data[i]), RowBreak], before);
      i := i + 1;
    }
    assert data[..i] == data;
  }

  /** A four-cell row is the four escaped cells with a separator between each two. */
  lemma RowOfFour(cells: seq<string>)
    requires |cells| == 4
    ensures Csv.Row(cells) == Csv.Escape(cells[0]) + "," + Csv.Escape(cells[1]) + "," + Csv.Escape(cells[2]) + "," + Csv.Escape(cells[3])
  {
    var c1, c2, c3 := cells[..1], cells[..2], cells[..3];
    assert c1 == [] + [cells[0]] && c2 == c1 + [cells[1]] && c3 == c2 + [cells[2]] && cells == c3 + [cells[3]];
    Csv.RowSnoc([], cells[0]);
    Csv.RowSnoc(c1, cells[1]);
    Csv.RowSnoc(c2, cells[2]);
    Csv.RowSnoc(c3, cells[3]);
  }

  lemma PiecesSnoc(r: Record, i: nat)
    requires i < |r|
    ensures HtmlPieces(r[..i + 1]) == HtmlPieces(r[..i]) + (if FormSkips(r[i]) then [] else [CellHtml(r[i]), RowBreak])
  {
    assert r[..i + 1][..i] == r[..i];
  }
}
