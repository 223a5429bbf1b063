/**
 * dictation_report (interface/forms/dictation/report.php): renders one
 * fetched form_dictation row. The HTML mode prints each visible column as a
 * heading with its caption followed by a paragraph with its value; the CSV
 * mode writes the two-column header, and the two texts when the row exists.
 */
module Dictation {
  import opened Text
  import opened Records
  import opened Options
  import Csv

  /** The heading and paragraph of one shown column. */
  function Entry(f: Field): string
  {
    "<h3>" + Humanize(f.0) + ": </h3>" + "<p>" + OnAsYes(f.1) + "</p>"
  }

  /** What the HTML loop prints for the columns of r, one piece per print. */
  function HtmlPieces(r: Record): seq<string>
    decreases |r|
  {
    if r == [] then []
    else
      var f := r[|r| - 1];
      HtmlPieces(r[..|r| - 1]) + (if FormSkips(f) then [] else [Entry(f)])
  }

  const Captions: seq<string> := ["Dictation", "Additional Notes"]

  /** The two texts of the CSV row, in header order. */
  function Texts(data: Record): (ts: seq<string>)
    ensures |ts| == |Captions|
  {
    [Get(data, "dictation"), Get(data, "additional_notes")]
  }

  /** What dictation_report writes; an absent row is the empty one. */
  function DictationOutput(data: Record, asCsv: bool): string
  {
    (if asCsv then Csv.Row(Captions) + "\n" else "")
    + (if data == [] then ""
       else if asCsv then Csv.Row(Texts(data)) + "\n"
       else Concat(HtmlPieces(data)))
  }

  /** The HTML pieces are the visible columns' entries, one each, in record order. */
  lemma {:induction false} EntriesInOrder(r: Record)
    ensures var p, v := HtmlPieces(r), Visible(r);
      |p| == |v| && forall i :: 0 <= i < |v| ==> p[i] == Entry(v[i])
    decreases |r|
  {
    if r != [] {
      EntriesInOrder(r[..|r| - 1]);
    }
  }

  /**
   * The CSV mode always writes the header, which reads back as the two
   * captions; with a row it then writes one line that reads back as the
   * dictation and the additional notes ("" for a missing one).
   */
  lemma CsvShape(data: Record)
    ensures var out := DictationOutput(data, true);
      && out[..|Csv.Row(Captions)| + 1] == Csv.Row(Captions) + "\n"
      && Csv.ParseRow(Csv.Row(Captions)) == Some(Captions)
      && (data == [] ==> out == Csv.Row(Captions) + "\n")
      && (data != [] ==>
            out[|Csv.Row(Captions)| + 1..] == Csv.Row(Texts(data)) + "\n" && Csv.ParseRow(Csv.Row(Texts(data))) == Some(Texts(data)))
  {
    Csv.RowRoundTrip(Captions);
    Csv.RowRoundTrip(Texts(data));
  }

  /** dictation_report($pid, $encounter, $cols, $id, $as_csv), the row formFetch returns given as `data`. */
  method DictationReport(data: Record, asCsv: bool) returns (out: string)
    ensures out == DictationOutput(data, asCsv)
  {
    out := "";
    if asCsv {
      out := HeaderLine();
    }
    if data == [] {
      assert out + "" == out;
      return;
    }
    var body;
    if !asCsv {
      body := AppendEntries("", data);
      assert "" + Concat(HtmlPieces(data)) == Concat(HtmlPieces(data));
    } else {
      body := TextsLine(data);
    }
    out := out + body;
  }

  /** The CSV header: the two captions, then the line break. */
  method HeaderLine() returns (line: string)
    ensures line == Csv.Row(Captions) + "\n"
  {
    line := Csv.Escape(Captions[0]) + ",";
    line := line + Csv.Escape(Captions[1]) + "\n";
    RowOfTwo(Captions);
  }

  /** The CSV line: the dictation and the additional notes, then the line break. */
  method TextsLine(data: Record) returns (line: string)
    ensures line == Csv.Row(Texts(data)) + "\n"
  {
    var t := Texts(data);
    line := Csv.Escape(t[0]) + "," + Csv.Escape(t[1]) + "\n";
    RowOfTwo(t);
  }

  /** The HTML loop: one heading and paragraph per shown column; $count counts them. */
  method AppendEntries(start: string, data: Record) returns (out: string)
    ensures out == start + Concat(HtmlPieces(data))
  {
    var count := 0;
    out := start;
    var i := 0;
    while i < |data|
      invariant 0 <= i <= |data|
      invariant out == start + Concat(HtmlPieces(data[..i])) && count == |Visible(data[..i])|
    {
      var key, value := data[i].0, data[i].1;
      PiecesSnoc(data, i);
      if FormAuditKey(key) || value == "" || value == ZeroTimestamp {
        assert HtmlPieces(data[..i + 1]) == HtmlPieces(data[..i]);
        i := i + 1;
        continue;
      }
      ghost var before := out;
      if value == "on" {
        value := "yes";
      }
      key := Humanize(key);
      var entry := "<h3>" + key + ": </h3>" + "<p>" + value + "</p>";
      assert entry == Entry(data[i]);
      out := out + entry;
      count := count + 1;
      ConcatOne(entry);
      ConcatExtend(start, HtmlPieces(data[..i]), [entry], before);
      i := i + 1;
    }
    assert data[..i] == data;
  }

  lemma RowOfTwo(cells: seq<string>)
    requires |cells| == 2
    ensures Csv.Row(cells) == Csv.Escape(cells[0]) + "," + Csv.Escape(cells[1])
  {
    assert cells[..1] == [] + [cells[0]] && cells == cells[..1] + [cells[1]];
    Csv.RowSnoc([], cells[0]);
    Csv.RowSnoc(cells[..1], cells[1]);
  }

  lemma PiecesSnoc(r: Record, i: nat)
    requires i < |r|
    ensures HtmlPieces(r[..i + 1]) == HtmlPieces(r[..i]) + (if FormSkips(r[i]) then [] else [Entry(r[i])])
    ensures Visible(r[..i + 1]) == Visible(r[..i]) + (if FormSkips(r[i]) then [] else [r[i]])
  {
    assert r[..i + 1][..i] == r[..i];
  }
}
