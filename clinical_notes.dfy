/**
 * clinical_notes_report (interface/forms/clinical_notes/report.php): keeps the
 * active notes of the form, in their order, and either hands them to the
 * HTML template or writes a six-column CSV header and one line per note.
 */
module ClinicalNotes {
  import opened Text
  import opened Records
  import opened Options
  import Csv

  /** The array_filter test: the note's activity is ClinicalNotesService::ACTIVITY_ACTIVE, given as `active`. */
  predicate IsActive(note: Record, active: string)
  {
    Get(note, "activity") == active
  }

  /** The active notes, in their original order. */
  function ActiveNotes(records: seq<Record>, active: string): (notes: seq<Record>)
    ensures |notes| <= |records|
    decreases |records|
  {
    if records == [] then []
    else
      var n := records[|records| - 1];
      ActiveNotes(records[..|records| - 1], active) + (if IsActive(n, active) then [n] else [])
  }

  /** Filtering keeps order: the active notes of two parts are those of each part, one after the other. */
  lemma {:induction false} ActiveNotesAppend(a: seq<Record>, b: seq<Record>, active: string)
    ensures ActiveNotes(a + b, active) == ActiveNotes(a, active) + ActiveNotes(b, active)
    decreases |b|
  {
    if b == [] {
      assert a + b == a;
    } else {
      assert (a + b)[..|a + b| - 1] == a + b[..|b| - 1];
      ActiveNotesAppend(a, b[..|b| - 1], active);
    }
  }

  /** A note is output exactly when it is among the fetched ones and active. */
  lemma {:induction false} ActiveNotesMembers(records: seq<Record>, active: string)
    ensures forall n :: n in ActiveNotes(records, active) <==> n in records && IsActive(n, active)
    decreases |records|
  {
    if records != [] {
      var init := records[..|records| - 1];
      ActiveNotesMembers(init, active);
      assert records == init + [records[|records| - 1]];
    }
  }

  /** `$v ? $v : xlt("Unspecified")`: a falsy text ("" or "0") reads "Unspecified". */
  function OrUnspecified(v: string): (w: string)
    ensures !PhpEmpty(w)
    ensures !PhpEmpty(v) ==> w == v
    ensures PhpEmpty(v) ==> w == "Unspecified"
  {
    if PhpEmpty(v) then "Unspecified" else v
  }

  const Captions: seq<string> := ["Date", "Type", "Category", "Author", "Code", "Narrative"]

  /** The six cells of a note's line, in header order. */
  function NoteCells(note: Record): (cells: seq<string>)
    ensures |cells| == |Captions|
  {
    [Get(note, "date"), OrUnspecified(Get(note, "codetext")), OrUnspecified(Get(note, "category_title")),
     Get(note, "user"), Get(note, "code"), Get(note, "description")]
  }

  function NoteLine(note: Record): string
  {
    Csv.Row(NoteCells(note)) + "\n"
  }

  /** The CSV lines of the notes, one per note, in order. */
  function NoteLines(notes: seq<Record>): (lines: seq<string>)
    ensures |lines| == |notes|
    ensures forall i :: 0 <= i < |notes| ==> lines[i] == NoteLine(notes[i])
  {
    seq(|notes|, i requires 0 <= i < |notes| => NoteLine(notes[i]))
  }

  /** Writing the line of note i extends the lines written so far by that line. */
  lemma NoteLinesStep(header: string, data: seq<Record>, i: nat, out: string, line: string)
    requires i < |data| && out == header + Concat(NoteLines(data[..i])) && line == NoteLine(data[i])
    ensures out + line == header + Concat(NoteLines(data[..i + 1]))
  {
    PrefixSnoc(data, i);
    assert NoteLines(data[..i + 1]) == NoteLines(data[..i]) + [line];
    ConcatOne(line);
    ConcatExtend(header, NoteLines(data[..i]), [line], out);
  }

  /**
   * What clinical_notes_report writes. A null result of the service reads as
   * no notes; the HTML mode is the template `render` applied to the active notes.
   */
  function ClinicalNotesOutput(records: Option<seq<Record>>, active: string, asCsv: bool, render: seq<Record> -> string): string
  {
    var notes := ActiveNotes(records.GetOr([]), active);
    if !asCsv then render(notes)
    else Csv.Row(Captions) + "\n" + Concat(NoteLines(notes))
  }

  /**
   * Every line reads back as six cells in header order, the type and the
   * category never falsy.
   */
  lemma NoteLineShape(note: Record)
    ensures var cells := NoteCells(note);
      && Csv.ParseRow(Csv.Row(cells)) == Some(cells) && |cells| == 6
      && !PhpEmpty(cells[1]) && !PhpEmpty(cells[2])
  {
    var cells := NoteCells(note);
    CellsNeverFalsy(note);
    Csv.RowRoundTrip(cells);
  }

  /** The type and the category cells hold a text that is never falsy. */
  lemma CellsNeverFalsy(note: Record)
    ensures |NoteCells(note)| == 6 && !PhpEmpty(NoteCells(note)[1]) && !PhpEmpty(NoteCells(note)[2])
  {
    var cells := NoteCells(note);
    assert cells[1] == OrUnspecified(Get(note, "codetext"));
    assert cells[2] == OrUnspecified(Get(note, "category_title"));
  }

  /** A null service result and an empty one both give the header alone, which reads back as the six captions. */
  lemma NullIsEmpty(active: string, render: seq<Record> -> string)
    ensures ClinicalNotesOutput(None, active, true, render) == Csv.Row(Captions) + "\n"
    ensures ClinicalNotesOutput(Some([]), active, true, render) == Csv.Row(Captions) + "\n"
    ensures Csv.ParseRow(Csv.Row(Captions)) == Some(Captions)
  {
    assert Csv.Row(Captions) + "\n" + "" == Csv.Row(Captions) + "\n";
    Csv.RowRoundTrip(Captions);
  }

  /** clinical_notes_report($pid, $encounter, $cols, $id, $as_csv), the service's result given as `records`. */
  method ClinicalNotesReport(records: Option<seq<Record>>, active: string, asCsv: bool, render: seq<Record> -> string)
    returns (out: string)
    ensures out == ClinicalNotesOutput(records, active, asCsv, render)
  {
    var fetched := if records.Some? then records.value else [];
    var data := ActiveNotes(fetched, active);
    if !asCsv {
      out := render(data);
      return;
    }
    out := Csv.Escape(Captions[0]) + ",";
    out := out + Csv.Escape(Captions[1]) + ",";
    out := out + Csv.Escape(Captions[2]) + ",";
    out := out + Csv.Escape(Captions[3]) + ",";
    out := out + Csv.Escape(Captions[4]) + ",";
    out := out + Csv.Escape(Captions[5]) + "\n";
    RowOfSix(Captions);
    out := WriteNotes(out, data);
  }

  /** The CSV loop: one line per note, after what is already written. */
  method WriteNotes(header: string, data: seq<Record>) returns (out: string)
    ensures out == header + Concat(NoteLines(data))
  {
    out := header;
    var i := 0;
    while i < |data|
      invariant 0 <= i <= |data|
      invariant out == header + Concat(NoteLines(data[..i]))
    {
      var line := WriteNote(data[i]);
      NoteLinesStep(header, data, i, out, line);
      out := out + line;
      i := i + 1;
    }
    assert data[..i] == data;
  }

  /** The body of the CSV loop: the six cells of one note, then the line break. */
  method WriteNote(notes: Record) returns (line: string)
    ensures line == NoteLine(notes)
  {
    line := Csv.Escape(Get(notes, "date")) + ",";
    line := line + Csv.Escape(if !PhpEmpty(Get(notes, "codetext")) then Get(notes, "codetext") else "Unspecified") + ",";
    line := line + Csv.Escape(if !PhpEmpty(Get(notes, "category_title")) then Get(notes, "category_title") else "Unspecified") + ",";
    line := line + Csv.Escape(Get(notes, "user")) + ",";
    line := line + Csv.Escape(Get(notes, "code")) + ",";
    line := line + Csv.Escape(Get(notes, "description")) + "\n";
    RowOfSix(NoteCells(notes));
  }

  lemma RowOfSix(cells: seq<string>)
    requires |cells| == 6
    ensures Csv.Row(cells) == Csv.Escape(cells[0]) + "," + Csv.Escape(cells[1]) + "," + Csv.Escape(cells[2]) + ","
                              + Csv.Escape(cells[3]) + "," + Csv.Escape(cells[4]) + "," + Csv.Escape(cells[5])
  {
    var c1, c2, c3, c4, c5 := cells[..1], cells[..2], cells[..3], cells[..4], cells[..5];
    assert c1 == [] + [cells[0]] && c2 == c1 + [cells[1]] && c3 == c2 + [cells[2]];
    assert c4 == c3 + [cells[3]] && c5 == c4 + [cells[4]] && cells == c5 + [cells[5]];
    Csv.RowSnoc([], cells[0]);
    Csv.RowSnoc(c1, cells[1]);
    Csv.RowSnoc(c2, cells[2]);
    Csv.RowSnoc(c3, cells[3]);
    Csv.RowSnoc(c4, cells[4]);
    Csv.RowSnoc(c5, cells[5]);
  }
}
