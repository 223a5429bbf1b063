/**
 * vitals_report (interface/forms/vitals/report.php): renders one fetched
 * form_vitals row either as an HTML table of caption/value cells, wrapped into
 * rows every `cols` counted fields, or as a CSV header line and one value line.
 *
 * The row is an ordered sequence of (column, value) pairs; an absent row
 * (formFetch returning false) and an empty one render alike, as nothing.
 * The specification is a left fold of one step per column (HtmlRun, CsvRun);
 * the method VitalsReport is the source's loops, proved equal to it.
 */
module Vitals {
  import opened Text
  import opened Options
  import opened VitalsUnits
  import opened Records
  import Csv

  /**
   * What the renderer reads besides the row: units_of_measurement,
   * us_weight_format, the patient's age as getPatientAge gives it, and the
   * numeric library. `intended` selects the evidently intended program in
   * place of the code as written (the two defects under "Findings": the blank
   * blood-pressure guard and the ounces of US_weight); the source is the
   * instance with `intended` false.
   */
  datatype Env = Env(units: int, weightFormat: int, age: PatientAge, num: Numerics, intended: bool)
  {
    /** $is_pediatric_patient */
    predicate Pediatric()
    {
      IsPediatric(age)
    }
  }

  /** Identity and audit columns: never rendered. */
  predicate IsAuditKey(key: string)
  {
    key in {"uuid", "id", "pid", "user", "groupname", "authorized", "activity", "date"}
  }

  /** The HTML loop skips audit columns and empty-looking values. */
  predicate HtmlSkips(f: Field)
  {
    IsAuditKey(f.0) || f.1 == "" || f.1 == ZeroTimestamp || EqualsZeroLoosely(f.1)
  }

  /** The value after the two rewrites every column undergoes: "on" reads "yes", the inhaled oxygen concentration gets " %". */
  function Shown(key: string, value: string): string
  {
    var v := OnAsYes(value);
    if key == "inhaled_oxygen_concentration" then v + " %" else v
  }

  /** The branch of the dispatch a column takes, decided on its caption. */
  datatype Kind =
    | PlainText | BloodPressure | Weight | Length | Temperature
    | PerMinute | Saturation | BodyMassIndex | FlowRate
    | Percentile(title: string) | Generic

  function KindOf(caption: string): Kind
  {
    if caption == "Temp Method" || caption == "BMI Status" then PlainText
    else if caption == "Bps" || caption == "Bpd" then BloodPressure
    else if caption == "Weight" then Weight
    else if caption == "Height" || caption == "Waist Circ" || caption == "Head Circ" then Length
    else if caption == "Temperature" then Temperature
    else if caption == "Pulse" || caption == "Respiration" then PerMinute
    else if caption == "Oxygen Saturation" then Saturation
    else if caption == "BMI" then BodyMassIndex
    else if caption == "Oxygen Flow Rate" then FlowRate
    else if caption == "Ped Weight Height" then Percentile("Pediatric Height Weight Percentile")
    else if caption == "Ped Bmi" then Percentile("Pediatric BMI Percentile")
    else if caption == "Ped Head Circ" then Percentile("Pediatric Head Circumference Percentile")
    else Generic
  }

  /** Temp Method passes through; BMI Status reads "See Growth-Chart" for a pediatric patient. */
  function PlainValue(caption: string, value: string, pediatric: bool): string
  {
    if caption == "BMI Status" && pediatric then "See Growth-Chart" else value
  }

  /** US_weight as written, or with the ounces carried into the pounds as evidently intended. */
  function WeightText(x: real, env: Env): string
  {
    if env.intended then USWeightCarried(x, env.weightFormat, env.num) else USWeight(x, env.weightFormat, env.num)
  }

  /** The US-unit text of a convertible measurement. */
  function UsText(kind: Kind, x: real, env: Env): string
  {
    match kind
    case Weight => WeightText(x, env)
    case Temperature => env.num.show(x) + " F"
    case _ => env.num.show(x) + " in"
  }

  /** The metric text of a convertible measurement. */
  function MetricText(kind: Kind, x: real, env: Env): string
  {
    match kind
    case Weight => Kilograms(x, env.num) + " kg"
    case Temperature => Celsius(x, env.num) + " C"
    case _ => Centimetres(x, env.num) + " cm"
  }

  predicate IsConvertible(kind: Kind)
  {
    kind == Weight || kind == Length || kind == Temperature
  }

  /** The HTML cells of the report. */
  datatype HtmlItem =
    | Cell(caption: string, value: string)
    | PlainCell(caption: string, value: string)          // the class="bold" markup of Temp Method and BMI Status
    | BloodPressureCell(systolic: string, diastolic: string)
    | PercentileCell(title: string, value: string)     // written after a stray opening <td><div>
    | RowBreak

  const LabelOpen: string := "<td><div class='font-weight-bold d-inline-block'>"
  const ValueOpen: string := ": </div></td><td><div class='text' style='display:inline-block'>"
  const ValueClose: string := "</div></td>"

  function CellMarkup(caption: string, value: string): string
  {
    LabelOpen + caption + ValueOpen + value + ValueClose
  }

  function Render(item: HtmlItem): string
  {
    match item
    case Cell(l, v) => CellMarkup(l, v)
    case PlainCell(l, v) =>
      "<td><div class=\"bold\" style=\"display:inline-block\">" + l
      + ": </div></td><td><div class=\"text\" style=\"display:inline-block\">" + v + "</div></td>"
    case BloodPressureCell(s, d) => CellMarkup("Blood Pressure", s + "/" + d)
    case PercentileCell(t, v) => LabelOpen + CellMarkup(t, v)
    case RowBreak => "</tr><tr>\n"
  }

  function Renders(items: seq<HtmlItem>): (rs: seq<string>)
    ensures |rs| == |items|
    ensures forall i :: 0 <= i < |items| ==> rs[i] == Render(items[i])
  {
    seq(|items|, i requires 0 <= i < |items| => Render(items[i]))
  }

  function RenderItems(items: seq<HtmlItem>): string
  {
    Concat(Renders(items))
  }

  /** The HTML a non-blood-pressure column contributes: one cell, or none for a percentile of an adult. */
  function HtmlEntry(kind: Kind, caption: string, value: string, env: Env): seq<HtmlItem>
  {
    var x := env.num.floatval(value);
    match kind
    case PlainText => [PlainCell(caption, PlainValue(caption, value, env.Pediatric()))]
    case Weight => [Cell(caption, Layout(env.units, UsText(kind, x, env), MetricText(kind, x, env)))]
    case Length => [Cell(caption, Layout(env.units, UsText(kind, x, env), MetricText(kind, x, env)))]
    case Temperature => [Cell(caption, Layout(env.units, UsText(kind, x, env), MetricText(kind, x, env)))]
    case PerMinute => [Cell(caption, env.num.numberFormat(x, 0) + " per min")]
    case Saturation => [Cell(caption, env.num.numberFormat(x, 0) + " %")]
    case BodyMassIndex => [Cell(caption, env.num.numberFormat(x, 0) + " kg/m^2")]
    case FlowRate => [Cell(caption, env.num.numberFormat(x, 2) + " l/min")]
    case Percentile(t) => if env.Pediatric() then [PercentileCell(t, env.num.numberFormat(x, 0) + " %")] else []
    case Generic => [Cell(caption, value)]
    case BloodPressure => []
  }

  /** The text a non-blood-pressure column puts through csvEscape, or None when it writes nothing. */
  function CsvEntry(kind: Kind, caption: string, value: string, env: Env): Option<string>
  {
    var x := env.num.floatval(value);
    match kind
    case PlainText => Some(PlainValue(caption, value, env.Pediatric()))
    case Weight => Some(MetricText(kind, x, env) + "," + UsText(kind, x, env))
    case Length => Some(MetricText(kind, x, env) + "," + UsText(kind, x, env))
    case Temperature => Some(MetricText(kind, x, env) + "," + UsText(kind, x, env))
    case PerMinute => Some(env.num.numberFormat(x, 0) + " per min")
    case Saturation => Some(env.num.numberFormat(x, 0) + "%")
    case BodyMassIndex => Some(env.num.numberFormat(x, 0) + " kg/m^2")
    case FlowRate => Some(env.num.numberFormat(x, 2) + " l/min")
    case Percentile(_) => if env.Pediatric() then Some(env.num.numberFormat(x, 0) + "%") else None
    case Generic => Some(value)
    case BloodPressure => None
  }

  /** !empty($bps) && !empty($bpd) */
  predicate BpComplete(bps: string, bpd: string)
  {
    !PhpEmpty(bps) && !PhpEmpty(bpd)
  }

  /** What the HTML loop carries: the cells so far, $count, and the last systolic and diastolic values seen. */
  datatype HtmlState = HtmlState(items: seq<HtmlItem>, count: int, bps: string, bpd: string)

  /** $count++, and a row break when it reaches $cols. */
  function Tally(st: HtmlState, cols: int): HtmlState
  {
    if st.count + 1 == cols then st.(items := st.items + [RowBreak], count := 0)
    else st.(count := st.count + 1)
  }

  /** $bps and $bpd after a blood-pressure column: the column's half takes the new value. */
  function BpHalves(caption: string, v: string, bps: string, bpd: string): (h: (string, string))
    ensures caption == "Bps" ==> h == (v, bpd)
    ensures caption == "Bpd" ==> h == (bps, v)
  {
    if caption == "Bps" then (v, bpd) else if caption == "Bpd" then (bps, v) else (bps, bpd)
  }

  /** The cells a shown column writes, given the blood-pressure halves after it; None when it is not counted (an incomplete blood pressure). */
  function HtmlCells(kind: Kind, caption: string, v: string, bps: string, bpd: string, env: Env): Option<seq<HtmlItem>>
  {
    if kind != BloodPressure then Some(HtmlEntry(kind, caption, v, env))
    else if BpComplete(bps, bpd) then Some([BloodPressureCell(bps, bpd)])
    else None
  }

  /** What one column gives: its output and the blood-pressure halves after it. */
  datatype Column<T> = Column(out: T, bps: string, bpd: string)

  /** A shown column in the HTML mode: its cells, None when it is not counted. */
  function HtmlCellsOf(f: Field, bps: string, bpd: string, env: Env): Column<Option<seq<HtmlItem>>>
  {
    var v := Shown(f.0, f.1);
    var caption := Humanize(f.0);
    var kind := KindOf(caption);
    var h := if kind == BloodPressure then BpHalves(caption, v, bps, bpd) else (bps, bpd);
    Column(HtmlCells(kind, caption, v, h.0, h.1, env), h.0, h.1)
  }

  /** One iteration of the HTML loop. */
  function HtmlStep(st: HtmlState, f: Field, env: Env, cols: int): HtmlState
  {
    if HtmlSkips(f) then st
    else
      var c := HtmlCellsOf(f, st.bps, st.bpd, env);
      match c.out
      case None => st.(bps := c.bps, bpd := c.bpd)
      case Some(cells) => Tally(HtmlState(st.items + cells, st.count, c.bps, c.bpd), cols)
  }

  const HtmlStart: HtmlState := HtmlState([], 0, "", "")

  function HtmlRun(r: Record, env: Env, cols: int): HtmlState
    decreases |r|
  {
    if r == [] then HtmlStart
    else HtmlStep(HtmlRun(r[..|r| - 1], env, cols), r[|r| - 1], env, cols)
  }

  /** What the CSV value loop carries: one slot per non-audit column (None when it wrote no cell text), and the blood-pressure halves. */
  datatype CsvState = CsvState(cells: seq<Option<string>>, bps: string, bpd: string)

  /**
   * When the guard of the blank blood-pressure cell holds. As written,
   * `!$key == "Bps"` reads `(!$key) == "Bps"`: a boolean compared with a
   * non-empty string, true only for an empty key. The evidently intended
   * guard is `$key != "Bps"`.
   */
  predicate BlankBpGuard(caption: string, intended: bool)
  {
    if intended then caption != "Bps" else PhpEmpty(caption)
  }

  /** The text a non-audit column writes in the CSV value line, given the blood-pressure halves after it. */
  function CsvSlot(kind: Kind, caption: string, v: string, bps: string, bpd: string, env: Env): Option<string>
  {
    if kind != BloodPressure then CsvEntry(kind, caption, v, env)
    else if BpComplete(bps, bpd) then Some(bps + "/" + bpd)
    else if BlankBpGuard(caption, env.intended) then Some("")
    else None
  }

  /** A non-audit column in the CSV mode: the text it writes, None for nothing. */
  function CsvCellOf(f: Field, bps: string, bpd: string, env: Env): Column<Option<string>>
  {
    var v := Shown(f.0, f.1);
    var caption := Humanize(f.0);
    var kind := KindOf(caption);
    var h := if kind == BloodPressure then BpHalves(caption, v, bps, bpd) else (bps, bpd);
    Column(CsvSlot(kind, caption, v, h.0, h.1, env), h.0, h.1)
  }

  /** One iteration of the CSV value loop. */
  function CsvStep(st: CsvState, f: Field, env: Env): CsvState
  {
    if IsAuditKey(f.0) then st
    else
      var c := CsvCellOf(f, st.bps, st.bpd, env);
      CsvState(st.cells + [c.out], c.bps, c.bpd)
  }

  const CsvStart: CsvState := CsvState([], "", "")

  function CsvRun(r: Record, env: Env): CsvState
    decreases |r|
  {
    if r == [] then CsvStart
    else CsvStep(CsvRun(r[..|r| - 1], env), r[|r| - 1], env)
  }

  /** Columns that get a header cell: not audit, and not bps (whose cell is "Blood Pressure" under bpd). */
  predicate InHeader(key: string)
  {
    !IsAuditKey(key) && key != "bps"
  }

  function HeaderLabel(key: string): string
  {
    if key == "bpd" then "Blood Pressure"
    else if key == "ped_weight_height" then "Pediatric Height Weight Percentile"
    else if key == "ped_bmi" then "Pediatric BMI Percentile"
    else if key == "ped_head_circ" then "Pediatric Head Circumference Percentile"
    else Humanize(key)
  }

  function HeaderLabels(r: Record): seq<string>
    decreases |r|
  {
    if r == [] then []
    else HeaderLabels(r[..|r| - 1]) + (if InHeader(r[|r| - 1].0) then [HeaderLabel(r[|r| - 1].0)] else [])
  }

  /** Slots before the first written cell add no separator: the value line starts at the first cell written. */
  function DropLeadingNone(cells: seq<Option<string>>): (d: seq<Option<string>>)
    ensures |d| <= |cells|
    ensures d != [] ==> d[0].Some?
    decreases |cells|
  {
    if cells == [] then []
    else if cells[0].None? then DropLeadingNone(cells[1..])
    else cells
  }

  function AsField(c: Option<string>): Csv.Field
  {
    if c.Some? then Csv.Quoted(c.value) else Csv.Blank
  }

  function AsFields(cells: seq<Option<string>>): (fs: seq<Csv.Field>)
    ensures |fs| == |cells|
    ensures forall i :: 0 <= i < |cells| ==> fs[i] == AsField(cells[i])
  {
    seq(|cells|, i requires 0 <= i < |cells| => AsField(cells[i]))
  }

  /** The value line (without its newline) written for the slots. */
  function RowText(cells: seq<Option<string>>): string
  {
    Csv.Join(AsFields(DropLeadingNone(cells)))
  }

  /** What vitals_report returns (or echoes). */
  function VitalsOutput(r: Record, env: Env, cols: int, asCsv: bool): string
  {
    if r == [] then ""
    else if asCsv then Csv.Row(HeaderLabels(r)) + "\n" + RowText(CsvRun(r, env).cells) + "\n"
    else "<table><tr>" + RenderItems(HtmlRun(r, env, cols).items) + "</tr></table>"
  }

  lemma RenderItemsAppend(items: seq<HtmlItem>, more: seq<HtmlItem>)
    ensures RenderItems(items + more) == RenderItems(items) + RenderItems(more)
  {
    var a, b, ab := Renders(items), Renders(more), Renders(items + more);
    forall i | 0 <= i < |ab|
      ensures ab[i] == (a + b)[i]
    {
      if i < |items| {
        assert (items + more)[i] == items[i];
      } else {
        assert (items + more)[i] == more[i - |items|];
      }
    }
    assert ab == a + b;
    ConcatAppend(a, b);
  }

  lemma DropLeadingNoneSnoc(cells: seq<Option<string>>, c: Option<string>)
    ensures DropLeadingNone(cells + [c]) ==
      if DropLeadingNone(cells) == [] then (if c.None? then [] else [c]) else DropLeadingNone(cells) + [c]
    decreases |cells|
  {
    if cells == [] {
      assert cells + [c] == [c];
    } else {
      assert (cells + [c])[1..] == cells[1..] + [c];
      if cells[0].None? {
        DropLeadingNoneSnoc(cells[1..], c);
      }
    }
  }

  /** Appending a slot to the value line: a separator unless nothing was written yet, then the slot's text. */
  lemma RowTextSnoc(cells: seq<Option<string>>, c: Option<string>)
    ensures RowText(cells) == "" <==> DropLeadingNone(cells) == []
    ensures RowText(cells + [c]) ==
      if RowText(cells) == "" then AsField(c).Text() else RowText(cells) + "," + AsField(c).Text()
  {
    var d := DropLeadingNone(cells);
    DropLeadingNoneSnoc(cells, c);
    if d != [] {
      Csv.JoinStartsQuoted(AsFields(d));
      assert AsFields(d + [c]) == AsFields(d) + [AsField(c)];
      Csv.JoinSnoc(AsFields(d), AsField(c));
    } else if c.Some? {
      assert AsFields([c]) == [AsField(c)];
    }
  }

  /** The header line, as the source's first loop writes it: a separator before every cell but the first. */
  lemma HeaderSnoc(labels: seq<string>, l: string)
    ensures Csv.Row(labels) == "" <==> labels == []
    ensures Csv.Row(labels + [l]) == if labels == [] then Csv.Escape(l) else Csv.Row(labels) + "," + Csv.Escape(l)
  {
    assert Csv.QuoteAll(labels + [l]) == Csv.QuoteAll(labels) + [Csv.Quoted(l)];
    Csv.JoinSnoc(Csv.QuoteAll(labels), Csv.Quoted(l));
    if labels != [] {
      Csv.JoinStartsQuoted(Csv.QuoteAll(labels));
    }
  }

  /** What a slot writes after its separator. */
  function SlotText(c: Option<string>): string
  {
    if c.Some? then Csv.Escape(c.value) else ""
  }

  /** The value line as the loop writes it: a separator before each slot once anything has been written, then the slot's text. */
  function ValueLine(cells: seq<Option<string>>): string
    decreases |cells|
  {
    if cells == [] then ""
    else
      var written := ValueLine(cells[..|cells| - 1]);
      (if written == "" then "" else written + ",") + SlotText(cells[|cells| - 1])
  }

  /** A written value line never ends in a line break: the loop's test on the last character tells whether anything was written. */
  lemma ValueLineEnd(prefix: string, cells: seq<Option<string>>)
    requires |prefix| > 0 && prefix[|prefix| - 1] == '\n'
    ensures var v := prefix + ValueLine(cells); |v| > 0 && (v[|v| - 1] == '\n' <==> ValueLine(cells) == "")
  {
    if cells != [] {
      var c := cells[|cells| - 1];
      if c.Some? {
        assert SlotText(c)[|SlotText(c)| - 1] == '"';
      }
    }
  }

  /** One slot of the value loop: the separator test on the last character, then the slot's text, extend the line by that slot. */
  lemma ValueLineSnoc(cells: seq<Option<string>>, c: Option<string>)
    ensures ValueLine(cells + [c]) == (if ValueLine(cells) == "" then "" else ValueLine(cells) + ",") + SlotText(c)
  {
    assert (cells + [c])[..|cells|] == cells;
  }

  lemma ValueLineStep(start: string, cells: seq<Option<string>>, c: Option<string>, unseparated: string, separated: string, v: string)
    requires |start| > 0 && start[|start| - 1] == '\n'
    requires unseparated == start + ValueLine(cells)
    requires separated == if unseparated[|unseparated| - 1] != '\n' then unseparated + "," else unseparated
    requires v == separated + SlotText(c)
    ensures v == start + ValueLine(cells + [c])
  {
    ValueLineEnd(start, cells);
    ValueLineSnoc(cells, c);
    SeparatedAppend(start, ValueLine(cells), SlotText(c), unseparated, separated, v);
  }

  /** Writing the separator exactly when the line does not end in the header's line break, then the text. */
  lemma SeparatedAppend(start: string, w: string, t: string, unseparated: string, separated: string, v: string)
    requires unseparated == start + w && |unseparated| > 0
    requires unseparated[|unseparated| - 1] == '\n' <==> w == ""
    requires separated == if unseparated[|unseparated| - 1] != '\n' then unseparated + "," else unseparated
    requires v == separated + t
    ensures v == start + ((if w == "" then "" else w + ",") + t)
  {
    if w == "" {
      assert separated == start;
    } else {
      AppendAssoc(start, w, ",");
      AppendAssoc(start, w + ",", t);
    }
  }

  /** The loop's value line is the CSV row of the written slots, blanks where a slot wrote nothing. */
  lemma {:induction false} ValueLineIsRow(cells: seq<Option<string>>)
    ensures ValueLine(cells) == RowText(cells)
    decreases |cells|
  {
    if cells != [] {
      var init := cells[..|cells| - 1];
      var c := cells[|cells| - 1];
      assert init + [c] == cells;
      ValueLineIsRow(init);
      ValueLineSnoc(init, c);
      RowTextSnoc(init, c);
      var w, t := RowText(init), SlotText(c);
      assert AsField(c).Text() == t;
      if w == "" {
        assert ValueLine(cells) == "" + t == t;
      } else {
        assert ValueLine(cells) == w + "," + t;
      }
    }
  }

  /** vitals_report($pid, $encounter, $cols, $id, print: false, $as_csv), the row fetched by formFetch given as `data`. */
  method VitalsReport(data: Record, env: Env, cols: int, asCsv: bool) returns (vitals: string)
    ensures vitals == VitalsOutput(data, env, cols, asCsv)
  {
    vitals := "";
    if |data| == 0 {
      return;
    }
    if !asCsv {
      vitals := AppendHtmlCells("<table><tr>", data, env, cols);
      vitals := vitals + "</tr></table>";
    } else {
      vitals := CsvHeader(data);
      vitals := AppendCsvValues(vitals + "\n", data, env);
      ValueLineIsRow(CsvRun(data, env).cells);
      vitals := vitals + "\n";
    }
  }

  /** The header loop of the CSV mode. */
  method CsvHeader(data: Record) returns (vitals: string)
    ensures vitals == Csv.Row(HeaderLabels(data))
  {
    vitals := "";
    var i := 0;
    while i < |data|
      invariant 0 <= i <= |data|
      invariant vitals == Csv.Row(HeaderLabels(data[..i]))
    {
      var key := data[i].0;
      HeaderLabelsStep(data, i);
      if InHeader(key) {
        vitals := AppendHeaderCell(vitals, HeaderLabels(data[..i]), HeaderLabel(key));
      } else {
        assert HeaderLabels(data[..i + 1]) == HeaderLabels(data[..i]);
      }
      i := i + 1;
    }
    assert data[..|data|] == data;
  }

  lemma HeaderLabelsStep(data: Record, i: nat)
    requires i < |data|
    ensures HeaderLabels(data[..i + 1]) ==
      HeaderLabels(data[..i]) + (if InHeader(data[i].0) then [HeaderLabel(data[i].0)] else [])
  {
    assert data[..i + 1][..i] == data[..i];
  }

  /** One header cell: the separator once a cell has been written, then the escaped caption. */
  method AppendHeaderCell(vitals0: string, ghost labels: seq<string>, caption: string) returns (vitals: string)
    requires vitals0 == Csv.Row(labels)
    ensures vitals == Csv.Row(labels + [caption])
  {
    HeaderSnoc(labels, caption);
    vitals := vitals0;
    if vitals != "" {
      vitals := vitals + ",";
    }
    vitals := vitals + Csv.Escape(caption);
  }

  /** RenderItems of one item is that item's markup. */
  lemma RenderOne(item: HtmlItem)
    ensures RenderItems([item]) == Render(item)
  {
    assert Renders([item]) == [Render(item)];
    ConcatOne(Render(item));
  }

  /** A skipped column leaves the HTML state as it was. */
  lemma HtmlRunSkip(r: Record, f: Field, env: Env, cols: int)
    requires HtmlSkips(f)
    ensures HtmlRun(r + [f], env, cols) == HtmlRun(r, env, cols)
  {
    assert (r + [f])[..|r|] == r;
  }

  /** A shown column updates the halves, then either is not counted or adds its cells and is tallied. */
  lemma HtmlRunColumn(r: Record, f: Field, env: Env, cols: int, c: Column<Option<seq<HtmlItem>>>)
    requires !HtmlSkips(f)
    requires c == HtmlCellsOf(f, HtmlRun(r, env, cols).bps, HtmlRun(r, env, cols).bpd, env)
    ensures c.out.None? ==> HtmlRun(r + [f], env, cols) == HtmlRun(r, env, cols).(bps := c.bps, bpd := c.bpd)
    ensures c.out.Some? ==>
      var st := HtmlRun(r, env, cols);
      HtmlRun(r + [f], env, cols) == Tally(HtmlState(st.items + c.out.value, st.count, c.bps, c.bpd), cols)
  {
    assert (r + [f])[..|r|] == r;
  }

  /** What the HTML loop has written matches the state: the rendered items after `start`, $count and the halves. */
  predicate HtmlWritten(start: string, st: HtmlState, vitals: string, count: int, bps: string, bpd: string)
  {
    vitals == start + RenderItems(st.items) && count == st.count && bps == st.bps && bpd == st.bpd
  }

  lemma HtmlRunPrefix(data: Record, i: nat, env: Env, cols: int)
    requires i < |data|
    ensures HtmlRun(data[..i + 1], env, cols) == HtmlStep(HtmlRun(data[..i], env, cols), data[i], env, cols)
  {
    assert data[..i + 1][..i] == data[..i];
  }

  /** A shown column updates the halves, then either is not counted or adds its cells and is tallied. */
  lemma HtmlStepColumn(st: HtmlState, f: Field, env: Env, cols: int, c: Column<Option<seq<HtmlItem>>>)
    requires !HtmlSkips(f) && c == HtmlCellsOf(f, st.bps, st.bpd, env)
    ensures c.out.None? ==> HtmlStep(st, f, env, cols) == st.(bps := c.bps, bpd := c.bpd)
    ensures c.out.Some? ==> HtmlStep(st, f, env, cols) == Tally(HtmlState(st.items + c.out.value, st.count, c.bps, c.bpd), cols)
  {
  }

  /** The value loop of the HTML mode, appending to what is already written. */
  method AppendHtmlCells(start: string, data: Record, env: Env, cols: int) returns (vitals: string)
    ensures vitals == start + RenderItems(HtmlRun(data, env, cols).items)
  {
    vitals := start;
    var count := 0;
    var bps, bpd := "", "";
    var i := 0;
    while i < |data|
      invariant 0 <= i <= |data|
      invariant HtmlWritten(start, HtmlRun(data[..i], env, cols), vitals, count, bps, bpd)
    {
      HtmlRunPrefix(data, i, env, cols);
      vitals, count, bps, bpd := HtmlColumnStep(HtmlRun(data[..i], env, cols), start, data[i].0, data[i].1, vitals, count, bps, bpd, env, cols);
      i := i + 1;
    }
    assert data[..|data|] == data;
  }

  /** One iteration of the HTML loop: the skip test, the column's cells, then $count against $cols. */
  method HtmlColumnStep(ghost st: HtmlState, start: string, key: string, value: string,
                        vitals: string, count: int, bps: string, bpd: string, env: Env, cols: int)
    returns (vitals': string, count': int, bps': string, bpd': string)
    requires HtmlWritten(start, st, vitals, count, bps, bpd)
    ensures HtmlWritten(start, HtmlStep(st, (key, value), env, cols), vitals', count', bps', bpd')
  {
    vitals', count', bps', bpd' := vitals, count, bps, bpd;
    if IsAuditKey(key) || value == "" || value == ZeroTimestamp || EqualsZeroLoosely(value) {
      return;
    }
    var entry, counted;
    entry, counted, bps', bpd' := HtmlColumn(key, value, bps, bpd, env);
    HtmlStepColumn(st, (key, value), env, cols, Column(if counted then Some(entry) else None, bps', bpd'));
    if !counted {
      return;
    }
    CellsAppend(start, st.items, entry, vitals);
    vitals' := vitals + RenderItems(entry);
    count' := count + 1;
    if count' == cols {
      count' := 0;
      vitals' := vitals' + "</tr><tr>\n";
      RowBreakAppend(start, st.items + entry);
    }
  }

  /** One shown column of the HTML mode: the value rewrites, then the branch its caption selects. */
  method HtmlColumn(key: string, value: string, bps: string, bpd: string, env: Env)
    returns (entry: seq<HtmlItem>, counted: bool, bps': string, bpd': string)
    ensures HtmlCellsOf((key, value), bps, bpd, env) == Column(if counted then Some(entry) else None, bps', bpd')
  {
    var v := value;
    if v == "on" {
      v := "yes";
    }
    if key == "inhaled_oxygen_concentration" {
      v := v + " %";
    }
    var caption := Humanize(key);
    var kind := KindOf(caption);
    assert v == Shown(key, value);
    bps', bpd' := bps, bpd;
    if kind == BloodPressure {
      if caption == "Bps" {
        bps' := v;
      } else {
        bpd' := v;
      }
      if !PhpEmpty(bps') && !PhpEmpty(bpd') {
        entry, counted := [BloodPressureCell(bps', bpd')], true;
      } else {
        entry, counted := [], false;
      }
      assert HtmlCells(kind, caption, v, bps', bpd', env) == if counted then Some(entry) else None;
    } else {
      entry, counted := HtmlEntry(kind, caption, v, env), true;
      assert HtmlCells(kind, caption, v, bps', bpd', env) == Some(entry);
    }
  }

  /** Writing a shown column's cells extends the rendered items by those cells. */
  lemma CellsAppend(start: string, items: seq<HtmlItem>, entry: seq<HtmlItem>, written: string)
    requires written == start + RenderItems(items)
    ensures written + RenderItems(entry) == start + RenderItems(items + entry)
  {
    RenderItemsAppend(items, entry);
    AppendAssoc(start, RenderItems(items), RenderItems(entry));
  }

  /** Writing the row break extends the rendered cells by a RowBreak item. */
  lemma RowBreakAppend(start: string, items: seq<HtmlItem>)
    ensures start + RenderItems(items) + "</tr><tr>\n" == start + RenderItems(items + [RowBreak])
  {
    RenderOne(RowBreak);
    RenderItemsAppend(items, [RowBreak]);
  }

  lemma CsvRunSnoc(r: Record, f: Field, env: Env)
    ensures CsvRun(r + [f], env) == CsvStep(CsvRun(r, env), f, env)
  {
    assert (r + [f])[..|r|] == r;
  }

  /** An audit column leaves the CSV state as it was. */
  lemma CsvRunAudit(r: Record, f: Field, env: Env)
    requires IsAuditKey(f.0)
    ensures CsvRun(r + [f], env) == CsvRun(r, env)
  {
    assert (r + [f])[..|r|] == r;
  }

  /** Any other column adds exactly one slot and updates the halves. */
  lemma CsvRunSlot(r: Record, f: Field, env: Env, c: Column<Option<string>>)
    requires !IsAuditKey(f.0)
    requires c == CsvCellOf(f, CsvRun(r, env).bps, CsvRun(r, env).bpd, env)
    ensures CsvRun(r + [f], env) == CsvState(CsvRun(r, env).cells + [c.out], c.bps, c.bpd)
  {
    assert (r + [f])[..|r|] == r;
  }

  /** The value loop of the CSV mode, appending to a header that ends in a line break. */
  method AppendCsvValues(start: string, data: Record, env: Env) returns (vitals: string)
    requires |start| > 0 && start[|start| - 1] == '\n'
    ensures vitals == start + ValueLine(CsvRun(data, env).cells)
  {
    vitals := start;
    var bps, bpd := "", "";
    var i := 0;
    while i < |data|
      invariant 0 <= i <= |data|
      invariant
        var st := CsvRun(data[..i], env);
        vitals == start + ValueLine(st.cells) && bps == st.bps && bpd == st.bpd
    {
      var key, value := data[i].0, data[i].1;
      assert data[..i + 1] == data[..i] + [(key, value)];
      if IsAuditKey(key) {
        CsvRunAudit(data[..i], (key, value), env);
      } else {
        ghost var cells := CsvRun(data[..i], env).cells;
        CsvRunSlot(data[..i], (key, value), env, CsvCellOf((key, value), bps, bpd, env));
        vitals, bps, bpd := AppendCsvSlot(start, vitals, cells, key, value, bps, bpd, env);
      }
      i := i + 1;
    }
    assert data[..|data|] == data;
  }

  /** One non-audit column of the value loop: the separator when something was written, then the column's cell. */
  method AppendCsvSlot(start: string, vitals0: string, ghost cells: seq<Option<string>>,
                       key: string, value: string, bps0: string, bpd0: string, env: Env)
    returns (vitals: string, bps: string, bpd: string)
    requires |start| > 0 && start[|start| - 1] == '\n'
    requires vitals0 == start + ValueLine(cells)
    ensures var c := CsvCellOf((key, value), bps0, bpd0, env);
      vitals == start + ValueLine(cells + [c.out]) && bps == c.bps && bpd == c.bpd
  {
    vitals := vitals0;
    ValueLineEnd(start, cells);
    if vitals[|vitals| - 1] != '\n' {
      vitals := vitals + ",";
    }
    ghost var separated := vitals;
    var cell;
    cell, bps, bpd := CsvColumn(key, value, bps0, bpd0, env);
    if cell.Some? {
      vitals := vitals + Csv.Escape(cell.value);
    } else {
      assert vitals == vitals + SlotText(cell);
    }
    ValueLineStep(start, cells, cell, vitals0, separated, vitals);
  }

  /** One non-audit column of the CSV mode: the value rewrites, then the branch its caption selects. */
  method CsvColumn(key: string, value: string, bps: string, bpd: string, env: Env)
    returns (cell: Option<string>, bps': string, bpd': string)
    ensures CsvCellOf((key, value), bps, bpd, env) == Column(cell, bps', bpd')
  {
    var v := value;
    if v == "on" {
      v := "yes";
    }
    if key == "inhaled_oxygen_concentration" {
      v := v + " %";
    }
    var caption := Humanize(key);
    var kind := KindOf(caption);
    bps', bpd' := bps, bpd;
    if kind == BloodPressure {
      if caption == "Bps" {
        bps' := v;
      } else {
        bpd' := v;
      }
      if !PhpEmpty(bps') && !PhpEmpty(bpd') {
        cell := Some(bps' + "/" + bpd');
      } else if (if env.intended then caption != "Bps" else PhpEmpty(caption)) {
        cell := Some("");
      } else {
        cell := None;
      }
    } else {
      cell := CsvEntry(kind, caption, v, env);
    }
  }
}
