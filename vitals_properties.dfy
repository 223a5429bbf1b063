/**
 * What vitals_report promises about the cells it writes: which columns reach
 * the table or the CSV line, how the blood-pressure halves merge, how the
 * pediatric rules and the unit setting act, and how the HTML cells wrap into
 * rows of `cols` counted columns.
 */
module VitalsProperties {
  import opened Options
  import opened Text
  import opened Records
  import opened Vitals
  import Csv

  /** The columns of a row that are not audit columns, in order. */
  function WithoutAudit(r: Record): (s: Record)
    ensures |s| <= |r|
    ensures forall i :: 0 <= i < |s| ==> !IsAuditKey(s[i].0)
    decreases |r|
  {
    if r == [] then []
    else WithoutAudit(r[..|r| - 1]) + (if IsAuditKey(r[|r| - 1].0) then [] else [r[|r| - 1]])
  }

  /** The columns the HTML mode does not skip, in order. */
  function Kept(r: Record): (s: Record)
    ensures |s| <= |r|
    ensures forall i :: 0 <= i < |s| ==> !HtmlSkips(s[i])
    decreases |r|
  {
    if r == [] then []
    else Kept(r[..|r| - 1]) + (if HtmlSkips(r[|r| - 1]) then [] else [r[|r| - 1]])
  }

  /** How many columns are named `key`. */
  function Occurrences(r: Record, key: string): nat
    decreases |r|
  {
    if r == [] then 0
    else Occurrences(r[..|r| - 1], key) + (if r[|r| - 1].0 == key then 1 else 0)
  }

  /** Audit columns, empty values, the zero timestamp and zero numerals never reach the table: it is the table of the kept columns alone. */
  lemma {:induction false} HtmlIgnoresSkipped(r: Record, env: Env, cols: int)
    ensures HtmlRun(r, env, cols) == HtmlRun(Kept(r), env, cols)
    decreases |r|
  {
    if r != [] {
      var init, f := r[..|r| - 1], r[|r| - 1];
      assert r == init + [f];
      HtmlIgnoresSkipped(init, env, cols);
      if HtmlSkips(f) {
        HtmlRunSkip(init, f, env, cols);
        assert Kept(r) == Kept(init);
      } else {
        var st := HtmlRun(init, env, cols);
        var c := HtmlCellsOf(f, st.bps, st.bpd, env);
        HtmlRunColumn(init, f, env, cols, c);
        HtmlRunColumn(Kept(init), f, env, cols, c);
        assert Kept(r) == Kept(init) + [f];
      }
    }
  }

  /** The CSV line ignores audit columns and nothing else: every other column, empty or not, gets exactly one slot. */
  lemma {:induction false} CsvIgnoresAudit(r: Record, env: Env)
    ensures CsvRun(r, env) == CsvRun(WithoutAudit(r), env)
    ensures |CsvRun(r, env).cells| == |WithoutAudit(r)|
    decreases |r|
  {
    if r != [] {
      var init, f := r[..|r| - 1], r[|r| - 1];
      assert r == init + [f];
      CsvIgnoresAudit(init, env);
      if IsAuditKey(f.0) {
        CsvRunAudit(init, f, env);
        assert WithoutAudit(r) == WithoutAudit(init);
      } else {
        var st := CsvRun(init, env);
        var c := CsvCellOf(f, st.bps, st.bpd, env);
        CsvRunSlot(init, f, env, c);
        CsvRunSlot(WithoutAudit(init), f, env, c);
        assert WithoutAudit(r) == WithoutAudit(init) + [f];
      }
    }
  }

  /** The CSV text of a column does not depend on the unit setting: it is always "metric,US". */
  lemma CsvCellIgnoresUnits(f: Field, bps: string, bpd: string, env: Env, units: int)
    ensures CsvCellOf(f, bps, bpd, env) == CsvCellOf(f, bps, bpd, env.(units := units))
    ensures var caption := Humanize(f.0);
      var x := env.num.floatval(Shown(f.0, f.1));
      IsConvertible(KindOf(caption)) ==>
        CsvCellOf(f, bps, bpd, env).out == Some(MetricText(KindOf(caption), x, env) + "," + UsText(KindOf(caption), x, env))
  {
  }

  lemma {:induction false} CsvIgnoresUnits(r: Record, env: Env, units: int)
    ensures CsvRun(r, env) == CsvRun(r, env.(units := units))
    decreases |r|
  {
    if r != [] {
      var init, f := r[..|r| - 1], r[|r| - 1];
      var env' := env.(units := units);
      assert r == init + [f];
      CsvIgnoresUnits(init, env, units);
      if IsAuditKey(f.0) {
        CsvRunAudit(init, f, env);
        CsvRunAudit(init, f, env');
      } else {
        var st := CsvRun(init, env);
        var c := CsvCellOf(f, st.bps, st.bpd, env);
        CsvCellIgnoresUnits(f, st.bps, st.bpd, env, units);
        CsvRunSlot(init, f, env, c);
        CsvRunSlot(init, f, env', c);
      }
    }
  }

  /** The value the last visible column captioned `caption` showed, or "" before any. */
  function LastHalf(r: Record, caption: string, html: bool): string
    decreases |r|
  {
    if r == [] then ""
    else
      var f := r[|r| - 1];
      var hidden := if html then HtmlSkips(f) else IsAuditKey(f.0);
      if !hidden && Humanize(f.0) == caption then Shown(f.0, f.1)
      else LastHalf(r[..|r| - 1], caption, html)
  }

  /** A column replaces the half its caption names, and only that one. */
  lemma HalvesOf(f: Field, bps: string, bpd: string, env: Env)
    ensures var v, caption := Shown(f.0, f.1), Humanize(f.0);
      var c := HtmlCellsOf(f, bps, bpd, env);
      c.bps == (if caption == "Bps" then v else bps) && c.bpd == (if caption == "Bpd" then v else bpd)
    ensures var v, caption := Shown(f.0, f.1), Humanize(f.0);
      var c := CsvCellOf(f, bps, bpd, env);
      c.bps == (if caption == "Bps" then v else bps) && c.bpd == (if caption == "Bpd" then v else bpd)
  {
  }

  /** In the HTML mode, $bps and $bpd hold the last shown systolic and diastolic values. */
  lemma {:induction false} HtmlHalvesTrackLast(r: Record, env: Env, cols: int)
    ensures HtmlRun(r, env, cols).bps == LastHalf(r, "Bps", true)
    ensures HtmlRun(r, env, cols).bpd == LastHalf(r, "Bpd", true)
    decreases |r|
  {
    if r != [] {
      var init, f := r[..|r| - 1], r[|r| - 1];
      assert r == init + [f];
      HtmlHalvesTrackLast(init, env, cols);
      if HtmlSkips(f) {
        HtmlRunSkip(init, f, env, cols);
      } else {
        var st := HtmlRun(init, env, cols);
        var c := HtmlCellsOf(f, st.bps, st.bpd, env);
        HtmlRunColumn(init, f, env, cols, c);
        HalvesOf(f, st.bps, st.bpd, env);
      }
    }
  }

  /** In the CSV mode, the halves are those of the last non-audit columns, empty or not. */
  lemma {:induction false} CsvHalvesTrackLast(r: Record, env: Env)
    ensures CsvRun(r, env).bps == LastHalf(r, "Bps", false)
    ensures CsvRun(r, env).bpd == LastHalf(r, "Bpd", false)
    decreases |r|
  {
    if r != [] {
      var init, f := r[..|r| - 1], r[|r| - 1];
      assert r == init + [f];
      CsvHalvesTrackLast(init, env);
      if IsAuditKey(f.0) {
        CsvRunAudit(init, f, env);
      } else {
        var st := CsvRun(init, env);
        var c := CsvCellOf(f, st.bps, st.bpd, env);
        CsvRunSlot(init, f, env, c);
        HalvesOf(f, st.bps, st.bpd, env);
      }
    }
  }

  /** What a shown column writes: no blood-pressure cell unless both halves are non-empty, and a percentile only for a child. */
  lemma ColumnCells(f: Field, bps: string, bpd: string, env: Env)
    ensures var c := HtmlCellsOf(f, bps, bpd, env);
      c.out.Some? ==> forall i :: 0 <= i < |c.out.value| ==>
        && !c.out.value[i].RowBreak?
        && (c.out.value[i].BloodPressureCell? ==> BpComplete(c.out.value[i].systolic, c.out.value[i].diastolic))
        && (c.out.value[i].PercentileCell? ==> env.Pediatric())
        && (c.out.value[i].PlainCell? && c.out.value[i].caption == "BMI Status" && env.Pediatric() ==>
              c.out.value[i].value == "See Growth-Chart")
  {
  }

  /** A property of single items that every column's cells have and a row break has. */
  predicate Good(item: HtmlItem, env: Env)
  {
    && (item.BloodPressureCell? ==> BpComplete(item.systolic, item.diastolic))
    && (item.PercentileCell? ==> env.Pediatric())
    && (item.PlainCell? && item.caption == "BMI Status" && env.Pediatric() ==> item.value == "See Growth-Chart")
  }

  /**
   * Every item written is Good: a blood-pressure cell has both halves
   * non-empty, an adult sees no percentile, and a child's BMI Status reads
   * "See Growth-Chart".
   */
  lemma {:induction false} AllItemsGood(r: Record, env: Env, cols: int)
    ensures var items := HtmlRun(r, env, cols).items;
      forall i :: 0 <= i < |items| ==> Good(items[i], env)
    decreases |r|
  {
    if r != [] {
      var init, f := r[..|r| - 1], r[|r| - 1];
      assert r == init + [f];
      AllItemsGood(init, env, cols);
      if HtmlSkips(f) {
        HtmlRunSkip(init, f, env, cols);
      } else {
        var st := HtmlRun(init, env, cols);
        var c := HtmlCellsOf(f, st.bps, st.bpd, env);
        HtmlRunColumn(init, f, env, cols, c);
        ColumnCells(f, st.bps, st.bpd, env);
        if c.out.Some? {
          var grown := st.items + c.out.value;
          assert forall i :: 0 <= i < |grown| ==> Good(grown[i], env);
          assert forall i :: 0 <= i < |grown + [RowBreak]| ==> Good((grown + [RowBreak])[i], env);
        }
      }
    }
  }

  /** A blood-pressure cell is written only with both halves non-empty. */
  lemma BloodPressureCellsComplete(r: Record, env: Env, cols: int)
    ensures var items := HtmlRun(r, env, cols).items;
      forall i :: 0 <= i < |items| && items[i].BloodPressureCell? ==> BpComplete(items[i].systolic, items[i].diastolic)
  {
    AllItemsGood(r, env, cols);
  }

  /** For an adult, no percentile cell is ever written. */
  lemma AdultsSeeNoPercentile(r: Record, env: Env, cols: int)
    requires !env.Pediatric()
    ensures var items := HtmlRun(r, env, cols).items;
      forall i :: 0 <= i < |items| ==> !items[i].PercentileCell?
  {
    AllItemsGood(r, env, cols);
  }

  /** For a pediatric patient, every BMI Status cell reads "See Growth-Chart". */
  lemma PediatricBmiStatus(r: Record, env: Env, cols: int)
    requires env.Pediatric()
    ensures var items := HtmlRun(r, env, cols).items;
      forall i :: 0 <= i < |items| && items[i].PlainCell? && items[i].caption == "BMI Status" ==>
        items[i].value == "See Growth-Chart"
  {
    AllItemsGood(r, env, cols);
  }

  /** In the CSV line, a percentile of an adult writes no text (its cell stays empty), and BMI Status of a child reads "See Growth-Chart". */
  lemma PediatricSlots(f: Field, bps: string, bpd: string, env: Env)
    ensures !env.Pediatric() && KindOf(Humanize(f.0)).Percentile? ==> CsvCellOf(f, bps, bpd, env).out == None
    ensures env.Pediatric() && Humanize(f.0) == "BMI Status" ==> CsvCellOf(f, bps, bpd, env).out == Some("See Growth-Chart")
  {
  }

  /**
   * At a shown blood-pressure column, the single "systolic/diastolic" cell is
   * written when both last halves are non-empty; otherwise nothing is written
   * and the column is not counted.
   */
  lemma BloodPressureAt(r: Record, f: Field, env: Env, cols: int)
    requires !HtmlSkips(f) && KindOf(Humanize(f.0)) == BloodPressure
    ensures
      var before, after := HtmlRun(r, env, cols), HtmlRun(r + [f], env, cols);
      var s, d := LastHalf(r + [f], "Bps", true), LastHalf(r + [f], "Bpd", true);
      && (BpComplete(s, d) ==>
            |after.items| > |before.items| && after.items[..|before.items|] == before.items
            && after.items[|before.items|] == BloodPressureCell(s, d))
      && (!BpComplete(s, d) ==> after.items == before.items && after.count == before.count)
  {
    var before := HtmlRun(r, env, cols);
    var c := HtmlCellsOf(f, before.bps, before.bpd, env);
    HtmlRunColumn(r, f, env, cols, c);
    HtmlHalvesTrackLast(r + [f], env, cols);
    HalvesOf(f, before.bps, before.bpd, env);
    if c.out.Some? {
      var grown := before.items + c.out.value;
      assert grown[..|before.items|] == before.items;
      assert (grown + [RowBreak])[..|before.items|] == before.items;
    }
  }

  /** The HTML items other than row breaks. */
  function Cells(items: seq<HtmlItem>): (cs: seq<HtmlItem>)
    ensures |cs| <= |items|
    decreases |items|
  {
    if items == [] then []
    else Cells(items[..|items| - 1]) + (if items[|items| - 1].RowBreak? then [] else [items[|items| - 1]])
  }

  function Breaks(items: seq<HtmlItem>): nat
    decreases |items|
  {
    if items == [] then 0
    else Breaks(items[..|items| - 1]) + (if items[|items| - 1].RowBreak? then 1 else 0)
  }

  lemma {:induction false} CellsAppend(a: seq<HtmlItem>, b: seq<HtmlItem>)
    ensures Cells(a + b) == Cells(a) + Cells(b)
    ensures Breaks(a + b) == Breaks(a) + Breaks(b)
    decreases |b|
  {
    if b == [] {
      assert a + b == a;
    } else {
      var ab := a + b;
      assert ab[..|ab| - 1] == a + b[..|b| - 1];
      CellsAppend(a, b[..|b| - 1]);
    }
  }

  /** Items holding no row break are their own cells. */
  lemma {:induction false} NoBreaks(items: seq<HtmlItem>)
    requires forall i :: 0 <= i < |items| ==> !items[i].RowBreak?
    ensures Cells(items) == items && Breaks(items) == 0
    decreases |items|
  {
    if items != [] {
      var init := items[..|items| - 1];
      assert forall i :: 0 <= i < |init| ==> init[i] == items[i];
      NoBreaks(init);
      assert init + [items[|items| - 1]] == items;
    }
  }

  lemma RowBreakCells()
    ensures Cells([RowBreak]) == [] && Breaks([RowBreak]) == 1
  {
    assert [RowBreak][..0] == [];
  }

  lemma DivModUnique(m: int, cols: int, q: int, c: int)
    requires 0 <= c < cols && m == q * cols + c
    ensures m / cols == q && m % cols == c
  {
    var q', c' := m / cols, m % cols;
    assert (q - q') * cols == c' - c;
    if q > q' {
      MulAtLeast(q - q', cols);
    } else if q < q' {
      MulAtLeast(q' - q, cols);
    }
  }

  lemma MulAtLeast(k: int, cols: int)
    requires k >= 1 && cols > 0
    ensures k * cols >= cols
  {
    assert k * cols == (k - 1) * cols + cols;
  }

  /** A wrapped state agrees with the unwrapped one it came from. */
  predicate Wraps(w: HtmlState, n: HtmlState, cols: int)
    requires cols > 0
  {
    && n.count >= 0 && Breaks(n.items) == 0
    && Cells(w.items) == n.items && w.count == n.count % cols && Breaks(w.items) == n.count / cols
    && w.bps == n.bps && w.bpd == n.bpd
  }

  lemma TallyWraps(w: HtmlState, n: HtmlState, cells: seq<HtmlItem>, bps: string, bpd: string, cols: int)
    requires cols > 0 && Wraps(w, n, cols)
    requires Cells(cells) == cells && Breaks(cells) == 0
    ensures Wraps(Tally(HtmlState(w.items + cells, w.count, bps, bpd), cols),
                  Tally(HtmlState(n.items + cells, n.count, bps, bpd), 0), cols)
  {
    var wi, ni := w.items + cells, n.items + cells;
    CellsAppend(w.items, cells);
    CellsAppend(n.items, cells);
    DivModSucc(n.count, cols);
    var n' := HtmlState(ni, n.count + 1, bps, bpd);
    assert Tally(HtmlState(ni, n.count, bps, bpd), 0) == n';
    if w.count + 1 == cols {
      CellsAppend(wi, [RowBreak]);
      RowBreakCells();
      var w' := HtmlState(wi + [RowBreak], 0, bps, bpd);
      assert Tally(HtmlState(wi, w.count, bps, bpd), cols) == w';
      assert Cells(w'.items) == n'.items;
      assert Breaks(w'.items) == n'.count / cols;
      assert w'.count == n'.count % cols;
    } else {
      var w' := HtmlState(wi, w.count + 1, bps, bpd);
      assert Tally(HtmlState(wi, w.count, bps, bpd), cols) == w';
      assert Cells(w'.items) == n'.items;
      assert Breaks(w'.items) == n'.count / cols;
      assert w'.count == n'.count % cols;
    }
  }

  /** Counting one more column: the remainder steps, wrapping to 0 as the quotient steps. */
  lemma DivModSucc(x: int, cols: int)
    requires cols > 0
    ensures (x + 1) % cols == (if x % cols + 1 == cols then 0 else x % cols + 1)
    ensures (x + 1) / cols == (if x % cols + 1 == cols then x / cols + 1 else x / cols)
  {
    var q, m := x / cols, x % cols;
    assert x == q * cols + m;
    if m + 1 == cols {
      assert x + 1 == (q + 1) * cols + 0;
      DivModUnique(x + 1, cols, q + 1, 0);
    } else {
      DivModUnique(x + 1, cols, q, m + 1);
    }
  }

  /**
   * Wrapping only inserts row breaks: with `cols` > 0 the table holds the
   * cells it would hold unwrapped (cols 0), $count is the number of counted
   * columns modulo `cols`, and one break follows every `cols`-th counted column.
   */
  lemma {:induction false} RowWrapping(r: Record, env: Env, cols: int)
    requires cols > 0
    ensures Wraps(HtmlRun(r, env, cols), HtmlRun(r, env, 0), cols)
    decreases |r|
  {
    if r == [] {
      assert Cells([]) == [] && Breaks([]) == 0;
    } else {
      var init, f := r[..|r| - 1], r[|r| - 1];
      assert r == init + [f];
      RowWrapping(init, env, cols);
      if HtmlSkips(f) {
        HtmlRunSkip(init, f, env, cols);
        HtmlRunSkip(init, f, env, 0);
      } else {
        var w, n := HtmlRun(init, env, cols), HtmlRun(init, env, 0);
        var c := HtmlCellsOf(f, w.bps, w.bpd, env);
        HtmlRunColumn(init, f, env, cols, c);
        HtmlRunColumn(init, f, env, 0, c);
        if c.out.Some? {
          ColumnCells(f, w.bps, w.bpd, env);
          NoBreaks(c.out.value);
          TallyWraps(w, n, c.out.value, c.bps, c.bpd, cols);
        }
      }
    }
  }

  /** With `cols` 0 or negative the count never meets it: the table is the unwrapped one, with no row break. */
  lemma {:induction false} NoWrapping(r: Record, env: Env, cols: int)
    requires cols <= 0
    ensures HtmlRun(r, env, cols) == HtmlRun(r, env, 0)
    ensures HtmlRun(r, env, cols).count >= 0 && Breaks(HtmlRun(r, env, cols).items) == 0
    decreases |r|
  {
    if r != [] {
      var init, f := r[..|r| - 1], r[|r| - 1];
      assert r == init + [f];
      NoWrapping(init, env, cols);
      if HtmlSkips(f) {
        HtmlRunSkip(init, f, env, cols);
        HtmlRunSkip(init, f, env, 0);
      } else {
        var n := HtmlRun(init, env, 0);
        var c := HtmlCellsOf(f, n.bps, n.bpd, env);
        HtmlRunColumn(init, f, env, cols, c);
        HtmlRunColumn(init, f, env, 0, c);
        if c.out.Some? {
          ColumnCells(f, n.bps, n.bpd, env);
          NoBreaks(c.out.value);
          TallyUnwrapped(n, c.out.value, c.bps, c.bpd, cols);
        }
      }
    }
  }

  lemma TallyUnwrapped(n: HtmlState, cells: seq<HtmlItem>, bps: string, bpd: string, cols: int)
    requires cols <= 0 && n.count >= 0 && Breaks(n.items) == 0 && Breaks(cells) == 0
    ensures var t := Tally(HtmlState(n.items + cells, n.count, bps, bpd), cols);
      t == Tally(HtmlState(n.items + cells, n.count, bps, bpd), 0) && t.count >= 0 && Breaks(t.items) == 0
  {
    CellsAppend(n.items, cells);
  }

  /** The header has a cell for every non-audit column except bps. */
  lemma {:induction false} HeaderCount(r: Record)
    ensures |HeaderLabels(r)| + Occurrences(r, "bps") == |WithoutAudit(r)|
    decreases |r|
  {
    if r != [] {
      HeaderCount(r[..|r| - 1]);
    }
  }

  /** A convertible measurement shows its US and metric texts in the unit layout, and exports "metric,US". */
  lemma MeasurementCells(f: Field, bps: string, bpd: string, env: Env)
    requires IsConvertible(KindOf(Humanize(f.0)))
    ensures var caption := Humanize(f.0);
      var kind := KindOf(caption);
      var x := env.num.floatval(Shown(f.0, f.1));
      && HtmlCellsOf(f, bps, bpd, env).out == Some([Cell(caption, VitalsUnits.Layout(env.units, UsText(kind, x, env), MetricText(kind, x, env)))])
      && CsvCellOf(f, bps, bpd, env).out == Some(MetricText(kind, x, env) + "," + UsText(kind, x, env))
  {
  }

  lemma BloodPressureKeys()
    ensures Humanize("bps") == "Bps" && Humanize("bpd") == "Bpd" && Humanize("weight") == "Weight"
  {
    assert UnderscoresToSpaces("bps") == "bps";
    assert UnderscoresToSpaces("bpd") == "bpd";
    assert UnderscoresToSpaces("weight") == "weight";
  }

  /**
   * The weight column: kilograms (pounds times 0.45359237, two decimals) and
   * US_weight, laid out as the unit setting says in HTML and as "kg,US" in one
   * CSV cell whatever the setting.
   */
  lemma WeightCells(value: string, bps: string, bpd: string, env: Env)
    ensures var x := env.num.floatval(OnAsYes(value));
      var metric := env.num.numberFormat(x * 0.45359237, 2) + " kg";
      var us := if env.intended then VitalsUnits.USWeightCarried(x, env.weightFormat, env.num)
                else VitalsUnits.USWeight(x, env.weightFormat, env.num);
      && HtmlCellsOf(("weight", value), bps, bpd, env).out == Some([Cell("Weight", VitalsUnits.Layout(env.units, us, metric))])
      && CsvCellOf(("weight", value), bps, bpd, env).out == Some(metric + "," + us)
  {
    BloodPressureKeys();
    MeasurementCells(("weight", value), bps, bpd, env);
  }

  /**
   * The first finding at the level of the report: as written, a weight of
   * 150.97 lb in the "lb oz" format shows and exports as "150 lb 16 oz";
   * with the ounces carried it reads "151 lb 0 oz".
   */
  lemma WeightOf150_97(value: string, bps: string, bpd: string, env: Env)
    requires env.weightFormat == 2 && env.num.floatval(OnAsYes(value)) == 150.97
    ensures var metric := env.num.numberFormat(150.97 * 0.45359237, 2) + " kg";
      var us := if env.intended then "151 lb 0 oz" else "150 lb 16 oz";
      && HtmlCellsOf(("weight", value), bps, bpd, env).out == Some([Cell("Weight", VitalsUnits.Layout(env.units, us, metric))])
      && CsvCellOf(("weight", value), bps, bpd, env).out == Some(metric + "," + us)
  {
    WeightCells(value, bps, bpd, env);
    VitalsUnits.SixteenOunces(env.num);
    VitalsUnits.CarriedOf150_97(env.num);
  }

  /** The height column: centimetres (inches times 2.54 rounded to one decimal, shown with two) and inches. */
  lemma HeightCells(value: string, bps: string, bpd: string, env: Env)
    ensures var x := env.num.floatval(OnAsYes(value));
      var metric := env.num.numberFormat(env.num.round(x * 2.54, 1), 2) + " cm";
      var us := env.num.show(x) + " in";
      && HtmlCellsOf(("height", value), bps, bpd, env).out == Some([Cell("Height", VitalsUnits.Layout(env.units, us, metric))])
      && CsvCellOf(("height", value), bps, bpd, env).out == Some(metric + "," + us)
  {
    HeightCaption();
    MeasurementCells(("height", value), bps, bpd, env);
  }

  /** The temperature column: Celsius ((F - 32) times 0.5556, two decimals) and Fahrenheit. */
  lemma TemperatureCells(value: string, bps: string, bpd: string, env: Env)
    ensures var x := env.num.floatval(OnAsYes(value));
      var metric := env.num.numberFormat((x - 32.0) * 0.5556, 2) + " C";
      var us := env.num.show(x) + " F";
      && HtmlCellsOf(("temperature", value), bps, bpd, env).out == Some([Cell("Temperature", VitalsUnits.Layout(env.units, us, metric))])
      && CsvCellOf(("temperature", value), bps, bpd, env).out == Some(metric + "," + us)
  {
    TemperatureCaption();
    assert Shown("temperature", value) == OnAsYes(value);
    MeasurementCells(("temperature", value), bps, bpd, env);
    var x := env.num.floatval(OnAsYes(value));
    assert UsText(Temperature, x, env) == env.num.show(x) + " F";
    assert MetricText(Temperature, x, env) == env.num.numberFormat((x - 32.0) * 0.5556, 2) + " C";
  }

  /** Pulse in whole beats per minute, in either mode. */
  lemma PulseCells(value: string, bps: string, bpd: string, env: Env)
    ensures var x := env.num.floatval(OnAsYes(value));
      && HtmlCellsOf(("pulse", value), bps, bpd, env).out == Some([Cell("Pulse", env.num.numberFormat(x, 0) + " per min")])
      && CsvCellOf(("pulse", value), bps, bpd, env).out == Some(env.num.numberFormat(x, 0) + " per min")
  {
    PulseCaption();
  }

  /** The caption and the branch of the height column. */
  lemma HeightCaption()
    ensures Humanize("height") == "Height" && KindOf("Height") == Length
  {
    assert UnderscoresToSpaces("height") == "height";
  }

  lemma TemperatureCaption()
    ensures Humanize("temperature") == "Temperature" && KindOf("Temperature") == Temperature
  {
    TemperatureLabel();
    TemperatureKind();
  }

  lemma TemperatureLabel()
    ensures Humanize("temperature") == "Temperature"
  {
    assert UnderscoresToSpaces("temperature") == "temperature";
  }

  lemma TemperatureKind()
    ensures KindOf("Temperature") == Temperature
  {
    assert "Temperature"[4] != "Temp Method"[4];
  }

  lemma PulseCaption()
    ensures Humanize("pulse") == "Pulse" && KindOf("Pulse") == PerMinute
  {
    assert UnderscoresToSpaces("pulse") == "pulse";
  }

  /**
   * As written, the blank-cell guard `!$key == "Bps"` never holds for a
   * blood-pressure caption; the intended `$key != "Bps"` holds exactly for Bpd.
   */
  lemma BlankGuardAsWritten(caption: string)
    requires KindOf(caption) == BloodPressure
    ensures !BlankBpGuard(caption, false)
    ensures BlankBpGuard(caption, true) <==> caption == "Bpd"
  {
  }

  /**
   * The slots a systolic then a diastolic column leave: nothing for the
   * systolic one, and text for the diastolic one when the guard is the
   * intended one; as written, nothing for either when both are empty.
   */
  lemma LeadingBloodPressure(f1: Field, f2: Field, env: Env)
    requires f1.0 == "bps" && f2.0 == "bpd"
    ensures var cells := CsvRun([f1, f2], env).cells;
      && |cells| == 2 && cells[0] == None
      && (env.intended ==> cells[1].Some?)
      && (f1.1 == "" && f2.1 == "" ==> cells[1] == if env.intended then Some("") else None)
  {
    SystolicFirst(f1, env);
    var v1 := CsvRun([f1], env).bps;
    assert [f1, f2] == [f1] + [f2];
    CsvRunSlot([f1], f2, env, CsvCellOf(f2, v1, "", env));
    HalfCell(f2, v1, "", env);
  }

  /** A leading systolic column writes nothing and keeps its value. */
  lemma SystolicFirst(f: Field, env: Env)
    requires f.0 == "bps"
    ensures CsvRun([f], env) == CsvState([None], Shown(f.0, f.1), "")
  {
    assert [f] == [] + [f];
    CsvRunSlot([], f, env, CsvCellOf(f, "", "", env));
    HalfCell(f, "", "", env);
  }

  /**
   * A systolic or diastolic column stores its value in its half and writes
   * the joined pressure once both halves are set; otherwise the blank cell
   * only under the intended guard and only for the diastolic half.
   */
  lemma HalfCell(f: Field, bps: string, bpd: string, env: Env)
    requires f.0 == "bps" || f.0 == "bpd"
    ensures var v := Shown(f.0, f.1);
      var h := if f.0 == "bps" then (v, bpd) else (bps, v);
      CsvCellOf(f, bps, bpd, env) ==
        Column(if BpComplete(h.0, h.1) then Some(h.0 + "/" + h.1) else if env.intended && f.0 == "bpd" then Some("") else None, h.0, h.1)
  {
    BloodPressureKeys();
  }

  lemma ThreeColumnHeader(r: Record)
    requires r == [("bps", ""), ("bpd", ""), ("weight", "150")]
    ensures |HeaderLabels(r)| == 2
  {
    assert r[..2] == [("bps", ""), ("bpd", "")] && r[..2][..1] == [("bps", "")] && r[..2][..1][..0] == [];
    assert HeaderLabels(r[..2][..1]) == [];
    assert HeaderLabels(r[..2]) == ["Blood Pressure"];
    assert HeaderLabels(r) == ["Blood Pressure", HeaderLabel("weight")];
  }

  /** The slots of an empty blood pressure followed by a weight. */
  lemma EmptyPressureThenWeight(env: Env)
    ensures var cells := CsvRun([("bps", ""), ("bpd", ""), ("weight", "150")], env).cells;
      |cells| == 3 && cells[0] == None && cells[1] == (if env.intended then Some("") else None) && cells[2].Some?
  {
    var bp: Record := [("bps", ""), ("bpd", "")];
    var f := ("weight", "150");
    assert bp + [f] == [("bps", ""), ("bpd", ""), ("weight", "150")];
    BloodPressureKeys();
    LeadingBloodPressure(bp[0], bp[1], env);
    var st := CsvRun(bp, env);
    CsvRunSlot(bp, f, env, CsvCellOf(f, st.bps, st.bpd, env));
  }

  /**
   * As written, a vitals row whose blood pressure is empty writes one cell
   * fewer than its header: the header reads Blood Pressure, Weight while the
   * value line holds the weight alone.
   */
  lemma AsWrittenRowLosesBloodPressure(env: Env)
    ensures var r: Record := [("bps", ""), ("bpd", ""), ("weight", "150")];
      && |HeaderLabels(r)| == 2
      && |DropLeadingNone(CsvRun(r, env.(intended := false)).cells)| == 1
      && |DropLeadingNone(CsvRun(r, env.(intended := true)).cells)| == 2
  {
    var r: Record := [("bps", ""), ("bpd", ""), ("weight", "150")];
    ThreeColumnHeader(r);
    EmptyPressureThenWeight(env.(intended := false));
    EmptyPressureThenWeight(env.(intended := true));
    var written := CsvRun(r, env.(intended := false)).cells;
    assert DropLeadingNone(written) == DropLeadingNone(written[1..]) == DropLeadingNone(written[1..][1..]) == written[1..][1..];
    var intended := CsvRun(r, env.(intended := true)).cells;
    assert DropLeadingNone(intended) == intended[1..];
  }

  /** The slots of a record without audit columns: one per column, and those of a prefix are a prefix. */
  lemma {:induction false} CsvPrefix(na: Record, k: nat, env: Env)
    requires k <= |na| && forall i :: 0 <= i < |na| ==> !IsAuditKey(na[i].0)
    ensures |CsvRun(na, env).cells| == |na|
    ensures CsvRun(na, env).cells[..k] == CsvRun(na[..k], env).cells
    decreases |na|
  {
    if na != [] {
      var init, f := na[..|na| - 1], na[|na| - 1];
      assert na == init + [f];
      var st := CsvRun(init, env);
      CsvRunSlot(init, f, env, CsvCellOf(f, st.bps, st.bpd, env));
      if k == |na| {
        CsvPrefix(init, 0, env);
        assert na[..k] == na;
      } else {
        CsvPrefix(init, k, env);
        assert na[..k] == init[..k];
      }
    }
  }

  /**
   * With the intended guard, a row whose first non-audit columns are bps then
   * bpd (bps appearing once) writes exactly one value per header cell, and the
   * value line reads back as that many CSV fields.
   */
  lemma CorrectedRowMatchesHeader(r: Record, env: Env)
    requires env.intended
    requires var na := WithoutAudit(r); |na| >= 2 && na[0].0 == "bps" && na[1].0 == "bpd"
    requires Occurrences(r, "bps") == 1
    ensures |DropLeadingNone(CsvRun(r, env).cells)| == |HeaderLabels(r)|
    ensures Csv.ParseRow(RowText(CsvRun(r, env).cells)).Some?
    ensures |Csv.ParseRow(RowText(CsvRun(r, env).cells)).value| == |HeaderLabels(r)|
  {
    var cells := CsvRun(r, env).cells;
    CorrectedSlots(r, env);
    HeaderCount(r);
    Csv.ParseJoin(AsFields(cells[1..]));
  }

  /** The slots of such a row: none for bps, then one per other non-audit column, the first written. */
  lemma CorrectedSlots(r: Record, env: Env)
    requires env.intended
    requires var na := WithoutAudit(r); |na| >= 2 && na[0].0 == "bps" && na[1].0 == "bpd"
    ensures var cells := CsvRun(r, env).cells;
      |cells| == |WithoutAudit(r)| && DropLeadingNone(cells) == cells[1..] && cells[1].Some?
  {
    var na := WithoutAudit(r);
    CsvIgnoresAudit(r, env);
    FirstSlots(na, env);
    var cells := CsvRun(na, env).cells;
    assert DropLeadingNone(cells) == cells[1..];
  }

  lemma FirstSlots(na: Record, env: Env)
    requires env.intended
    requires forall i :: 0 <= i < |na| ==> !IsAuditKey(na[i].0)
    requires |na| >= 2 && na[0].0 == "bps" && na[1].0 == "bpd"
    ensures var cells := CsvRun(na, env).cells;
      |cells| == |na| && cells[0] == None && cells[1].Some?
  {
    CsvPrefix(na, 2, env);
    var first := na[..2];
    assert first == [first[0], first[1]];
    LeadingBloodPressure(first[0], first[1], env);
    var cells := CsvRun(na, env).cells;
    var two := CsvRun(first, env).cells;
    assert cells[0] == two[0] && cells[1] == two[1];
  }
}
