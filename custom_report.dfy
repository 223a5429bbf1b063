/**
 * The request handling of the patient custom report
 * (interface/patient_file/report/custom_report.php): the output settings
 * read from the request, the file name of a saved report, the parser for
 * the `<formdir>_<formid>` checkbox keys, and the order in which each
 * posted key is routed to a section of the report.
 */
module CustomReport {
  import opened Options
  import opened Text

  // ---------------------------------------------------------------------
  // Output settings
  // ---------------------------------------------------------------------

  /** How the report is produced, as settled before any section is written. */
  datatype Settings = Settings(pdf: bool, fax: bool, printable: bool, csv: bool, columns: nat)

  /**
   * `pdf` and `fax` are the integer values of the posted fields (0 when the
   * field is absent or empty); `printable` and `csv` are the query fields as
   * text ("" when absent). A fax is always sent as PDF, a PDF is always the
   * printable version, and the insurance and form tables have 4 columns in a
   * PDF and 6 otherwise.
   */
  function OutputSettings(pdf: int, fax: int, printable: string, csv: string): (s: Settings)
    ensures s.pdf <==> pdf != 0 || fax != 0
    ensures s.fax <==> fax != 0
    ensures s.printable <==> s.pdf || !PhpEmpty(printable)
    ensures s.csv <==> !PhpEmpty(csv)
    ensures s.columns == (if s.pdf then 4 else 6)
  {
    var asPdf := pdf != 0 || fax != 0;
    Settings(asPdf, fax != 0, asPdf || !PhpEmpty(printable), !PhpEmpty(csv), if asPdf then 4 else 6)
  }

  /** The implications the settings keep whatever is requested. */
  lemma SettingsChain(pdf: int, fax: int, printable: string, csv: string)
    ensures var s := OutputSettings(pdf, fax, printable, csv);
      (s.fax ==> s.pdf) && (s.pdf ==> s.printable) && (s.pdf <==> s.columns == 4) && (s.columns == 4 || s.columns == 6)
  {
  }

  // ---------------------------------------------------------------------
  // report_basename
  // ---------------------------------------------------------------------

  /** The characters removed from the patient's name in a file name. */
  predicate NamePunctuation(c: char)
  {
    c == '.' || c == ',' || c == ' '
  }

  /** str_replace(['.', ',', ' '], '', s) */
  function StripNamePunctuation(s: string): (r: string)
    ensures |r| <= |s|
    ensures forall i :: 0 <= i < |r| ==> !NamePunctuation(r[i])
    decreases |s|
  {
    if s == [] then ""
    else StripNamePunctuation(s[..|s| - 1]) + (if NamePunctuation(s[|s| - 1]) then "" else [s[|s| - 1]])
  }

  /** The stripped name keeps every other character, in order of occurrence, and nothing else. */
  lemma {:induction false} StripKeepsOthers(s: string)
    ensures forall c :: c in StripNamePunctuation(s) <==> c in s && !NamePunctuation(c)
    decreases |s|
  {
    if s != [] {
      var init := s[..|s| - 1];
      StripKeepsOthers(init);
      assert s == init + [s[|s| - 1]];
    }
  }

  /** Stripping twice strips nothing more. */
  lemma {:induction false} StripIdempotent(s: string)
    ensures StripNamePunctuation(StripNamePunctuation(s)) == StripNamePunctuation(s)
    decreases |s|
  {
    var r := StripNamePunctuation(s);
    StripClean(r);
  }

  lemma {:induction false} StripClean(r: string)
    requires forall i :: 0 <= i < |r| ==> !NamePunctuation(r[i])
    ensures StripNamePunctuation(r) == r
    decreases |r|
  {
    if r != [] {
      var init := r[..|r| - 1];
      StripClean(init);
      assert r == init + [r[|r| - 1]];
    }
  }

  /** What report_basename returns: the file name and the name fields it was made from. */
  datatype Basename = Basename(base: string, fname: string, lname: string)

  predicate NoPunctuation(s: string)
  {
    forall i :: 0 <= i < |s| ==> !NamePunctuation(s[i])
  }

  /**
   * The text handed to basename_international: "<fname>_<lname>" without
   * periods, commas and spaces, then "_<pid>_report", all lower-cased.
   */
  function BasenameArgument(fname: string, lname: string, pid: int): string
  {
    LowerStr(StripNamePunctuation(fname + "_" + lname) + "_" + IntToString(pid) + "_report")
  }

  /** The file name holds no upper-case letter, period, comma or space, and ends in "_report". */
  lemma BasenameShape(fname: string, lname: string, pid: int)
    ensures var arg := BasenameArgument(fname, lname, pid);
      |arg| >= 7 && arg[|arg| - 7..] == "_report" &&
      forall i :: 0 <= i < |arg| ==> !('A' <= arg[i] <= 'Z') && !NamePunctuation(arg[i])
  {
    var raw := StripNamePunctuation(fname + "_" + lname) + "_" + IntToString(pid) + "_report";
    RawPlain(fname, lname, pid);
    LowerPlain(raw);
    LowerSuffix(raw, "_report");
  }

  /** Before lower-casing, the argument holds no period, comma or space. */
  lemma RawPlain(fname: string, lname: string, pid: int)
    ensures NoPunctuation(StripNamePunctuation(fname + "_" + lname) + "_" + IntToString(pid) + "_report")
  {
    var name := StripNamePunctuation(fname + "_" + lname);
    var number := IntToString(pid);
    var raw := name + "_" + number + "_report";
    IntPlain(pid);
    forall i | 0 <= i < |raw| ensures !NamePunctuation(raw[i]) {
      if i < |name| {
        assert raw[i] == name[i];
      } else if i > |name| && i < |name| + 1 + |number| {
        assert raw[i] == number[i - |name| - 1];
      }
    }
  }

  /** A suffix without upper-case letters survives lower-casing. */
  lemma LowerSuffix(s: string, suffix: string)
    requires |suffix| <= |s| && s[|s| - |suffix|..] == suffix && LowerStr(suffix) == suffix
    ensures LowerStr(s)[|s| - |suffix|..] == suffix
  {
    var n := |s| - |suffix|;
    forall k | 0 <= k < |suffix| ensures LowerStr(s)[n..][k] == suffix[k] {
      assert LowerStr(s)[n + k] == Lower(s[n + k]);
      assert s[n + k] == suffix[k];
      assert LowerStr(suffix)[k] == Lower(suffix[k]);
    }
  }

  lemma IntPlain(n: int)
    ensures NoPunctuation(IntToString(n))
  {
    var r := IntToString(n);
    forall i | 0 <= i < |r| ensures !NamePunctuation(r[i]) {
      if n < 0 && i > 0 {
        assert r[i] == NatToString(-n)[i - 1];
      }
    }
  }

  lemma LowerPlain(s: string)
    requires NoPunctuation(s)
    ensures forall i :: 0 <= i < |s| ==> !('A' <= LowerStr(s)[i] <= 'Z') && !NamePunctuation(LowerStr(s)[i])
  {
  }

  /** report_basename; basename_international is a library function not part of this model, given as a parameter. */
  function ReportBasename(fname: string, lname: string, pid: int, basename: string -> string): (b: Basename)
    ensures b.base == basename(BasenameArgument(fname, lname, pid))
    ensures b.fname == fname && b.lname == lname
  {
    Basename(basename(BasenameArgument(fname, lname, pid)), fname, lname)
  }

  // ---------------------------------------------------------------------
  // Form keys: preg_match('/^(.*)_(\d+)$/', key)
  // ---------------------------------------------------------------------

  /** A key that names a form: its directory and its numeric id, as text. */
  datatype FormKey = FormKey(dir: string, id: string)

  predicate NoNewline(s: string)
  {
    forall i :: 0 <= i < |s| ==> s[i] != '\n'
  }

  /** The directory and id the pattern can capture: `.` stops at a line feed, `\d+` is one or more ASCII digits. */
  predicate WellFormed(fk: FormKey)
  {
    NoNewline(fk.dir) && |fk.id| > 0 && AllDigits(fk.id)
  }

  function KeyText(fk: FormKey): string
  {
    fk.dir + "_" + fk.id
  }

  /** The position of the last '_' in s. */
  function LastUnderscore(s: string): (r: Option<nat>)
    ensures r.None? ==> forall i :: 0 <= i < |s| ==> s[i] != '_'
    ensures r.Some? ==> r.value < |s| && s[r.value] == '_' && forall i :: r.value < i < |s| ==> s[i] != '_'
    decreases |s|
  {
    if s == [] then None
    else if s[|s| - 1] == '_' then Some(|s| - 1)
    else LastUnderscore(s[..|s| - 1])
  }

  /**
   * The captures of the pattern, or None when it does not match. The greedy
   * `(.*)` makes the split fall at the last '_', and `$` also matches
   * before a final line feed.
   */
  function ParseFormKey(key: string): (r: Option<FormKey>)
    ensures r.Some? ==> WellFormed(r.value)
    ensures r.Some? ==> key == KeyText(r.value) || key == KeyText(r.value) + "\n"
  {
    var body := if |key| > 0 && key[|key| - 1] == '\n' then key[..|key| - 1] else key;
    match LastUnderscore(body)
    case None => None
    case Some(p) =>
      var fk := FormKey(body[..p], body[p + 1..]);
      if WellFormed(fk) then
        assert body == KeyText(fk);
        Some(fk)
      else None
  }

  /** Every key the report page writes for a form parses back to its directory and id, with or without a final line feed. */
  lemma FormKeyRoundTrip(fk: FormKey)
    requires WellFormed(fk)
    ensures ParseFormKey(KeyText(fk)) == Some(fk)
    ensures ParseFormKey(KeyText(fk) + "\n") == Some(fk)
  {
    var key := KeyText(fk);
    LastIsSeparator(fk.dir, fk.id);
    assert key[..|fk.dir|] == fk.dir && key[|fk.dir| + 1..] == fk.id;
    var nl := key + "\n";
    assert nl[..|nl| - 1] == key;
  }

  lemma {:induction false} LastIsSeparator(dir: string, id: string)
    requires forall i :: 0 <= i < |id| ==> id[i] != '_'
    ensures LastUnderscore(dir + "_" + id) == Some(|dir|)
    decreases |id|
  {
    var key := dir + "_" + id;
    if id == [] {
      assert key[..|key| - 1] == dir;
    } else {
      assert key[..|key| - 1] == dir + "_" + id[..|id| - 1];
      LastIsSeparator(dir, id[..|id| - 1]);
    }
  }

  /** A key with no '_', or whose text after its last '_' is not all digits, is not a form key. */
  lemma NonFormKeys(key: string)
    requires |key| > 0 && key[|key| - 1] != '\n'
    requires LastUnderscore(key).None? || !AllDigits(key[LastUnderscore(key).value + 1..])
    ensures ParseFormKey(key).None?
  {
  }

  // ---------------------------------------------------------------------
  // Routing of the posted keys
  // ---------------------------------------------------------------------

  /** The section a posted key selects. */
  datatype Section = Skipped | Include | Documents | Procedures | Issue | EncounterForm

  /** Lower-casing maps '_' only from '_'. */
  lemma LowerUnderscore(c: char)
    ensures Lower(c) == '_' <==> c == '_'
  {
  }

  /** "include_" cannot occur, in any case, in a text with no '_' from position 7 on. */
  lemma NoInclude(s: string)
    requires forall i :: 7 <= i < |s| ==> s[i] != '_'
    ensures !ContainsIgnoringCase(s, "include_")
  {
    var lower := LowerStr(s);
    var pat := LowerStr("include_");
    assert pat[7] == '_';
    forall i | 0 <= i <= |lower| ensures !OccursAt(lower, pat, i) {
      if i + |pat| <= |lower| {
        assert lower[i + 7] == Lower(s[i + 7]);
        LowerUnderscore(s[i + 7]);
        assert lower[i..i + |pat|][7] != pat[7];
      }
    }
  }

  /**
   * The chain of tests the main loop applies to each key, first match wins:
   * "pdf" is skipped; a key holding "include_" in any case names a
   * top-of-page section (chosen by its value); then "documents", then
   * "procedures", then a key starting with "issue_" (in this case); every
   * other key is an encounter form.
   */
  function Route(key: string): Section
  {
    if key == "pdf" then Skipped
    else if ContainsIgnoringCase(key, "include_") then Include
    else if key == "documents" then Documents
    else if key == "procedures" then Procedures
    else if StartsWith(key, "issue_") then Issue
    else EncounterForm
  }

  /** The precedence of the tests, stated section by section. */
  lemma RoutePrecedence(key: string)
    ensures Route(key) == Skipped <==> key == "pdf"
    ensures Route(key) == Include <==> key != "pdf" && ContainsIgnoringCase(key, "include_")
    ensures Route(key) == Documents <==> key == "documents"
    ensures Route(key) == Procedures <==> key == "procedures"
    ensures Route(key) == Issue <==> key != "pdf" && !ContainsIgnoringCase(key, "include_") && StartsWith(key, "issue_")
    ensures Route(key) == EncounterForm <==>
      key !in {"pdf", "documents", "procedures"} && !ContainsIgnoringCase(key, "include_") && !StartsWith(key, "issue_")
  {
    NoInclude("documents");
    NoInclude("procedures");
    assert "documents"[0] != "issue_"[0] && "procedures"[0] != "issue_"[0];
  }

  /** The top-of-page sections an "include_" key can ask for, by its value. */
  datatype IncludeSection =
    | RecurringDays | Demographics | History | Insurance | Billing
    | Immunizations | Batchcom | Notes | Transactions | NoSection

  function IncludeSectionOf(val: string): (s: IncludeSection)
    ensures s == NoSection <==>
      val !in {"recurring_days", "demographics", "history", "insurance", "billing",
               "immunizations", "batchcom", "notes", "transactions"}
  {
    if val == "recurring_days" then RecurringDays
    else if val == "demographics" then Demographics
    else if val == "history" then History
    else if val == "insurance" then Insurance
    else if val == "billing" then Billing
    else if val == "immunizations" then Immunizations
    else if val == "batchcom" then Batchcom
    else if val == "notes" then Notes
    else if val == "transactions" then Transactions
    else NoSection
  }

  /** An issue checkbox "issue_<id>" reaches the issue section and its id is the captured row id. */
  lemma IssueKeysRouteToIssues(id: string)
    requires |id| > 0 && AllDigits(id)
    ensures Route("issue_" + id) == Issue
    ensures ParseFormKey("issue_" + id) == Some(FormKey("issue", id))
  {
    IssueKeyRoute(id);
    assert KeyText(FormKey("issue", id)) == "issue_" + id;
    FormKeyRoundTrip(FormKey("issue", id));
  }

  lemma IssueKeyRoute(id: string)
    requires |id| > 0 && AllDigits(id)
    ensures Route("issue_" + id) == Issue
  {
    var key := "issue_" + id;
    forall i | 7 <= i < |key| ensures key[i] != '_' {
      assert key[i] == id[i - 6];
    }
    NoInclude(key);
    assert key[0] == 'i' && |key| > 6;
    assert key[..6] == "issue_";
  }

  // ---------------------------------------------------------------------
  // Encounter forms
  // ---------------------------------------------------------------------

  /** What the report does for an encounter-form key. */
  datatype FormAction =
    | NoAccess                            // the user may see no encounter notes or coding
    | NoReport                            // no form directory was captured
    | NotSigned                           // only signed forms are shown and this one is not
    | LayoutReport(dir: string, id: string) // a layout-based form, rendered by lbf_report
    | FormReport(dir: string, id: string)   // <dir>_report(pid, encounter, N, id)

  /**
   * `authorized` is the disjunction of the notes, coding, medical and
   * relaxed permissions; `onlySigned` the global that limits the report to
   * signed forms; `signed` whether this form is signed. A directory that PHP
   * finds empty ("" or "0") has no report.
   */
  function EncounterFormAction(key: string, authorized: bool, onlySigned: bool, signed: bool): (a: FormAction)
    ensures !authorized <==> a == NoAccess
    ensures a.LayoutReport? || a.FormReport? ==>
      ParseFormKey(key) == Some(FormKey(a.dir, a.id)) && !PhpEmpty(a.dir) && (signed || !onlySigned)
    ensures a.LayoutReport? <==>
      (authorized && ParseFormKey(key).Some? && !PhpEmpty(ParseFormKey(key).value.dir)
       && (signed || !onlySigned) && StartsWith(ParseFormKey(key).value.dir, "LBF"))
    ensures a == NotSigned <==>
      (authorized && ParseFormKey(key).Some? && !PhpEmpty(ParseFormKey(key).value.dir) && onlySigned && !signed)
  {
    if !authorized then NoAccess
    else match ParseFormKey(key)
      case None => NoReport
      case Some(fk) =>
        if PhpEmpty(fk.dir) then NoReport
        else if !((signed && onlySigned) || !onlySigned) then NotSigned
        else if StartsWith(fk.dir, "LBF") then LayoutReport(fk.dir, fk.id)
        else FormReport(fk.dir, fk.id)
  }

  /** A key holding a '_' is none of the fixed keys. */
  lemma NotReserved(key: string)
    requires '_' in key
    ensures key !in {"pdf", "documents", "procedures"}
  {
    assert forall i :: 0 <= i < 3 ==> "pdf"[i] != '_';
    assert forall i :: 0 <= i < 9 ==> "documents"[i] != '_';
    assert forall i :: 0 <= i < 10 ==> "procedures"[i] != '_';
  }

  /**
   * End to end: a checkbox key for a form whose directory is not "issue"-like
   * and holds no "include_" reaches its own report function with its own id.
   */
  lemma FormKeysReachTheirReports(fk: FormKey, onlySigned: bool, signed: bool)
    requires WellFormed(fk) && !PhpEmpty(fk.dir) && (signed || !onlySigned)
    requires !ContainsIgnoringCase(KeyText(fk), "include_") && !StartsWith(KeyText(fk), "issue_")
    ensures Route(KeyText(fk)) == EncounterForm
    ensures StartsWith(fk.dir, "LBF") ==> EncounterFormAction(KeyText(fk), true, onlySigned, signed) == LayoutReport(fk.dir, fk.id)
    ensures !StartsWith(fk.dir, "LBF") ==> EncounterFormAction(KeyText(fk), true, onlySigned, signed) == FormReport(fk.dir, fk.id)
  {
    FormKeyRoundTrip(fk);
    var key := KeyText(fk);
    assert key[|fk.dir|] == '_';
    NotReserved(key);
    RoutePrecedence(key);
  }
}
