# OpenEMR patient report: a Dafny model

This project models the part of OpenEMR that turns a patient's chart into the
"custom report", as an HTML page or as a CSV export:

- the encounter-form renderers `vitals_report` (with `US_weight`),
  `soap_report`, `dictation_report` and `clinical_notes_report`;
- the request handling of `custom_report.php`:
  - the output settings (PDF, fax, printable, CSV, column count);
  - `report_basename`, `postToGet` and the `getContent` image-path rewrite;
  - the parser for `<formdir>_<formid>` checkbox keys;
  - the order in which each posted key is routed to a section;
  - the issue headings, the insurance CSV section and the billing totals.

Echoed output is an output string the methods append to. Where the source
loops over a record or a key list, the model is a method with a `while` loop.
That method is proved equal to a specification function, a left fold with one
step per column or key. The lemmas state what the report promises about those
functions: which cells appear, in what order, how many, and how they read back.

Records fetched from the database are parameters. A form row is an ordered
`seq<(string, string)>`, so PHP's ordered associative array keeps its order.
The following are parameters or uninterpreted functions:

- the library functions `attr_url`, `basename_international`, `number_format`,
  `floatval`, `round(x, n)` and float-to-string;
- the ACL and e-signature answers;
- the web roots.

`xlt`, `xl`, `text` and `nl2br` are the identity.

`csvEscape` is not part of this model. It is taken to be the always-quoting
escape: the text in double quotes, with inner quotes doubled. That is
consistent with the literal `""` cells the renderers write by hand. A
reference parser (`Csv.ParseRow`) gives every CSV line a read-back
property.

PHP floats are `real`. The only rounding made concrete is the whole-number
`round()` inside `US_weight`.

Verification showed two places where the vitals renderer does not do what it
evidently intends (see "## Findings"). The renderer's environment carries a
flag, `intended`:

- with `intended` false, `VitalsReport` and its loops model the code as written: the
  `!$key == "Bps"` guard and `US_weight`'s uncarried ounces;
- with `intended` true, they model the corrected program: the `$key != "Bps"` guard
  and the ounces carried into the pounds.

Every lemma about the renderer holds for both, unless it names one of them.

## Model

| member | source | states |
|---|---|---|
| VitalsUnits.RoundHalfAwayFromZero | interface/forms/vitals/report.php:26 | round() with no precision lands within half a unit of its argument and is non-negative for a non-negative argument |
| VitalsUnits.OuncesRange | interface/forms/vitals/report.php:25-27 | in "lb oz" mode the printed ounces lie in 0..16, with 16 included |
| VitalsUnits.WholePounds | interface/forms/vitals/report.php:22-28 | in any mode other than 1, a whole number of pounds prints as "N lb 0 oz" |
| VitalsUnits.SixteenOunces | interface/forms/vitals/report.php:25-27 | as written, 150.97 lb prints as "150 lb 16 oz" |
| VitalsUnits.PoundsOunces | interface/forms/vitals/report.php:19-29 | the corrected split: ounces below 16, and pounds×16+ounces is the weight in ounces, rounded |
| VitalsUnits.CarriedOf150_97 | interface/forms/vitals/report.php:19-29 | with the ounces carried, 150.97 lb reads "151 lb 0 oz" |
| VitalsUnits.CarriedWeightIsExact | interface/forms/vitals/report.php:19-29 | the carried form is within half an ounce of the weight and agrees with US_weight whenever US_weight prints fewer than 16 ounces |
| VitalsUnits.UnitSystemOf | interface/forms/vitals/report.php:134-142 | units_of_measurement 2 is metric (US), 3 US only, 4 metric only, and every other value US (metric) |
| VitalsUnits.LayoutShows | interface/forms/vitals/report.php:134-142 | the HTML measurement shows the US text unless metric-only and the metric text unless US-only, primary unit first |
| VitalsUnits.PediatricCases | interface/forms/vitals/report.php:37 | a patient is pediatric iff whole years ≤ 20 or the age text says "month"; an empty age also counts as pediatric, "adult" does not |
| Vitals.VitalsReport | interface/forms/vitals/report.php:31-263 | the returned text is the specified output: nothing for a missing or empty row, else the HTML table or the CSV header line plus one value line; the pediatric rules follow the patient's age; as written, or as intended when `intended` is set |
| Vitals.CsvHeader | interface/forms/vitals/report.php:44-65 | the header loop writes the escaped labels of the non-audit, non-bps columns, comma-separated |
| Vitals.AppendHeaderCell | interface/forms/vitals/report.php:50-63 | one header step extends the CSV row of the labels so far by one label |
| Vitals.AppendCsvValues | interface/forms/vitals/report.php:68-239 | the CSV value loop writes one slot per non-audit column, with a comma before every slot after the first written one |
| Vitals.AppendCsvSlot | interface/forms/vitals/report.php:81-126 | one CSV step writes the separator and the column's cell text, and carries the blood-pressure halves |
| Vitals.CsvColumn | interface/forms/vitals/report.php:87-239 | the dispatch of one CSV column yields the specified cell text and halves |
| Vitals.AppendHtmlCells | interface/forms/vitals/report.php:68-248 | the HTML loop writes the rendered cells and row breaks of the specified fold |
| Vitals.HtmlColumnStep | interface/forms/vitals/report.php:68-248 | one HTML step keeps the written text, $count and the halves equal to the fold's state |
| Vitals.HtmlColumn | interface/forms/vitals/report.php:87-236 | the dispatch of one HTML column yields the specified cells, and counts the column unless it is an incomplete blood pressure |
| Vitals.BpHalves | interface/forms/vitals/report.php:110-115 | a Bps column replaces the systolic half, a Bpd column the diastolic one |
| Vitals.ValueLineIsRow | interface/forms/vitals/report.php:81-85 | the separator rule "comma unless the text ends in a newline" writes the CSV join of the slots from the first written one |
| VitalsProperties.HtmlIgnoresSkipped | interface/forms/vitals/report.php:69-80 | audit columns, empty values, the zero timestamp and zero numerals leave the HTML table exactly as if they were absent |
| VitalsProperties.CsvIgnoresAudit | interface/forms/vitals/report.php:81-82 | the CSV line skips audit columns only: every other column, empty or not, gets exactly one slot |
| VitalsProperties.CsvCellIgnoresUnits | interface/forms/vitals/report.php:145 | a column's CSV text ignores the unit setting; a measurement's is always "metric,US" |
| VitalsProperties.CsvIgnoresUnits | interface/forms/vitals/report.php:145-183 | the whole CSV line is the same under every units_of_measurement value |
| VitalsProperties.MeasurementCells | interface/forms/vitals/report.php:127-184 | weight, height, waist and head circumference, and temperature show their US and metric texts in the unit layout in HTML, and write "metric,US" in CSV |
| VitalsProperties.WeightCells | interface/forms/vitals/report.php:127-146 | weight shows kilograms (×0.45359237, 2 decimals) and US_weight (its carried form when `intended`) in the chosen layout; in CSV, "kg,US" in one cell |
| VitalsProperties.WeightOf150_97 | interface/forms/vitals/report.php:127-146 | in the report itself, 150.97 lb in "lb oz" mode shows and exports as "150 lb 16 oz" as written, and as "151 lb 0 oz" as intended |
| VitalsProperties.HeightCells | interface/forms/vitals/report.php:147-165 | height shows centimetres (×2.54, rounded to 1 decimal, shown with 2) and inches; in CSV, "cm,in" |
| VitalsProperties.TemperatureCells | interface/forms/vitals/report.php:166-184 | temperature shows Celsius ((F−32)×0.5556, 2 decimals) and Fahrenheit; in CSV, "C,F" |
| VitalsProperties.PulseCells | interface/forms/vitals/report.php:185-214 | pulse is written with 0 decimals and " per min" in both modes |
| VitalsProperties.HtmlHalvesTrackLast | interface/forms/vitals/report.php:110-115 | in HTML, $bps and $bpd always hold the last shown systolic and diastolic values |
| VitalsProperties.CsvHalvesTrackLast | interface/forms/vitals/report.php:110-115 | in CSV, $bps and $bpd hold the last non-audit systolic and diastolic values, empty or not |
| VitalsProperties.AllItemsGood | interface/forms/vitals/report.php:98-234 | every HTML item written is well formed: complete blood pressure, no percentile for an adult, "See Growth-Chart" for a child's BMI Status |
| VitalsProperties.BloodPressureCellsComplete | interface/forms/vitals/report.php:116-123 | a Blood Pressure cell is written only with both halves non-empty |
| VitalsProperties.AdultsSeeNoPercentile | interface/forms/vitals/report.php:218-234 | an adult's table holds no percentile cell |
| VitalsProperties.PediatricBmiStatus | interface/forms/vitals/report.php:98-103 | for a child every BMI Status cell reads "See Growth-Chart" |
| VitalsProperties.PediatricSlots | interface/forms/vitals/report.php:218-234 | in CSV an adult's percentile writes no text, and a child's BMI Status reads "See Growth-Chart" |
| VitalsProperties.BloodPressureAt | interface/forms/vitals/report.php:110-123 | at a shown Bps or Bpd column, one "s/d" cell is appended when both last halves are set; otherwise nothing is written or counted |
| VitalsProperties.RowWrapping | interface/forms/vitals/report.php:241-248 | with cols > 0, wrapping only inserts row breaks: the same cells as unwrapped, $count is the count mod cols, one break per cols counted columns |
| VitalsProperties.NoWrapping | interface/forms/vitals/report.php:241-248 | with cols ≤ 0 the count never meets cols: no row break is ever written |
| VitalsProperties.HeaderCount | interface/forms/vitals/report.php:44-64 | the header has one label per non-audit column except each bps |
| VitalsProperties.BlankGuardAsWritten | interface/forms/vitals/report.php:124-126 | as written, the `!$key == "Bps"` guard never holds for a blood-pressure caption; the intended guard holds exactly for Bpd |
| VitalsProperties.LeadingBloodPressure | interface/forms/vitals/report.php:110-126 | leading bps then bpd leave no text for bps; with the intended guard bpd always writes text, and as written two empty halves write nothing |
| VitalsProperties.SystolicFirst | interface/forms/vitals/report.php:110-126 | a leading systolic column writes nothing and keeps its value |
| VitalsProperties.HalfCell | interface/forms/vitals/report.php:110-126 | a systolic or diastolic column writes "s/d" once both halves are set; otherwise a blank cell only under the intended guard and only for bpd |
| VitalsProperties.EmptyPressureThenWeight | interface/forms/vitals/report.php:81-126 | the slots of an empty blood pressure followed by a weight, as written and as intended |
| VitalsProperties.AsWrittenRowLosesBloodPressure | interface/forms/vitals/report.php:44-126 | as written, an empty leading blood pressure gives a value line one cell shorter than its two-label header; with the intended guard it matches |
| VitalsProperties.CorrectedRowMatchesHeader | interface/forms/vitals/report.php:44-126 | with the intended guard, a row led by bps then bpd has as many values as header labels, and the value line reads back as that many CSV fields |
| VitalsProperties.CorrectedSlots | interface/forms/vitals/report.php:81-126 | with the intended guard, such a row has one slot per non-audit column, and the line starts at bpd's cell |
| Records.OnAsYes | interface/forms/soap/report.php:37-39 | a checkbox value "on" reads "yes"; every other value is unchanged |
| Records.VisibleMembers | interface/forms/soap/report.php:33-35 | the HTML filter keeps exactly the fields that are not audit columns, empty or the zero timestamp |
| Records.GetMissing | interface/forms/soap/report.php:53 | reading a column the row does not have gives the empty text |
| Records.GetFirst | interface/forms/soap/report.php:53 | reading a column gives its value in the row |
| Text.HumanizeShape | interface/forms/vitals/report.php:95 | a label keeps the key's length and has no underscore; it equals the key with '_' as a space, ignoring case; every word starts with no lower-case letter, and every other character is the key's own |
| Text.LooseZeroShape | interface/forms/vitals/report.php:76 | `$value == "0.0"` holds exactly for an optional sign followed by '0's with at most one '.', and at least one '0' |
| Text.ZeroNumeralShape | interface/forms/vitals/report.php:76 | the character scanner accepts exactly the rest of such a numeral, given whether a point and a zero were already seen |
| Text.ZeroNumerals | interface/forms/vitals/report.php:76 | the loose comparison with "0.0" holds for zero numerals such as "0", "-0.00", ".0" and fails for "", ".", "0.5" and "10" |
| Csv.RowRoundTrip | interface/forms/soap/report.php:53 | escaped cells joined by commas read back as exactly those cells |
| Soap.SoapReport | interface/forms/soap/report.php:17-56 | the output is the specified one: in CSV the four-caption header always, then the four notes when the row exists; in HTML a one-column table of the kept fields |
| Soap.HeaderLine | interface/forms/soap/report.php:22-28 | the header line is the CSV row Subjective, Objective, Assessment, Plan |
| Soap.NotesLine | interface/forms/soap/report.php:53 | the value line is the CSV row of the four notes |
| Soap.Notes | interface/forms/soap/report.php:53 | there are exactly as many notes as captions |
| Soap.AppendCells | interface/forms/soap/report.php:32-49 | the HTML loop writes the cells of the kept fields in order, each followed by a row break |
| Soap.OneColumn | interface/forms/soap/report.php:19-48 | with cols forced to 1, every cell of a kept field is followed by "</tr><tr>\n", in record order |
| Soap.CsvShape | interface/forms/soap/report.php:22-55 | the CSV output is the header line, plus one four-cell line only when the row exists, each reading back as its cells |
| Dictation.DictationReport | interface/forms/dictation/report.php:16-49 | the output is the specified one: in CSV the two-caption header always, then the two texts when the row exists; in HTML an h3/p pair per kept field |
| Dictation.HeaderLine | interface/forms/dictation/report.php:21-25 | the header line is the CSV row Dictation, Additional Notes |
| Dictation.TextsLine | interface/forms/dictation/report.php:46 | the value line is the CSV row of dictation and additional_notes |
| Dictation.Texts | interface/forms/dictation/report.php:46 | there are exactly as many texts as captions |
| Dictation.AppendEntries | interface/forms/dictation/report.php:28-44 | the HTML loop writes one h3 label and p value per kept field |
| Dictation.EntriesInOrder | interface/forms/dictation/report.php:28-44 | the HTML has exactly one entry per kept field, in record order |
| Dictation.CsvShape | interface/forms/dictation/report.php:21-48 | the CSV output is the header line, plus one two-cell line only when the row exists, each reading back as its cells |
| ClinicalNotes.ActiveNotes | interface/forms/clinical_notes/report.php:31-33 | the filter never adds records |
| ClinicalNotes.ActiveNotesMembers | interface/forms/clinical_notes/report.php:31-33 | a record is kept iff it was fetched and is active |
| ClinicalNotes.ActiveNotesAppend | interface/forms/clinical_notes/report.php:31-33 | the filter keeps the original order: filtering a concatenation concatenates the filtered parts |
| ClinicalNotes.OrUnspecified | interface/forms/clinical_notes/report.php:55-56 | a falsy value ("" or "0") becomes "Unspecified" and any other value is kept, so the result is never falsy |
| ClinicalNotes.NoteCells | interface/forms/clinical_notes/report.php:54-59 | every note gives as many cells as there are captions |
| ClinicalNotes.NoteLineShape | interface/forms/clinical_notes/report.php:53-59 | every note line has six cells that read back exactly, and its type and category are never falsy |
| ClinicalNotes.CellsNeverFalsy | interface/forms/clinical_notes/report.php:55-56 | the type and category cells of every note are never falsy |
| ClinicalNotes.NullIsEmpty | interface/forms/clinical_notes/report.php:30 | a null service result and an empty one both give just the six-caption header in CSV |
| ClinicalNotes.ClinicalNotesReport | interface/forms/clinical_notes/report.php:26-62 | the output is the specified one: the rendered template in HTML, else the header and one line per active note |
| ClinicalNotes.WriteNotes | interface/forms/clinical_notes/report.php:53-60 | the loop writes one line per note, in order, after the header |
| ClinicalNotes.WriteNote | interface/forms/clinical_notes/report.php:54-59 | one iteration writes the note's line |
| CustomReport.OutputSettings | interface/patient_file/report/custom_report.php:52-93 | PDF iff pdf or fax is set; printable iff PDF or ?printable is non-empty; CSV iff ?csv is non-empty; 4 columns for PDF, 6 otherwise |
| CustomReport.SettingsChain | interface/patient_file/report/custom_report.php:52-93 | fax implies PDF, PDF implies printable, and the column count is 4 exactly for PDF |
| CustomReport.StripNamePunctuation | interface/patient_file/report/custom_report.php:142 | the stripped name is no longer than the name and holds no period, comma or space |
| CustomReport.StripKeepsOthers | interface/patient_file/report/custom_report.php:142 | stripping keeps every other character and adds none |
| CustomReport.StripIdempotent | interface/patient_file/report/custom_report.php:142 | stripping twice strips nothing more |
| CustomReport.BasenameShape | interface/patient_file/report/custom_report.php:141-143 | the text given to basename_international has no upper-case letter, period, comma or space, and ends in "_report" |
| CustomReport.ReportBasename | interface/patient_file/report/custom_report.php:137-146 | the base name comes from that text, and the name fields are returned unchanged |
| CustomReport.ParseFormKey | interface/patient_file/report/custom_report.php:1078-1079 | a match gives a directory without line feeds and a non-empty all-digit id, with the key being "dir_id", optionally followed by a line feed |
| CustomReport.FormKeyRoundTrip | interface/patient_file/report/custom_report.php:1078-1079 | every "dir_id" key, with or without a final line feed, parses back to its directory and id |
| CustomReport.NonFormKeys | interface/patient_file/report/custom_report.php:956 | a key with no '_', or whose text after the last '_' is not all digits, does not match |
| CustomReport.RoutePrecedence | interface/patient_file/report/custom_report.php:354-1069 | each section is chosen exactly when its test holds and every earlier one fails: pdf, include_ (any case), documents, procedures, issue_, encounter form |
| CustomReport.IncludeSectionOf | interface/patient_file/report/custom_report.php:361-723 | an include_ key whose value is none of the nine section names writes nothing |
| CustomReport.IssueKeysRouteToIssues | interface/patient_file/report/custom_report.php:919-957 | "issue_<digits>" reaches the issue section, and its row id is the digits |
| CustomReport.EncounterFormAction | interface/patient_file/report/custom_report.php:1069-1135 | no encounter permission means nothing; else a parsed non-empty directory is reported unless only signed forms are wanted and it is unsigned; LBF directories go to lbf_report |
| CustomReport.FormKeysReachTheirReports | interface/patient_file/report/custom_report.php:1076-1132 | end to end, a form checkbox key reaches its own report function with its own id |
| ReportIssues.IssueHeadings | interface/patient_file/report/custom_report.php:919-975 | the "Issues" title is written at the first issue in HTML only, never in CSV; a type heading (HTML heading or CSV cell) is written in both modes exactly where the specification says |
| ReportIssues.HeadingsAt | interface/patient_file/report/custom_report.php:921-975 | one key's step decides title and heading correctly and keeps $first_issue and $prevIssueType in step with the last issue |
| ReportIssues.OneTitle | interface/patient_file/report/custom_report.php:921-928 | the first-issue branch, which resets the previous type and in HTML writes the title, runs at most once |
| ReportIssues.HeadingsMarkTypeChanges | interface/patient_file/report/custom_report.php:966-975 | for a type other than the sentinel, a heading is written iff the issue is the first or its type differs from the previous issue's |
| ReportIssues.SentinelTypeHasNoHeading | interface/patient_file/report/custom_report.php:921-923 | a first issue whose type is the sentinel text takes the first-issue branch but gets no type heading |
| ReportIssues.SameTypeSharesHeading | interface/patient_file/report/custom_report.php:966-975 | consecutive issues of one type share one heading |
| ReportIssues.NoLastIssue | interface/patient_file/report/custom_report.php:921 | $first_issue stays set exactly while no issue key has been seen |
| InsuranceCsv.DerivedLabelShape | interface/patient_file/report/custom_report.php:515-516 | a column outside the special table is labelled with '_' read as a space and words capitalised |
| InsuranceCsv.ImplodeEscaped | interface/patient_file/report/custom_report.php:518-520 | imploding the escaped labels with ',' is the CSV row of the labels |
| InsuranceCsv.EscapeCaptions | interface/patient_file/report/custom_report.php:488-519 | rewriting the column array in place leaves the escaped label of every column |
| InsuranceCsv.HeaderLine | interface/patient_file/report/custom_report.php:488-520 | the header line is the CSV row of the column labels |
| InsuranceCsv.CellText | interface/patient_file/report/custom_report.php:528-537 | a cell is the capitalised insurance type for "type", provider_name for "provider", the stored value, or "" when missing |
| InsuranceCsv.AppendCell | interface/patient_file/report/custom_report.php:525-537 | one step extends the CSV row of the cells so far by the next cell |
| InsuranceCsv.InsuranceRow | interface/patient_file/report/custom_report.php:523-539 | one insurance type gives the CSV row of one cell per column |
| InsuranceCsv.WriteRows | interface/patient_file/report/custom_report.php:521-540 | the loop writes one row per insurance type, in order |
| InsuranceCsv.ThreeRows | interface/patient_file/report/custom_report.php:521 | the section holds exactly the primary, secondary and tertiary rows |
| InsuranceCsv.WriteSection | interface/patient_file/report/custom_report.php:479-541 | the section is the BEGIN marker, the header, the rows and the END marker |
| InsuranceCsv.InsuranceCsvSection | interface/patient_file/report/custom_report.php:479-541 | the same for the 23 insurance columns and the three types |
| InsuranceCsv.RowsMatchHeader | interface/patient_file/report/custom_report.php:481-540 | every row has one cell per header label (23), both read back exactly, and the cells are the type, the provider name and the stored values |
| Billing.ChargeLineReadsBack | interface/patient_file/report/custom_report.php:580 | every charge line reads back as its five columns, one per caption |
| Billing.AddCharges | interface/patient_file/report/custom_report.php:569-585 | the inner loop adds the encounter's fees to the total and its COPAY fees to the copays, and writes a line per charge in CSV |
| Billing.BillingTotals | interface/patient_file/report/custom_report.php:563-587 | total is the sum of all fees and copays the sum of COPAY fees; CSV lines follow encounter order |
| Billing.BillingSummary | interface/patient_file/report/custom_report.php:591-593 | Paid is the size of the copays, Total is the total, and Sub-Total minus Paid is Total |
| Billing.FeesSplit | interface/patient_file/report/custom_report.php:582-585 | the total splits into the copays plus the other charges |
| Billing.CopaysAsCredits | interface/patient_file/report/custom_report.php:591-593 | when copays are booked as negative credits, Sub-Total is the sum of the other charges and Paid is the credited amount |
| QueryString.ListPairs | interface/patient_file/report/custom_report.php:126-127 | a list gives one pair per value, in order, each under name[] |
| QueryString.AppendList | interface/patient_file/report/custom_report.php:126-128 | the inner loop writes name[]=value& for every value, in order |
| QueryString.PostToGet | interface/patient_file/report/custom_report.php:121-135 | the query string is name=value& per scalar and name[]=v& per list element, field after field |
| QueryString.QueryReadsBack | interface/patient_file/report/custom_report.php:121-135 | when the encoder never outputs '&' or '=', the query string reads back as exactly the encoded pairs, in order |
| QueryString.QueryEndsWithSeparator | interface/patient_file/report/custom_report.php:127-130 | the query string is empty iff there is nothing to carry, and otherwise ends with '&' |
| QueryString.PairsCount | interface/patient_file/report/custom_report.php:124-132 | a scalar contributes one pair and a list one pair per value |
| ContentRewrite.GetContent | interface/patient_file/report/custom_report.php:97-119 | an empty buffer is an error; otherwise the loop ends, having rewritten exactly the matches the specification rewrites |
| ContentRewrite.FixAt | interface/patient_file/report/custom_report.php:111-115 | one match is replaced, or left alone, as specified, with the search resuming behind it |
| ContentRewrite.SrcAtIsNeedle | interface/patient_file/report/custom_report.php:106 | a match is the seven characters " src='/" in any case |
| ContentRewrite.FindFromFirst | interface/patient_file/report/custom_report.php:106 | the search finds the first match at or after the offset, and none means there is none |
| ContentRewrite.FindFromReaches | interface/patient_file/report/custom_report.php:106 | any later match guarantees the search finds one no further on |
| ContentRewrite.Substr | interface/patient_file/report/custom_report.php:111-112 | substr gives the slice when it fits and is cut short at the end of the text |
| ContentRewrite.Replace | interface/patient_file/report/custom_report.php:114 | the replacement keeps the text up to the path and puts the document root in place of the web root |
| ContentRewrite.Advance | interface/patient_file/report/custom_report.php:111-115 | the search position strictly advances, and the text left to search strictly shrinks |
| ContentRewrite.NoMatchInside | interface/patient_file/report/custom_report.php:106-114 | when the document root has no space, no new match starts inside a replacement |
| ContentRewrite.AdvanceSkipsNothing | interface/patient_file/report/custom_report.php:106-115 | resuming at one past the match skips no match the specification would examine |
| ContentRewrite.NoneFound | interface/patient_file/report/custom_report.php:106-109 | a search that finds nothing ends the rewrite with the text as it is |
| ContentRewrite.FoundAt | interface/patient_file/report/custom_report.php:105-116 | a found match is the one the specification examines next, and the loop's progress keeps the remaining rewrite unchanged |
| ContentRewrite.RewriteKeepsPrefix | interface/patient_file/report/custom_report.php:105-116 | the rewrite never changes text before its starting offset |
| ContentRewrite.NothingToFix | interface/patient_file/report/custom_report.php:111-113 | paths that already start with the document root, or not with the web root, are left untouched |
| ContentRewrite.FirstPathFixed | interface/patient_file/report/custom_report.php:111-114 | the first path needing it gets the document root in place of the web root |
| ContentRewrite.RewriteFixesFound | interface/patient_file/report/custom_report.php:111-114 | a found match needing it is rewritten |
| ContentRewrite.RewriteSkipsFound | interface/patient_file/report/custom_report.php:111-113 | a found match not needing it is passed over |
| ContentRewrite.RewriteChangesIffNeeded | interface/patient_file/report/custom_report.php:105-116 | the text changes iff some image path needs the document root |
| ContentRewrite.FirstNeeding | interface/patient_file/report/custom_report.php:111-113 | the first match whose path needs rewriting, or None exactly when none does |

## Left out

- Output is modelled as strings: `echo`, `print`, output buffering, HTTP headers and the mPDF pipeline are not modelled.
- The fax and document I/O are not modelled: zip archives, temporary files, document retrieval and image sniffing (custom_report.php:148-172, 737-883, 1184-1264).
- Database reads are parameters: `formFetch`, `getRecInsuranceData`, `getPatientBillingEncounter`, `ClinicalNotesService`, the issue type of a key and the e-signature answer.
- The ACL checks are booleans given by the caller (`authorized` in `EncounterFormAction`).
- Only these top-of-page sections are modelled: insurance (CSV branch) and billing (with picked encounters, CSV lines and totals). The others write through library printers that are not part of this model: recurring days, demographics, history, immunizations, batch communication, notes and transactions.
- The documents and procedures sections are not modelled beyond routing: they are document retrieval and order rendering.
- The HTML branches of the insurance and billing sections are not modelled, nor `oeFormatMoney`. Billing's HTML figures are modelled as exact reals (`BillingSummary`).
- `printPatientBilling`, used when no encounter was picked, is not modelled.
- The per-encounter header is not modelled (encounter title, date, provider and the `newpatient` procedure list, custom_report.php:1084-1107 and 1145-1168), nor the BEGIN and END encounter markers.
- The reflection check for an `as_csv` parameter and `call_user_func_array` are not modelled; `EncounterFormAction` ends at the report function and id it would call.
- The search form's key parsing (custom_report.php:297) is not modelled separately. It uses the same pattern as `ParseFormKey`.
- The LBF and per-directory `include_once` of report files (custom_report.php:341-345) is not modelled; it loads code.
- Twig rendering of clinical notes is a parameter (`render`).
- `number_format`, `floatval`, `round(x, n)` and float-to-string are uninterpreted. No claim is made about decimal strings.
- `xlt`, `xl`, `text` and `nl2br` are the identity; translation and HTML escaping are not modelled.
- `attr_url`, `basename_international` and `getPatientAge` are parameters or a datatype of their possible answers; the vitals renderer derives `$is_pediatric_patient` from the age it is given.
- Some PHP loose comparisons are modelled as string equality: the `activity` test of clinical notes and the `$prevIssueType != $irow['type']` test. Numeric-looking strings such as "1" and "01" would compare equal in PHP.
- The `$value == "0.0"` test models decimal numerals with an optional sign only; whitespace and exponent forms are not modelled.
- ContentRewrite.GetContent: requires a document root with no space. A document root that itself contains " src='/" makes the source loop find its own replacement again and possibly never end. The empty buffer, where `stripos` gets an offset past the end (a ValueError in PHP 8), is modelled as an error result. `ob_get_clean` returning false is not modelled.
- QueryString.QueryReadsBack: assumes the encoder never outputs '&' or '=', which URL-encoding guarantees but `attr_url` is not part of this model.
- ReportIssues.IssueHeadings: the issue type comes from a function of the key, so two posts of the same key have the same type. The CSV comma after a heading and the display name looked up in `$ISSUE_TYPES` are not modelled.
- The percentile HTML cell is modelled with its stray opening `<td><div>` as written (vitals/report.php:223), but no property is stated about that markup.
- The oxygen saturation, respiration, BMI and oxygen flow rate formats are modelled in the dispatch, with no lemma of their own. `PulseCells` states the rule for the per-minute branch.

## Findings

| source | as written | input that shows it | evidently intended | confidence | as-written member | corrected member |
|---|---|---|---|---|---|---|
| interface/forms/vitals/report.php:25-27 | the ounces are round((P − floor P) × 16) with the pounds left at floor P, so the ounces can reach 16 | 150.97 lb in "lb oz" mode prints "150 lb 16 oz" | carry the rounded ounces into the pounds: "151 lb 0 oz", ounces always below 16 | not executed | VitalsUnits.SixteenOunces | VitalsUnits.CarriedWeightIsExact |
| interface/forms/vitals/report.php:124 | `!$key == "Bps"` parses as `(!$key) == "Bps"`, which is false for every blood-pressure caption, so an incomplete blood pressure writes no cell text | a row whose bps and bpd are empty, followed by weight 150: the header reads Blood Pressure, Weight while the value line holds only the weight | `$key != "Bps"`: the diastolic column writes an empty cell, so the value line lines up with the header when bps and bpd lead the row, as in the form_vitals column order (an incomplete bps further along is preceded by a separator and keeps its blank cell in either version) | not executed | VitalsProperties.AsWrittenRowLosesBloodPressure | VitalsProperties.CorrectedRowMatchesHeader |
