/**
 * The issue headings of the patient custom report: the main loop over the
 * posted keys remembers whether an issue has been shown yet and the type of
 * the last one shown. At the first issue it resets the previous type to a
 * sentinel and, in HTML only, prints the "Issues" title; before every issue
 * whose type differs from the previous issue's it writes a type heading (an
 * HTML heading, or a CSV cell) (interface/patient_file/report/custom_report.php).
 */
module ReportIssues {
  import opened Options
  import CustomReport

  /** The value the previous type is reset to before the first issue, meant to match no type. */
  const Sentinel: string := "asdf1234!@#$"

  predicate IsIssueKey(key: string)
  {
    CustomReport.Route(key) == CustomReport.Issue
  }

  /** The type of the last issue among `keys`; None when none of them is an issue. */
  function LastIssueType(keys: seq<string>, typeOf: string -> string): Option<string>
    decreases |keys|
  {
    if keys == [] then None
    else
      var last := keys[|keys| - 1];
      if IsIssueKey(last) then Some(typeOf(last))
      else LastIssueType(keys[..|keys| - 1], typeOf)
  }

  /** There is no last issue exactly when no key is an issue. */
  lemma {:induction false} NoLastIssue(keys: seq<string>, typeOf: string -> string)
    ensures LastIssueType(keys, typeOf).None? <==> forall k :: 0 <= k < |keys| ==> !IsIssueKey(keys[k])
    decreases |keys|
  {
    if keys != [] && !IsIssueKey(keys[|keys| - 1]) {
      var init := keys[..|keys| - 1];
      NoLastIssue(init, typeOf);
      assert forall k :: 0 <= k < |init| ==> init[k] == keys[k];
    }
  }

  /** The first-issue branch runs at the key at k: the first issue key. */
  predicate TitleAt(keys: seq<string>, typeOf: string -> string, k: nat)
    requires k < |keys|
  {
    IsIssueKey(keys[k]) && LastIssueType(keys[..k], typeOf).None?
  }

  /**
   * A type heading is written before the issue at k when its type differs
   * from the previous issue's; for the first issue the comparison is with
   * the sentinel.
   */
  predicate TypeHeaderAt(keys: seq<string>, typeOf: string -> string, k: nat)
    requires k < |keys|
  {
    IsIssueKey(keys[k]) &&
    match LastIssueType(keys[..k], typeOf)
    case None => typeOf(keys[k]) != Sentinel
    case Some(t) => t != typeOf(keys[k])
  }

  lemma LastIssueStep(keys: seq<string>, typeOf: string -> string, i: nat)
    requires i < |keys|
    ensures LastIssueType(keys[..i + 1], typeOf) ==
      if IsIssueKey(keys[i]) then Some(typeOf(keys[i])) else LastIssueType(keys[..i], typeOf)
  {
    assert keys[..i + 1][..i] == keys[..i];
  }

  /**
   * The state the main loop keeps across keys. `titles[k]` and `headers[k]`
   * say whether the "Issues" title and a type heading are written for key k.
   */
  method IssueHeadings(keys: seq<string>, typeOf: string -> string, csv: bool) returns (titles: seq<bool>, headers: seq<bool>)
    ensures |titles| == |keys| && |headers| == |keys|
    ensures forall k :: 0 <= k < |keys| ==> (titles[k] <==> !csv && TitleAt(keys, typeOf, k))
    ensures forall k :: 0 <= k < |keys| ==> (headers[k] <==> TypeHeaderAt(keys, typeOf, k))
  {
    var firstIssue := true;
    var prevIssueType := "";
    titles, headers := [], [];
    var i := 0;
    while i < |keys|
      invariant 0 <= i <= |keys| && |titles| == i && |headers| == i
      invariant firstIssue <==> LastIssueType(keys[..i], typeOf).None?
      invariant !firstIssue ==> LastIssueType(keys[..i], typeOf) == Some(prevIssueType)
      invariant forall k :: 0 <= k < i ==> (titles[k] <==> !csv && TitleAt(keys, typeOf, k))
      invariant forall k :: 0 <= k < i ==> (headers[k] <==> TypeHeaderAt(keys, typeOf, k))
    {
      var title, header;
      title, header, firstIssue, prevIssueType := HeadingsAt(keys, typeOf, csv, i, firstIssue, prevIssueType);
      HeadingsExtend(keys, typeOf, csv, i, titles, headers, title, header);
      titles, headers := titles + [title], headers + [header];
      i := i + 1;
    }
  }

  /** The flags of the keys before i, followed by those of key i, are the flags of the keys up to i. */
  lemma HeadingsExtend(keys: seq<string>, typeOf: string -> string, csv: bool, i: nat,
                       titles: seq<bool>, headers: seq<bool>, title: bool, header: bool)
    requires i < |keys| && |titles| == i && |headers| == i
    requires forall k :: 0 <= k < i ==> (titles[k] <==> !csv && TitleAt(keys, typeOf, k))
    requires forall k :: 0 <= k < i ==> (headers[k] <==> TypeHeaderAt(keys, typeOf, k))
    requires title <==> !csv && TitleAt(keys, typeOf, i)
    requires header <==> TypeHeaderAt(keys, typeOf, i)
    ensures forall k :: 0 <= k < i + 1 ==> ((titles + [title])[k] <==> !csv && TitleAt(keys, typeOf, k))
    ensures forall k :: 0 <= k < i + 1 ==> ((headers + [header])[k] <==> TypeHeaderAt(keys, typeOf, k))
  {
  }

  /** One key of the main loop: the headings written before it and the state it leaves. */
  method HeadingsAt(keys: seq<string>, typeOf: string -> string, csv: bool, i: nat, firstIssue0: bool, prevIssueType0: string)
    returns (title: bool, header: bool, firstIssue: bool, prevIssueType: string)
    requires i < |keys|
    requires firstIssue0 <==> LastIssueType(keys[..i], typeOf).None?
    requires !firstIssue0 ==> LastIssueType(keys[..i], typeOf) == Some(prevIssueType0)
    ensures title <==> !csv && TitleAt(keys, typeOf, i)
    ensures header <==> TypeHeaderAt(keys, typeOf, i)
    ensures firstIssue <==> LastIssueType(keys[..i + 1], typeOf).None?
    ensures !firstIssue ==> LastIssueType(keys[..i + 1], typeOf) == Some(prevIssueType)
  {
    firstIssue, prevIssueType := firstIssue0, prevIssueType0;
    var key := keys[i];
    title, header := false, false;
    if IsIssueKey(key) {
      if firstIssue {
        prevIssueType := Sentinel;
        firstIssue := false;
        title := !csv;
      }
      var t := typeOf(key);
      if prevIssueType != t {
        header := true;
        prevIssueType := t;
      }
    }
    LastIssueStep(keys, typeOf, i);
  }

  /** The first-issue branch, and with it the "Issues" title, runs at most once. */
  lemma {:induction false} OneTitle(keys: seq<string>, typeOf: string -> string, j: nat, k: nat)
    requires j < k < |keys| && TitleAt(keys, typeOf, j)
    ensures !TitleAt(keys, typeOf, k)
  {
    NoLastIssue(keys[..k], typeOf);
    assert keys[..k][j] == keys[j];
  }

  /**
   * When no issue type is the sentinel text, a type heading is written for
   * an issue exactly when it is the first issue or its type differs from the
   * previous issue's type.
   */
  lemma HeadingsMarkTypeChanges(keys: seq<string>, typeOf: string -> string, k: nat)
    requires k < |keys| && typeOf(keys[k]) != Sentinel
    ensures TypeHeaderAt(keys, typeOf, k) <==>
      IsIssueKey(keys[k]) &&
      (LastIssueType(keys[..k], typeOf).None? || LastIssueType(keys[..k], typeOf).value != typeOf(keys[k]))
  {
  }

  /** The sentinel is not out of reach: a first issue whose type is spelled like it takes the first-issue branch but gets no type heading. */
  lemma SentinelTypeHasNoHeading(keys: seq<string>, typeOf: string -> string)
    requires |keys| > 0 && IsIssueKey(keys[0]) && typeOf(keys[0]) == Sentinel
    ensures TitleAt(keys, typeOf, 0) && !TypeHeaderAt(keys, typeOf, 0)
  {
    assert keys[..0] == [];
  }

  /** Two consecutive issues of one type share the heading written for the first. */
  lemma {:induction false} SameTypeSharesHeading(keys: seq<string>, typeOf: string -> string, j: nat, k: nat)
    requires j < k < |keys| && IsIssueKey(keys[j]) && IsIssueKey(keys[k])
    requires forall m :: j < m < k ==> !IsIssueKey(keys[m])
    requires typeOf(keys[j]) == typeOf(keys[k])
    ensures !TypeHeaderAt(keys, typeOf, k)
  {
    LastIssueAfter(keys, typeOf, j, k);
  }

  /** With no issue between j and k, the last issue before k is the one at j. */
  lemma {:induction false} LastIssueAfter(keys: seq<string>, typeOf: string -> string, j: nat, k: nat)
    requires j < k <= |keys| && IsIssueKey(keys[j])
    requires forall m :: j < m < k ==> !IsIssueKey(keys[m])
    ensures LastIssueType(keys[..k], typeOf) == Some(typeOf(keys[j]))
    decreases k - j
  {
    LastIssueStep(keys, typeOf, k - 1);
    if k - 1 > j {
      LastIssueAfter(keys, typeOf, j, k - 1);
    }
  }
}
