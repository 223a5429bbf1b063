/**
 * A fetched form row as the report renderers see it: the columns of one
 * database row in their table order, each value as text. PHP's
 * associative array keeps insertion order and unique keys; SQL NULL reads
 * as "" (what csvEscape, text() and the loose comparisons make of it).
 */
module Records {

  /** One column: its name and its value. */
  type Field = (string, string)

  type Record = seq<Field>

  /** The timestamp MySQL stores for "no date": the renderers skip it. */
  const ZeroTimestamp: string := "0000-00-00 00:00:00"

  /** The first rewrite every renderer applies: a checkbox value "on" reads "yes". */
  function OnAsYes(value: string): (v: string)
    ensures value == "on" ==> v == "yes"
    ensures value != "on" ==> v == value
  {
    if value == "on" then "yes" else value
  }

  /** $data['key']: the value of the column named `key`, "" (NULL) when there is none. */
  function Get(r: Record, key: string): string
    decreases |r|
  {
    if r == [] then ""
    else if r[0].0 == key then r[0].1
    else Get(r[1..], key)
  }

  /** A column the row does not have reads as "" (NULL). */
  lemma {:induction false} GetMissing(r: Record, key: string)
    requires forall i :: 0 <= i < |r| ==> r[i].0 != key
    ensures Get(r, key) == ""
    decreases |r|
  {
    if r != [] {
      GetMissing(r[1..], key);
    }
  }

  /** A column reads as the value of its first occurrence in the row. */
  lemma {:induction false} GetFirst(r: Record, key: string, i: nat)
    requires i < |r| && r[i].0 == key
    requires forall j :: 0 <= j < i ==> r[j].0 != key
    ensures Get(r, key) == r[i].1
    decreases i
  {
    if i > 0 {
      GetFirst(r[1..], key, i - 1);
    }
  }

  /** The identity and audit columns the SOAP and dictation renderers never show (uuid is not among them). */
  predicate FormAuditKey(key: string)
  {
    key in {"id", "pid", "user", "groupname", "authorized", "activity", "date"}
  }

  /** The HTML loops of the SOAP and dictation renderers skip audit columns, empty values and the zero timestamp. */
  predicate FormSkips(f: Field)
  {
    FormAuditKey(f.0) || f.1 == "" || f.1 == ZeroTimestamp
  }

  /** The columns those loops show, in record order. */
  function Visible(r: Record): (v: Record)
    ensures |v| <= |r|
    decreases |r|
  {
    if r == [] then []
    else Visible(r[..|r| - 1]) + (if FormSkips(r[|r| - 1]) then [] else [r[|r| - 1]])
  }

  /** Filtering keeps record order: the shown columns of two parts are those of each part, one after the other. */
  lemma {:induction false} VisibleAppend(a: Record, b: Record)
    ensures Visible(a + b) == Visible(a) + Visible(b)
    decreases |b|
  {
    if b == [] {
      assert a + b == a;
    } else {
      assert (a + b)[..|a + b| - 1] == a + b[..|b| - 1];
      VisibleAppend(a, b[..|b| - 1]);
    }
  }

  /** A column is shown exactly when it is in the record and not skipped. */
  lemma {:induction false} VisibleMembers(r: Record)
    ensures forall f :: f in Visible(r) <==> f in r && !FormSkips(f)
    decreases |r|
  {
    if r != [] {
      var init := r[..|r| - 1];
      VisibleMembers(init);
      assert r == init + [r[|r| - 1]];
    }
  }
}
