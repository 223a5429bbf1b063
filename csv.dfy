/**
 * CSV cells as the renderers write them. csvEscape (a library function that is
 * not part of this model) is taken to be the always-quoting escape: the text is
 * wrapped in double quotes and every inner double quote is doubled, so that
 * csvEscape("") is the literal '""' the renderers also write by hand.
 * A reference parser for such rows gives the round trip.
 */
module Csv {
  import opened Options

  /** str_replace('"', '""', s) */
  function DoubleQuotes(s: string): (r: string)
    ensures |r| >= |s|
  {
    if s == [] then []
    else (if s[0] == '"' then "\"\"" else [s[0]]) + DoubleQuotes(s[1..])
  }

  /** csvEscape */
  function Escape(s: string): (r: string)
    ensures |r| >= 2 && r[0] == '"' && r[|r| - 1] == '"'
  {
    "\"" + DoubleQuotes(s) + "\""
  }

  /** What stands between two separators of a written row: a quoted cell, or nothing. */
  datatype Field = Quoted(text: string) | Blank {
    function Text(): string
    {
      match this
      case Quoted(t) => Escape(t)
      case Blank => ""
    }

    /** The value a reader recovers from the field. */
    function Value(): string
    {
      match this
      case Quoted(t) => t
      case Blank => ""
    }
  }

  /** The fields joined by ",", as implode(',', …) or a loop that writes a separator before every field but the first. */
  function Join(fs: seq<Field>): string
    decreases |fs|
  {
    if fs == [] then ""
    else if |fs| == 1 then fs[0].Text()
    else fs[0].Text() + "," + Join(fs[1..])
  }

  /** Appending one field: the separator goes before it unless it is the first. */
  lemma {:induction false} JoinSnoc(fs: seq<Field>, f: Field)
    ensures Join(fs + [f]) == if fs == [] then f.Text() else Join(fs) + "," + f.Text()
    decreases |fs|
  {
    var g := fs + [f];
    if |fs| == 1 {
      assert g == [fs[0], f] && g[1..] == [f];
      assert Join(g) == fs[0].Text() + "," + Join([f]);
    } else if |fs| > 1 {
      assert g[0] == fs[0] && g[1..] == fs[1..] + [f];
      JoinSnoc(fs[1..], f);
      assert Join(g) == fs[0].Text() + "," + (Join(fs[1..]) + "," + f.Text());
      assert Join(fs) == fs[0].Text() + "," + Join(fs[1..]);
      Regroup(fs[0].Text(), ",", Join(fs[1..]), ",", f.Text());
    }
  }

  lemma Regroup(a: string, b: string, c: string, d: string, e: string)
    ensures a + b + (c + d + e) == (a + b + c) + d + e
  {
  }

  /** A joined row that starts with a quoted cell is not empty. */
  lemma JoinStartsQuoted(fs: seq<Field>)
    requires fs != [] && fs[0].Quoted?
    ensures Join(fs) != ""
  {
    assert |fs[0].Text()| >= 2;
  }

  /** A non-empty joined row ends in a closing quote or a separator, never in a line break. */
  lemma {:induction false} JoinEnd(fs: seq<Field>)
    ensures Join(fs) != "" ==> Join(fs)[|Join(fs)| - 1] != '\n'
    decreases |fs|
  {
    if |fs| > 1 {
      JoinEnd(fs[1..]);
    }
  }

  function QuoteAll(cells: seq<string>): (fs: seq<Field>)
    ensures |fs| == |cells|
    ensures forall i :: 0 <= i < |cells| ==> fs[i] == Quoted(cells[i])
  {
    seq(|cells|, i requires 0 <= i < |cells| => Quoted(cells[i]))
  }

  /** A row of escaped cells. */
  function Row(cells: seq<string>): string
  {
    Join(QuoteAll(cells))
  }

  /** Appending one cell to a row: the separator, then the escaped cell. */
  lemma RowSnoc(cells: seq<string>, c: string)
    ensures Row(cells + [c]) == if cells == [] then Escape(c) else Row(cells) + "," + Escape(c)
  {
    assert QuoteAll(cells + [c]) == QuoteAll(cells) + [Quoted(c)];
    JoinSnoc(QuoteAll(cells), Quoted(c));
  }

  function Values(fs: seq<Field>): (vs: seq<string>)
    ensures |vs| == |fs|
    ensures forall i :: 0 <= i < |fs| ==> vs[i] == fs[i].Value()
  {
    seq(|fs|, i requires 0 <= i < |fs| => fs[i].Value())
  }

  /** Reads a quoted cell whose opening quote is already consumed: its text and what follows the closing quote. */
  function ParseQuoted(s: string): (r: Option<(string, string)>)
    ensures r.Some? ==> |r.value.1| < |s|
    decreases |s|
  {
    if s == [] then None
    else if s[0] == '"' then
      if |s| > 1 && s[1] == '"' then
        match ParseQuoted(s[2..])
        case None => None
        case Some(p) => Some(("\"" + p.0, p.1))
      else Some(([], s[1..]))
    else
      match ParseQuoted(s[1..])
      case None => None
      case Some(p) => Some(([s[0]] + p.0, p.1))
  }

  /** Reference reader for one row: the values of its comma-separated fields, each quoted or empty. */
  function ParseRow(s: string): (r: Option<seq<string>>)
    ensures r.Some? ==> |r.value| > 0
    decreases |s|
  {
    if s == [] then Some([""])
    else if s[0] == ',' then
      match ParseRow(s[1..])
      case None => None
      case Some(vs) => Some([""] + vs)
    else if s[0] == '"' then
      match ParseQuoted(s[1..])
      case None => None
      case Some(p) =>
        if p.1 == [] then Some([p.0])
        else if p.1[0] == ',' then
          match ParseRow(p.1[1..])
          case None => None
          case Some(vs) => Some([p.0] + vs)
        else None
    else None
  }

  lemma {:induction false} ParseQuotedEscaped(t: string, rest: string)
    requires rest == [] || rest[0] != '"'
    ensures ParseQuoted(DoubleQuotes(t) + "\"" + rest) == Some((t, rest))
  {
    var s := DoubleQuotes(t) + "\"" + rest;
    if t == [] {
      assert s == "\"" + rest;
    } else if t[0] == '"' {
      ParseQuotedEscaped(t[1..], rest);
      assert s == "\"\"" + (DoubleQuotes(t[1..]) + "\"" + rest);
      assert s[2..] == DoubleQuotes(t[1..]) + "\"" + rest;
      assert "\"" + t[1..] == t;
    } else {
      ParseQuotedEscaped(t[1..], rest);
      assert s == [t[0]] + (DoubleQuotes(t[1..]) + "\"" + rest);
      assert s[1..] == DoubleQuotes(t[1..]) + "\"" + rest;
      assert [t[0]] + t[1..] == t;
    }
  }

  function Prepend(v: string, r: Option<seq<string>>): Option<seq<string>>
  {
    match r
    case None => None
    case Some(vs) => Some([v] + vs)
  }

  /** Reading one field followed by the rest of a row. */
  lemma ParseField(f: Field, tail: string)
    requires tail == [] || tail[0] == ','
    ensures tail == [] ==> ParseRow(f.Text() + tail) == Some([f.Value()])
    ensures tail != [] ==> ParseRow(f.Text() + tail) == Prepend(f.Value(), ParseRow(tail[1..]))
  {
    match f
    case Blank =>
      assert f.Text() + tail == tail;
    case Quoted(t) =>
      ParseQuotedEscaped(t, tail);
      assert (f.Text() + tail)[1..] == DoubleQuotes(t) + "\"" + tail;
  }

  /** Reading a joined row gives back exactly the values of its fields, one per field, in order. */
  lemma {:induction false} ParseJoin(fs: seq<Field>)
    requires |fs| > 0
    ensures ParseRow(Join(fs)) == Some(Values(fs))
    decreases |fs|
  {
    if |fs| == 1 {
      ParseField(fs[0], "");
      assert Join(fs) == fs[0].Text() + "";
      assert Values(fs) == [fs[0].Value()];
    } else {
      var tail := "," + Join(fs[1..]);
      assert Join(fs) == fs[0].Text() + tail;
      ParseJoin(fs[1..]);
      ParseField(fs[0], tail);
      assert tail[1..] == Join(fs[1..]);
      assert Values(fs) == [fs[0].Value()] + Values(fs[1..]);
    }
  }

  /** A row of escaped cells reads back as those cells: one CSV column per cell. */
  lemma RowRoundTrip(cells: seq<string>)
    requires |cells| > 0
    ensures ParseRow(Row(cells)) == Some(cells)
  {
    ParseJoin(QuoteAll(cells));
    assert Values(QuoteAll(cells)) == cells;
  }
}
