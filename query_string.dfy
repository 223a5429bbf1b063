/**
 * postToGet of the patient custom report
 * (interface/patient_file/report/custom_report.php): the posted report
 * choices turned into a query string for the "Printable Version" and
 * "Export to CSV" links. attr_url (URL-encode, then HTML-escape) is a
 * library function not part of this model and is a parameter.
 */
module QueryString {
  import opened Options
  import opened Text

  /** A posted value: one text, or a list of texts (a group of checkboxes). */
  datatype PostValue = Scalar(value: string) | List(values: seq<string>)

  /** The posted fields, in the order PHP keeps them. */
  type Post = seq<(string, PostValue)>

  /** A list's values, each under the field's name with "[]" appended. */
  function ListPairs(name: string, values: seq<string>): (ps: seq<(string, string)>)
    ensures |ps| == |values|
    ensures forall i :: 0 <= i < |values| ==> ps[i] == (name + "[]", values[i])
  {
    seq(|values|, i requires 0 <= i < |values| => (name + "[]", values[i]))
  }

  function FieldPairs(field: (string, PostValue)): seq<(string, string)>
  {
    match field.1
    case Scalar(v) => [(field.0, v)]
    case List(vs) => ListPairs(field.0, vs)
  }

  /** The name/value pairs the query string carries, field after field. */
  function Pairs(post: Post): seq<(string, string)>
    decreases |post|
  {
    if post == [] then [] else Pairs(post[..|post| - 1]) + FieldPairs(post[|post| - 1])
  }

  /** One pair as written: name=value&, both encoded. */
  function PairText(p: (string, string), enc: string -> string): string
  {
    enc(p.0) + "=" + enc(p.1) + "&"
  }

  function PairTexts(ps: seq<(string, string)>, enc: string -> string): (ts: seq<string>)
    ensures |ts| == |ps|
    ensures forall i :: 0 <= i < |ps| ==> ts[i] == PairText(ps[i], enc)
  {
    seq(|ps|, i requires 0 <= i < |ps| => PairText(ps[i], enc))
  }

  function Query(post: Post, enc: string -> string): string
  {
    Concat(PairTexts(Pairs(post), enc))
  }

  lemma PairTextsAppend(a: seq<(string, string)>, b: seq<(string, string)>, enc: string -> string)
    ensures PairTexts(a + b, enc) == PairTexts(a, enc) + PairTexts(b, enc)
  {
  }

  lemma PairsStep(post: Post, e: nat)
    requires e < |post|
    ensures Pairs(post[..e + 1]) == Pairs(post[..e]) + FieldPairs(post[e])
  {
    assert post[..e + 1][..e] == post[..e];
  }

  /** The inner loop: every value of a list, under name[]. */
  method AppendList(name: string, values: seq<string>, enc: string -> string, s0: string) returns (s: string)
    ensures s == s0 + Concat(PairTexts(ListPairs(name, values), enc))
  {
    s := s0;
    var i := 0;
    while i < |values|
      invariant 0 <= i <= |values|
      invariant s == s0 + Concat(PairTexts(ListPairs(name, values[..i]), enc))
    {
      var text := enc(name + "[]") + "=" + enc(values[i]) + "&";
      assert PairTexts(ListPairs(name, values[..i + 1]), enc) == PairTexts(ListPairs(name, values[..i]), enc) + [text];
      ConcatExtend(s0, PairTexts(ListPairs(name, values[..i]), enc), [text], s);
      ConcatOne(text);
      s := s + text;
      i := i + 1;
    }
    assert values[..i] == values;
  }

  /** postToGet: name=value& for a single value, name[]=value& for each value of a list, in posted order. */
  method PostToGet(post: Post, enc: string -> string) returns (s: string)
    ensures s == Query(post, enc)
  {
    s := "";
    var e := 0;
    while e < |post|
      invariant 0 <= e <= |post|
      invariant s == Concat(PairTexts(Pairs(post[..e]), enc))
    {
      var (key, val) := post[e];
      ghost var done := PairTexts(Pairs(post[..e]), enc);
      PairsStep(post, e);
      PairTextsAppend(Pairs(post[..e]), FieldPairs(post[e]), enc);
      ConcatAppend(done, PairTexts(FieldPairs(post[e]), enc));
      if val.List? {
        s := AppendList(key, val.values, enc, s);
      } else {
        var text := enc(key) + "=" + enc(val.value) + "&";
        assert PairTexts(FieldPairs(post[e]), enc) == [text];
        ConcatOne(text);
        s := s + text;
      }
      e := e + 1;
    }
    assert post[..e] == post;
  }

  // ---------------------------------------------------------------------
  // Reading the query string back
  // ---------------------------------------------------------------------

  /** The text before the first c and the text after it; None when c does not occur. */
  function SplitAt(s: string, c: char): (r: Option<(string, string)>)
    ensures r.Some? ==> |r.value.1| < |s|
    decreases |s|
  {
    if s == [] then None
    else if s[0] == c then Some(([], s[1..]))
    else match SplitAt(s[1..], c)
      case None => None
      case Some((a, b)) => Some(([s[0]] + a, b))
  }

  /** A query string of name=value& pairs read back into its pairs; None when it is not of that form. */
  function ParseQuery(s: string): Option<seq<(string, string)>>
    decreases |s|
  {
    if s == [] then Some([])
    else match SplitAt(s, '=')
      case None => None
      case Some((name, rest)) =>
        match SplitAt(rest, '&')
        case None => None
        case Some((value, tail)) =>
          match ParseQuery(tail)
          case None => None
          case Some(ps) => Some([(name, value)] + ps)
  }

  predicate Plain(s: string)
  {
    forall i :: 0 <= i < |s| ==> s[i] != '&' && s[i] != '='
  }

  lemma {:induction false} SplitAtFirst(a: string, c: char, b: string)
    requires forall i :: 0 <= i < |a| ==> a[i] != c
    ensures SplitAt(a + [c] + b, c) == Some((a, b))
    decreases |a|
  {
    var s := a + [c] + b;
    if a != [] {
      assert s[1..] == a[1..] + [c] + b;
      SplitAtFirst(a[1..], c, b);
      assert [a[0]] + a[1..] == a;
    } else {
      assert s[1..] == b;
    }
  }

  /** The encoded pairs as the query string carries them. */
  function Encoded(ps: seq<(string, string)>, enc: string -> string): (es: seq<(string, string)>)
    ensures |es| == |ps|
    ensures forall i :: 0 <= i < |ps| ==> es[i] == (enc(ps[i].0), enc(ps[i].1))
  {
    seq(|ps|, i requires 0 <= i < |ps| => (enc(ps[i].0), enc(ps[i].1)))
  }

  lemma ConcatCons(x: string, rest: seq<string>)
    ensures Concat([x] + rest) == x + Concat(rest)
  {
    ConcatAppend([x], rest);
    ConcatOne(x);
  }

  /** One name=value& chunk in front of a tail reads back as that pair in front of the tail's pairs. */
  lemma ParseOnePair(name: string, value: string, tail: string)
    requires Plain(name) && Plain(value)
    ensures ParseQuery(name + "=" + value + "&" + tail) ==
      match ParseQuery(tail)
      case None => None
      case Some(ps) => Some([(name, value)] + ps)
  {
    var s := name + "=" + value + "&" + tail;
    assert s == name + ['='] + (value + ['&'] + tail);
    SplitAtFirst(name, '=', value + ['&'] + tail);
    SplitAtFirst(value, '&', tail);
  }

  /** Already-encoded pairs, each written as name=value&. */
  function RawTexts(es: seq<(string, string)>): (ts: seq<string>)
    ensures |ts| == |es|
    ensures forall i :: 0 <= i < |es| ==> ts[i] == es[i].0 + "=" + es[i].1 + "&"
  {
    seq(|es|, i requires 0 <= i < |es| => es[i].0 + "=" + es[i].1 + "&")
  }

  lemma {:induction false} RawReadsBack(es: seq<(string, string)>)
    requires forall i :: 0 <= i < |es| ==> Plain(es[i].0) && Plain(es[i].1)
    ensures ParseQuery(Concat(RawTexts(es))) == Some(es)
    decreases |es|
  {
    if es != [] {
      var rest := es[1..];
      var first := es[0].0 + "=" + es[0].1 + "&";
      assert RawTexts(es) == [first] + RawTexts(rest);
      ConcatCons(first, RawTexts(rest));
      RawReadsBack(rest);
      ParseOnePair(es[0].0, es[0].1, Concat(RawTexts(rest)));
      assert [es[0]] + rest == es;
    } else {
      assert RawTexts(es) == [];
    }
  }

  /**
   * When the encoder never outputs '&' or '=' (URL-encoding escapes both),
   * the query string reads back as exactly the encoded pairs, in order: no
   * pair is lost, merged or split.
   */
  lemma QueryReadsBack(ps: seq<(string, string)>, enc: string -> string)
    requires forall i :: 0 <= i < |ps| ==> Plain(enc(ps[i].0)) && Plain(enc(ps[i].1))
    ensures ParseQuery(Concat(PairTexts(ps, enc))) == Some(Encoded(ps, enc))
  {
    assert PairTexts(ps, enc) == RawTexts(Encoded(ps, enc));
    RawReadsBack(Encoded(ps, enc));
  }

  /** Every pair ends with '&': the query string is empty exactly when there is nothing to carry, and otherwise ends with '&'. */
  lemma {:induction false} QueryEndsWithSeparator(ps: seq<(string, string)>, enc: string -> string)
    ensures Concat(PairTexts(ps, enc)) == "" <==> ps == []
    ensures ps != [] ==> Concat(PairTexts(ps, enc))[|Concat(PairTexts(ps, enc))| - 1] == '&'
  {
    if ps != [] {
      var ts := PairTexts(ps, enc);
      assert ts[..|ts| - 1] + [ts[|ts| - 1]] == ts;
      ConcatAppend(ts[..|ts| - 1], [ts[|ts| - 1]]);
      ConcatOne(ts[|ts| - 1]);
    } else {
      assert PairTexts(ps, enc) == [];
    }
  }

  /** A list contributes one pair per value, a single value one pair, so the pairs come field by field in posted order. */
  lemma {:induction false} PairsCount(post: Post)
    ensures |Pairs(post)| == PairCount(post)
    decreases |post|
  {
    if post != [] {
      PairsCount(post[..|post| - 1]);
    }
  }

  function PairCount(post: Post): nat
    decreases |post|
  {
    if post == [] then 0
    else PairCount(post[..|post| - 1]) + (match post[|post| - 1].1 case Scalar(_) => 1 case List(vs) => |vs|)
  }
}
