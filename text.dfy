/**
 * String helpers shared by the report renderers: the PHP string functions the
 * renderers call (ucwords, str_replace of '_', strtolower, stristr, strpos,
 * empty(), the loose comparison with "0.0") restated over seq<char>.
 * Case mapping is ASCII only, as in PHP 8.2 and later.
 */
module Text {

  function Upper(c: char): (u: char)
    ensures 'a' <= c <= 'z' ==> 'A' <= u <= 'Z'
    ensures !('a' <= c <= 'z') ==> u == c
  {
    if 'a' <= c <= 'z' then (c as int - 32) as char else c
  }

  function Lower(c: char): (l: char)
    ensures 'A' <= c <= 'Z' ==> 'a' <= l <= 'z'
    ensures !('A' <= c <= 'Z') ==> l == c
  {
    if 'A' <= c <= 'Z' then (c as int + 32) as char else c
  }

  /** strtolower */
  function LowerStr(s: string): (r: string)
    ensures |r| == |s|
    ensures forall i :: 0 <= i < |s| ==> r[i] == Lower(s[i])
  {
    seq(|s|, i requires 0 <= i < |s| => Lower(s[i]))
  }

  /** The characters ucwords treats as word separators by default. */
  predicate IsWordDelimiter(c: char)
  {
    c == ' ' || c == '\t' || c == '\r' || c == '\n' || c == '\U{0C}' || c == '\U{0B}'
  }

  /** ucwords: upper-case the first character and every character after a separator. */
  function UcWords(s: string): (r: string)
    ensures |r| == |s|
  {
    seq(|s|, i requires 0 <= i < |s| =>
      if i == 0 || IsWordDelimiter(s[i - 1]) then Upper(s[i]) else s[i])
  }

  /** str_replace("_", " ", s) */
  function UnderscoresToSpaces(s: string): (r: string)
    ensures |r| == |s|
  {
    seq(|s|, i requires 0 <= i < |s| => if s[i] == '_' then ' ' else s[i])
  }

  /** ucwords(str_replace("_", " ", key)): how every renderer turns a column name into a label. */
  function Humanize(key: string): string
  {
    UcWords(UnderscoresToSpaces(key))
  }

  /**
   * A label keeps the key's length, holds no underscore, and differs from the
   * key only in case where the key held no underscore: it is the key read
   * case-insensitively with '_' shown as a space, and every word starts upper-case.
   */
  lemma HumanizeShape(key: string)
    ensures |Humanize(key)| == |key|
    ensures forall i :: 0 <= i < |key| ==> Humanize(key)[i] != '_'
    ensures LowerStr(Humanize(key)) == LowerStr(UnderscoresToSpaces(key))
    ensures forall i :: 0 <= i < |key| ==>
      if i == 0 || IsWordDelimiter(UnderscoresToSpaces(key)[i - 1]) then !('a' <= Humanize(key)[i] <= 'z')
      else Humanize(key)[i] == UnderscoresToSpaces(key)[i]
  {
    WordStarts(UnderscoresToSpaces(key));
    var u := UnderscoresToSpaces(key);
    var h := UcWords(u);
    forall i | 0 <= i < |key| ensures h[i] != '_' && Lower(h[i]) == Lower(u[i]) {
      HumanizeAt(u, i);
    }
    assert LowerStr(h) == LowerStr(u);
  }

  /** ucwords leaves no word starting with a lower-case letter and changes nothing else. */
  lemma WordStarts(u: string)
    ensures forall i :: 0 <= i < |u| ==>
      if i == 0 || IsWordDelimiter(u[i - 1]) then !('a' <= UcWords(u)[i] <= 'z') else UcWords(u)[i] == u[i]
  {
    var r := UcWords(u);
    forall i | 0 <= i < |u|
      ensures if i == 0 || IsWordDelimiter(u[i - 1]) then !('a' <= r[i] <= 'z') else r[i] == u[i]
    {
      if i == 0 || IsWordDelimiter(u[i - 1]) {
        assert r[i] == Upper(u[i]);
      } else {
        assert r[i] == u[i];
      }
    }
  }

  lemma HumanizeAt(u: string, i: nat)
    requires i < |u| && (forall j :: 0 <= j < |u| ==> u[j] != '_')
    ensures UcWords(u)[i] != '_' && Lower(UcWords(u)[i]) == Lower(u[i])
  {
    var c := u[i];
    assert UcWords(u)[i] == Upper(c) || UcWords(u)[i] == c;
  }

  lemma AppendAssoc(a: string, b: string, c: string)
    ensures (a + b) + c == a + (b + c)
  {
  }

  /** The first i + 1 elements are the first i, then the i-th. */
  lemma PrefixSnoc<T>(s: seq<T>, i: nat)
    requires i < |s|
    ensures s[..i + 1] == s[..i] + [s[i]]
  {
  }

  /** The parts written one after another. */
  function Concat(parts: seq<string>): string
    decreases |parts|
  {
    if parts == [] then "" else Concat(parts[..|parts| - 1]) + parts[|parts| - 1]
  }

  lemma ConcatOne(part: string)
    ensures Concat([part]) == part
  {
    assert [part][..0] == [];
    assert "" + part == part;
  }

  lemma {:induction false} ConcatAppend(a: seq<string>, b: seq<string>)
    ensures Concat(a + b) == Concat(a) + Concat(b)
    decreases |b|
  {
    if b == [] {
      assert a + b == a;
    } else {
      var ab := a + b;
      assert ab[..|ab| - 1] == a + b[..|b| - 1];
      ConcatAppend(a, b[..|b| - 1]);
    }
  }

  lemma ConcatTwo(a: string, b: string)
    ensures Concat([a, b]) == a + b
  {
    assert [a, b][..1] == [a];
    ConcatOne(a);
  }

  /** Writing more parts after what is already written extends the written parts. */
  lemma ConcatExtend(prefix: string, parts: seq<string>, more: seq<string>, written: string)
    requires written == prefix + Concat(parts)
    ensures written + Concat(more) == prefix + Concat(parts + more)
  {
    ConcatAppend(parts, more);
    AppendAssoc(prefix, Concat(parts), Concat(more));
  }

  predicate StartsWith(s: string, prefix: string)
  {
    |prefix| <= |s| && s[..|prefix|] == prefix
  }

  predicate OccursAt(s: string, pat: string, i: nat)
  {
    i + |pat| <= |s| && s[i..i + |pat|] == pat
  }

  /** strpos(s, pat) !== false */
  predicate Contains(s: string, pat: string)
  {
    exists i :: 0 <= i <= |s| && OccursAt(s, pat, i)
  }

  /** stristr(s, pat) succeeds: pat occurs in s ignoring ASCII case. */
  predicate ContainsIgnoringCase(s: string, pat: string)
  {
    Contains(LowerStr(s), LowerStr(pat))
  }

  predicate IsDigit(c: char)
  {
    '0' <= c <= '9'
  }

  predicate AllDigits(s: string)
  {
    forall i :: 0 <= i < |s| ==> IsDigit(s[i])
  }

  /** empty($s) for a string: "" and "0" are empty. */
  predicate PhpEmpty(s: string)
  {
    s == "" || s == "0"
  }

  /** Decimal digits of a natural number, most significant first. */
  function NatToString(n: nat): (r: string)
    ensures |r| > 0 && AllDigits(r)
    decreases n
  {
    if n < 10 then [('0' as int + n) as char]
    else NatToString(n / 10) + [('0' as int + n % 10) as char]
  }

  /** How PHP prints an integral number. */
  function IntToString(n: int): (r: string)
    ensures |r| > 0
    ensures n >= 0 ==> AllDigits(r)
    ensures n < 0 ==> r[0] == '-'
  {
    if n < 0 then "-" + NatToString(-n) else NatToString(n)
  }

  /**
   * The loose comparison $value == "0.0". "0.0" is a numeric string, so PHP 8
   * compares numerically whenever $value is numeric: it holds for every decimal
   * numeral whose value is zero ("0", "0.00", "-0", ".0", "0."). Numerals with
   * surrounding white space or an exponent are not modelled.
   */
  predicate EqualsZeroLoosely(s: string)
  {
    var body := if |s| > 0 && (s[0] == '+' || s[0] == '-') then s[1..] else s;
    ZeroNumeral(body, false, false)
  }

  /** Scans the digits of an unsigned decimal numeral that reads as zero: only '0's, at most one '.', and at least one '0'. */
  predicate ZeroNumeral(s: string, seenDot: bool, seenZero: bool)
    decreases |s|
  {
    if s == [] then seenZero
    else if s[0] == '0' then ZeroNumeral(s[1..], seenDot, true)
    else if s[0] == '.' && !seenDot then ZeroNumeral(s[1..], true, seenZero)
    else false
  }

  /** The sign the loose comparison allows in front of a numeral, removed. */
  function Unsigned(s: string): (u: string)
    ensures |u| <= |s|
  {
    if |s| > 0 && (s[0] == '+' || s[0] == '-') then s[1..] else s
  }

  predicate ZerosAndDots(b: string)
  {
    forall i :: 0 <= i < |b| ==> b[i] == '0' || b[i] == '.'
  }

  predicate NoDot(b: string)
  {
    forall i :: 0 <= i < |b| ==> b[i] != '.'
  }

  predicate AtMostOneDot(b: string)
  {
    forall i, j :: 0 <= i < j < |b| && b[i] == '.' ==> b[j] != '.'
  }

  predicate HasZero(b: string)
  {
    exists i :: 0 <= i < |b| && b[i] == '0'
  }

  /**
   * The value compares loosely equal to "0.0" exactly when it is an optional
   * sign followed by '0's with at most one decimal point among them, and at
   * least one '0'.
   */
  lemma LooseZeroShape(s: string)
    ensures EqualsZeroLoosely(s) <==>
      var b := Unsigned(s); ZerosAndDots(b) && AtMostOneDot(b) && HasZero(b)
  {
    ZeroNumeralShape(Unsigned(s), false, false);
  }

  /** What the scanner accepts, stated without it: from its state (a point seen, a zero seen), the rest of the numeral. */
  lemma {:induction false} ZeroNumeralShape(b: string, seenDot: bool, seenZero: bool)
    ensures ZeroNumeral(b, seenDot, seenZero) <==>
      ZerosAndDots(b) && AtMostOneDot(b) && (seenDot ==> NoDot(b)) && (seenZero || HasZero(b))
    decreases |b|
  {
    if b != [] {
      var t := b[1..];
      assert forall i :: 0 <= i < |t| ==> t[i] == b[i + 1];
      if b[0] == '0' {
        ZeroNumeralShape(t, seenDot, true);
        assert HasZero(b);
        ZerosAndDotsTail(b);
        AtMostOneDotTail(b);
      } else if b[0] == '.' {
        assert !NoDot(b);
        ZeroNumeralShape(t, true, seenZero);
        ZerosAndDotsTail(b);
        AtMostOneDotTail(b);
        HasZeroTail(b);
      } else {
        assert !ZerosAndDots(b);
      }
    }
  }

  lemma ZerosAndDotsTail(b: string)
    requires b != [] && (b[0] == '0' || b[0] == '.')
    ensures ZerosAndDots(b) <==> ZerosAndDots(b[1..])
    ensures NoDot(b) <==> b[0] != '.' && NoDot(b[1..])
  {
    var t := b[1..];
    assert forall i :: 0 <= i < |t| ==> t[i] == b[i + 1];
  }

  /** Past a leading '0' the point rule is the tail's; past a leading '.' the tail has no point at all. */
  lemma AtMostOneDotTail(b: string)
    requires b != []
    ensures b[0] != '.' ==> (AtMostOneDot(b) <==> AtMostOneDot(b[1..]))
    ensures b[0] == '.' ==> (AtMostOneDot(b) <==> NoDot(b[1..]))
  {
    var t := b[1..];
    assert forall i :: 0 <= i < |t| ==> t[i] == b[i + 1];
    if b[0] == '.' && AtMostOneDot(b) {
      forall i | 0 <= i < |t| ensures t[i] != '.' {
        assert b[0] == '.' && b[i + 1] == t[i];
      }
    }
    if AtMostOneDot(t) && (b[0] != '.' || NoDot(t)) {
      forall i, j | 0 <= i < j < |b| && b[i] == '.' ensures b[j] != '.' {
        assert b[j] == t[j - 1];
        if i > 0 {
          assert t[i - 1] == '.';
        }
      }
    }
  }

  lemma HasZeroTail(b: string)
    requires b != [] && b[0] != '0'
    ensures HasZero(b) <==> HasZero(b[1..])
  {
    var t := b[1..];
    if HasZero(b) {
      var i :| 0 <= i < |b| && b[i] == '0';
      assert t[i - 1] == '0';
    }
    if HasZero(t) {
      var i :| 0 <= i < |t| && t[i] == '0';
      assert b[i + 1] == '0';
    }
  }

  lemma ZeroNumerals()
    ensures EqualsZeroLoosely("0.0") && EqualsZeroLoosely("0") && EqualsZeroLoosely("-0.00")
    ensures EqualsZeroLoosely(".0") && EqualsZeroLoosely("0.")
    ensures !EqualsZeroLoosely("") && !EqualsZeroLoosely(".") && !EqualsZeroLoosely("0.0.0")
    ensures !EqualsZeroLoosely("0.5") && !EqualsZeroLoosely("10")
  {
    assert "0.0"[1..] == ".0" && ".0"[1..] == "0" && "0"[1..] == "";
    assert "-0.00"[1..] == "0.00" && "0.00"[1..] == ".00" && ".00"[1..] == "00" && "00"[1..] == "0";
    assert "0."[1..] == "." && "."[1..] == "";
    assert "0.0.0"[1..] == ".0.0" && ".0.0"[1..] == "0.0";
    assert "0.0"[1..] == ".0" && ".0"[1..] == "0";
    assert "0.5"[1..] == ".5" && ".5"[1..] == "5";
  }
}
