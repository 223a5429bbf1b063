/**
 * getContent of the patient custom report
 * (interface/patient_file/report/custom_report.php): before the buffered
 * report goes to the PDF renderer, every image path " src='/<web root>…"
 * that does not already start with the server's document root gets the
 * document root in place of the web root, because the renderer resolves
 * paths against the file system.
 */
module ContentRewrite {
  import opened Options
  import opened Text

  /** The text searched for, without regard to case. */
  const Needle: string := " src='/"

  /** stripos with an offset past the end of the text is an error (a ValueError in PHP 8). */
  datatype ContentError = OffsetOutOfRange

  /** An image path starts at p: the needle, in any case, compared character by character. */
  predicate SrcAt(c: string, p: nat)
  {
    p + 7 <= |c| &&
    Lower(c[p]) == ' ' && Lower(c[p + 1]) == 's' && Lower(c[p + 2]) == 'r' && Lower(c[p + 3]) == 'c' &&
    Lower(c[p + 4]) == '=' && Lower(c[p + 5]) == '\'' && Lower(c[p + 6]) == '/'
  }

  /** The character-wise test is stripos's: the lower-cased seven characters at p are the needle. */
  lemma SrcAtIsNeedle(c: string, p: nat)
    requires p + 7 <= |c|
    ensures SrcAt(c, p) <==> LowerStr(c[p..p + 7]) == Needle
  {
    var w := LowerStr(c[p..p + 7]);
    assert w[0] == Lower(c[p]) && w[1] == Lower(c[p + 1]) && w[2] == Lower(c[p + 2]) && w[3] == Lower(c[p + 3]);
    assert w[4] == Lower(c[p + 4]) && w[5] == Lower(c[p + 5]) && w[6] == Lower(c[p + 6]);
    if SrcAt(c, p) {
      assert w == Needle;
    }
  }

  /** stripos(c, Needle, from): the first match at or after `from` (see FindFromFirst). */
  function FindFrom(c: string, from: nat): (r: Option<nat>)
    requires from <= |c|
    ensures r.Some? ==> from <= r.value && r.value + 7 <= |c|
    decreases |c| - from
  {
    if from + 7 > |c| then None
    else if SrcAt(c, from) then Some(from)
    else FindFrom(c, from + 1)
  }

  /** The search finds the first match at or after `from`, and finds nothing only when there is none. */
  lemma {:induction false} FindFromFirst(c: string, from: nat)
    requires from <= |c|
    ensures FindFrom(c, from).Some? ==> SrcAt(c, FindFrom(c, from).value)
    ensures FindFrom(c, from).Some? ==> forall p :: from <= p < FindFrom(c, from).value ==> !SrcAt(c, p)
    ensures FindFrom(c, from).None? ==> forall p :: from <= p ==> !SrcAt(c, p)
    decreases |c| - from
  {
    if from + 7 <= |c| && !SrcAt(c, from) {
      FindFromFirst(c, from + 1);
    }
  }

  /** A match at p is found by a search from anywhere up to p, at p or before it. */
  lemma {:induction false} FindFromReaches(c: string, from: nat, p: nat)
    requires from <= p && SrcAt(c, p)
    ensures FindFrom(c, from).Some? && FindFrom(c, from).value <= p && SrcAt(c, FindFrom(c, from).value)
    decreases p - from
  {
    if from < p && !SrcAt(c, from) {
      FindFromReaches(c, from + 1, p);
    }
  }

  /** PHP's substr for a start and a length that are not negative. */
  function Substr(s: string, start: nat, len: nat): (r: string)
    ensures |r| <= len
    ensures start + len <= |s| ==> r == s[start..start + len]
    ensures start <= |s| && |r| == len ==> start + len <= |s|
  {
    if start >= |s| then "" else s[start..if start + len <= |s| then start + len else |s|]
  }

  /** The path after the match starts with the web root and not already with the document root. */
  predicate Needs(c: string, j: nat, webRoot: string, serverRoot: string)
  {
    Substr(c, j + 6, |webRoot|) == webRoot && Substr(c, j + 6, |serverRoot|) != serverRoot
  }

  /** The web root after the match at j replaced by the document root. */
  function Replace(c: string, j: nat, webRoot: string, serverRoot: string): (r: string)
    requires j + 6 + |webRoot| <= |c|
    ensures |r| == |c| - |webRoot| + |serverRoot|
    ensures r[..j + 6] == c[..j + 6] && r[j + 6..j + 6 + |serverRoot|] == serverRoot
  {
    c[..j + 6] + serverRoot + c[j + 6 + |webRoot|..]
  }

  lemma NeedsRoom(c: string, j: nat, webRoot: string, serverRoot: string)
    requires j + 7 <= |c| && Needs(c, j, webRoot, serverRoot)
    ensures j + 6 + |webRoot| <= |c|
  {
  }

  /**
   * What happens at the match j: the web root replaced and the search going
   * on behind the inserted document root, or nothing and the search going on
   * one past the match.
   */
  function Advance(c: string, j: nat, webRoot: string, serverRoot: string): (r: (string, nat))
    requires j + 7 <= |c|
    ensures j < r.1 <= |r.0| && |r.0| - r.1 < |c| - j
  {
    if Needs(c, j, webRoot, serverRoot) then
      NeedsRoom(c, j, webRoot, serverRoot);
      (Replace(c, j, webRoot, serverRoot), j + 6 + |serverRoot|)
    else (c, j + 1)
  }

  /** Where the path needs nothing, the step leaves the text and moves one past the match. */
  lemma SkippedAt(c: string, j: nat, webRoot: string, serverRoot: string)
    requires j + 7 <= |c| && !Needs(c, j, webRoot, serverRoot)
    ensures Advance(c, j, webRoot, serverRoot) == (c, j + 1)
  {
  }

  /** Where the path needs it, the step puts the document root right after the match. */
  lemma FixedAt(c: string, j: nat, webRoot: string, serverRoot: string)
    requires j + 7 <= |c| && Needs(c, j, webRoot, serverRoot)
    ensures Advance(c, j, webRoot, serverRoot).1 == j + 6 + |serverRoot|
    ensures Advance(c, j, webRoot, serverRoot).0[..j + 6 + |serverRoot|] == c[..j + 6] + serverRoot
  {
    NeedsRoom(c, j, webRoot, serverRoot);
    var r := Replace(c, j, webRoot, serverRoot);
    assert r[..j + 6 + |serverRoot|] == c[..j + 6] + serverRoot;
  }

  /**
   * The rewritten text: matches are taken in order from `from`. After a
   * replacement the search goes on behind the inserted document root; the
   * source searches again from one past the match, and GetContent shows the
   * two agree when the document root holds no space.
   */
  function Rewrite(c: string, from: nat, webRoot: string, serverRoot: string): string
    requires from <= |c|
    decreases |c| - from
  {
    match FindFrom(c, from)
    case None => c
    case Some(j) =>
      var next := Advance(c, j, webRoot, serverRoot);
      Rewrite(next.0, next.1, webRoot, serverRoot)
  }

  predicate NoSpace(s: string)
  {
    forall k :: 0 <= k < |s| ==> s[k] != ' '
  }

  /** No match starts inside "src='" or inside a document root without spaces. */
  lemma NoMatchInside(c: string, j: nat, webRoot: string, serverRoot: string)
    requires SrcAt(c, j) && j + 6 + |webRoot| <= |c| && NoSpace(serverRoot)
    ensures forall p :: j + 1 <= p < j + 6 + |serverRoot| ==> !SrcAt(Replace(c, j, webRoot, serverRoot), p)
  {
    var r := Replace(c, j, webRoot, serverRoot);
    forall p | j + 1 <= p < j + 6 + |serverRoot|
      ensures !SrcAt(r, p)
    {
      if p < j + 6 {
        assert r[p] == c[p];
      } else {
        assert r[p] == serverRoot[p - j - 6];
      }
    }
  }

  /** Searching from a or from b finds the same match when none starts in between. */
  lemma SkipNothing(c: string, a: nat, b: nat)
    requires a <= b <= |c|
    requires forall p :: a <= p < b ==> !SrcAt(c, p)
    ensures FindFrom(c, a) == FindFrom(c, b)
  {
    FindFromFirst(c, a);
    FindFromFirst(c, b);
  }

  /** Between the match and where the search goes on, no match is passed over. */
  lemma AdvanceSkipsNothing(c: string, j: nat, webRoot: string, serverRoot: string)
    requires SrcAt(c, j) && NoSpace(serverRoot)
    ensures forall p :: j + 1 <= p < Advance(c, j, webRoot, serverRoot).1 ==> !SrcAt(Advance(c, j, webRoot, serverRoot).0, p)
  {
    if Needs(c, j, webRoot, serverRoot) {
      NeedsRoom(c, j, webRoot, serverRoot);
      NoMatchInside(c, j, webRoot, serverRoot);
    }
  }

  /** The body of the search loop for the match at j: the web root replaced when the path needs it. */
  method FixAt(content: string, j: nat, webRoot: string, serverRoot: string) returns (fixed: string, ghost resume: nat)
    requires j + 7 <= |content|
    ensures (fixed, resume) == Advance(content, j, webRoot, serverRoot)
  {
    if Substr(content, j + 6, |webRoot|) == webRoot && Substr(content, j + 6, |serverRoot|) != serverRoot {
      NeedsRoom(content, j, webRoot, serverRoot);
      fixed := content[..j + 6] + serverRoot + content[j + 6 + |webRoot|..];
      resume := j + 6 + |serverRoot|;
    } else {
      fixed := content;
      resume := j + 1;
    }
  }

  /**
   * getContent: an empty buffer makes the first search fail; otherwise the
   * search resumes one past every match, as the source does, and the result
   * is the rewritten text.
   */
  method GetContent(content0: string, webRoot: string, serverRoot: string) returns (r: Result<string, ContentError>)
    requires NoSpace(serverRoot)
    ensures content0 == [] ==> r == Err(OffsetOutOfRange)
    ensures content0 != [] ==> r == Ok(Rewrite(content0, 1, webRoot, serverRoot))
  {
    if |content0| < 1 {
      return Err(OffsetOutOfRange);
    }
    var content := content0;
    var i: nat := 0;
    ghost var resume: nat := 1;
    while true
      invariant i + 1 <= resume <= |content|
      invariant forall p :: i + 1 <= p < resume ==> !SrcAt(content, p)
      invariant Rewrite(content, resume, webRoot, serverRoot) == Rewrite(content0, 1, webRoot, serverRoot)
      decreases |content| - resume
    {
      var found := FindFrom(content, i + 1);
      if found.None? {
        NoneFound(content, i, resume, webRoot, serverRoot);
        break;
      }
      var j := found.value;
      FoundAt(content, i, resume, j, webRoot, serverRoot);
      content, resume := FixAt(content, j, webRoot, serverRoot);
      i := j;
    }
    return Ok(content);
  }

  /** A search from one past the last match that finds nothing ends the rewrite. */
  lemma NoneFound(c: string, i: nat, resume: nat, webRoot: string, serverRoot: string)
    requires i + 1 <= resume <= |c|
    requires forall p :: i + 1 <= p < resume ==> !SrcAt(c, p)
    requires FindFrom(c, i + 1).None?
    ensures Rewrite(c, resume, webRoot, serverRoot) == c
  {
    SkipNothing(c, i + 1, resume);
  }

  /**
   * A search from one past the last match finds the match the rewrite takes
   * next, and the step there passes over no match.
   */
  lemma FoundAt(c: string, i: nat, resume: nat, j: nat, webRoot: string, serverRoot: string)
    requires i + 1 <= resume <= |c| && NoSpace(serverRoot)
    requires forall p :: i + 1 <= p < resume ==> !SrcAt(c, p)
    requires FindFrom(c, i + 1) == Some(j)
    ensures resume <= j && j + 7 <= |c|
    ensures Rewrite(c, resume, webRoot, serverRoot) ==
      Rewrite(Advance(c, j, webRoot, serverRoot).0, Advance(c, j, webRoot, serverRoot).1, webRoot, serverRoot)
    ensures forall p :: j + 1 <= p < Advance(c, j, webRoot, serverRoot).1 ==> !SrcAt(Advance(c, j, webRoot, serverRoot).0, p)
  {
    SkipNothing(c, i + 1, resume);
    FindFromFirst(c, i + 1);
    AdvanceSkipsNothing(c, j, webRoot, serverRoot);
  }

  // ---------------------------------------------------------------------
  // What the rewrite does
  // ---------------------------------------------------------------------

  /** The text before the search position is kept. */
  lemma {:induction false} RewriteKeepsPrefix(c: string, from: nat, webRoot: string, serverRoot: string)
    requires from <= |c|
    ensures from <= |Rewrite(c, from, webRoot, serverRoot)|
    ensures Rewrite(c, from, webRoot, serverRoot)[..from] == c[..from]
    decreases |c| - from
  {
    var found := FindFrom(c, from);
    if found.None? {
      assert Rewrite(c, from, webRoot, serverRoot) == c;
    } else {
      var j := found.value;
      var next := Advance(c, j, webRoot, serverRoot);
      assert Rewrite(c, from, webRoot, serverRoot) == Rewrite(next.0, next.1, webRoot, serverRoot);
      RewriteKeepsPrefix(next.0, next.1, webRoot, serverRoot);
      AdvanceKeepsPrefix(c, j, webRoot, serverRoot);
      PrefixOfPrefix(c, next.0, Rewrite(next.0, next.1, webRoot, serverRoot), from, j + 1, next.1);
    }
  }

  /** Advancing at j keeps the text up to one past j. */
  lemma AdvanceKeepsPrefix(c: string, j: nat, webRoot: string, serverRoot: string)
    requires j + 7 <= |c|
    ensures Advance(c, j, webRoot, serverRoot).0[..j + 1] == c[..j + 1]
  {
    if Needs(c, j, webRoot, serverRoot) {
      NeedsRoom(c, j, webRoot, serverRoot);
      var r := Replace(c, j, webRoot, serverRoot);
      assert r[..j + 1] == r[..j + 6][..j + 1];
    }
  }

  /** Agreement on a longer prefix is agreement on a shorter one. */
  lemma PrefixOfPrefix(a: string, b: string, r: string, n: nat, m: nat, k: nat)
    requires n <= m <= k <= |r| && m <= |a| && k <= |b|
    requires b[..m] == a[..m] && r[..k] == b[..k]
    ensures r[..n] == a[..n]
  {
    assert r[..n] == r[..k][..n];
    assert a[..n] == a[..m][..n];
    assert b[..n] == b[..m][..n] == b[..k][..n];
  }

  /** With no path that needs the document root, the text is left as it is. */
  lemma {:induction false} NothingToFix(c: string, from: nat, webRoot: string, serverRoot: string)
    requires from <= |c|
    requires forall p :: from <= p && SrcAt(c, p) ==> !Needs(c, p, webRoot, serverRoot)
    ensures Rewrite(c, from, webRoot, serverRoot) == c
    decreases |c| - from
  {
    var found := FindFrom(c, from);
    FindFromFirst(c, from);
    if found.None? {
      assert Rewrite(c, from, webRoot, serverRoot) == c;
    } else {
      var j := found.value;
      assert Advance(c, j, webRoot, serverRoot) == (c, j + 1);
      assert Rewrite(c, from, webRoot, serverRoot) == Rewrite(c, j + 1, webRoot, serverRoot);
      NothingToFix(c, j + 1, webRoot, serverRoot);
      assert Rewrite(c, j + 1, webRoot, serverRoot) == c;
    }
  }

  /** Up to the first path that needs the document root, the rewrite only moves on. */
  lemma {:induction false} SkipToFirst(c: string, from: nat, p: nat, webRoot: string, serverRoot: string)
    requires from <= p && SrcAt(c, p)
    requires forall q :: from <= q < p && SrcAt(c, q) ==> !Needs(c, q, webRoot, serverRoot)
    ensures Rewrite(c, from, webRoot, serverRoot) == Rewrite(c, p, webRoot, serverRoot)
    decreases p - from
  {
    FindFromReaches(c, from, p);
    var j := FindFrom(c, from).value;
    if j < p {
      RewriteSkipsFound(c, from, j, webRoot, serverRoot);
      SkipToFirst(c, j + 1, p, webRoot, serverRoot);
    } else {
      FindFromReaches(c, p, p);
      SameFind(c, from, p, webRoot, serverRoot);
    }
  }

  /** The rewrite from a position depends only on the match the search from there finds. */
  lemma SameFind(c: string, a: nat, b: nat, webRoot: string, serverRoot: string)
    requires a <= |c| && b <= |c| && FindFrom(c, a) == FindFrom(c, b)
    ensures Rewrite(c, a, webRoot, serverRoot) == Rewrite(c, b, webRoot, serverRoot)
  {
  }

  /**
   * The first path that needs the document root gets it: the text up to the
   * path is kept and the document root follows.
   */
  lemma FirstPathFixed(c: string, from: nat, p: nat, webRoot: string, serverRoot: string)
    requires from <= p && SrcAt(c, p) && Needs(c, p, webRoot, serverRoot)
    requires forall q :: from <= q < p && SrcAt(c, q) ==> !Needs(c, q, webRoot, serverRoot)
    ensures p + 6 + |serverRoot| <= |Rewrite(c, from, webRoot, serverRoot)|
    ensures Rewrite(c, from, webRoot, serverRoot)[..p + 6 + |serverRoot|] == c[..p + 6] + serverRoot
  {
    SkipToFirst(c, from, p, webRoot, serverRoot);
    FindFromReaches(c, p, p);
    RewriteFixesFound(c, p, p, webRoot, serverRoot);
  }

  /** When the match found needs the document root, the result starts with the text up to it and the document root. */
  lemma RewriteFixesFound(c: string, from: nat, j: nat, webRoot: string, serverRoot: string)
    requires from <= |c| && FindFrom(c, from) == Some(j) && Needs(c, j, webRoot, serverRoot)
    ensures j + 6 + |serverRoot| <= |Rewrite(c, from, webRoot, serverRoot)|
    ensures Rewrite(c, from, webRoot, serverRoot)[..j + 6 + |serverRoot|] == c[..j + 6] + serverRoot
  {
    var next := Advance(c, j, webRoot, serverRoot);
    assert Rewrite(c, from, webRoot, serverRoot) == Rewrite(next.0, next.1, webRoot, serverRoot);
    FixedAt(c, j, webRoot, serverRoot);
    RewriteKeepsPrefix(next.0, next.1, webRoot, serverRoot);
  }

  /** When the match found needs nothing, the rewrite goes on one past it. */
  lemma RewriteSkipsFound(c: string, from: nat, j: nat, webRoot: string, serverRoot: string)
    requires from <= |c| && FindFrom(c, from) == Some(j) && !Needs(c, j, webRoot, serverRoot)
    ensures Rewrite(c, from, webRoot, serverRoot) == Rewrite(c, j + 1, webRoot, serverRoot)
  {
    SkippedAt(c, j, webRoot, serverRoot);
  }

  /** The text changes exactly when some path at or after the search position needs the document root. */
  lemma RewriteChangesIffNeeded(c: string, from: nat, webRoot: string, serverRoot: string)
    requires from <= |c|
    ensures Rewrite(c, from, webRoot, serverRoot) == c <==>
      (forall p :: from <= p && SrcAt(c, p) ==> !Needs(c, p, webRoot, serverRoot))
  {
    match FirstNeeding(c, from, webRoot, serverRoot)
    case None =>
      NothingToFix(c, from, webRoot, serverRoot);
    case Some(p) =>
      FirstPathFixed(c, from, p, webRoot, serverRoot);
      var r := Rewrite(c, from, webRoot, serverRoot);
      if |r| == |c| {
        assert r[p + 6..p + 6 + |serverRoot|] == serverRoot;
        assert c[p + 6..p + 6 + |serverRoot|] == Substr(c, p + 6, |serverRoot|);
      }
  }

  /** The first match at or after `from` whose path needs the document root. */
  function FirstNeeding(c: string, from: nat, webRoot: string, serverRoot: string): (r: Option<nat>)
    requires from <= |c|
    ensures r.Some? ==> from <= r.value && SrcAt(c, r.value) && Needs(c, r.value, webRoot, serverRoot)
    ensures r.Some? ==> forall q :: from <= q < r.value && SrcAt(c, q) ==> !Needs(c, q, webRoot, serverRoot)
    ensures r.None? ==> forall q :: from <= q && SrcAt(c, q) ==> !Needs(c, q, webRoot, serverRoot)
    decreases |c| - from
  {
    FindFromFirst(c, from);
    match FindFrom(c, from)
    case None => None
    case Some(j) =>
      if Needs(c, j, webRoot, serverRoot) then Some(j)
      else
        assert forall q :: from <= q <= j && SrcAt(c, q) ==> q == j;
        FirstNeeding(c, j + 1, webRoot, serverRoot)
  }
}
