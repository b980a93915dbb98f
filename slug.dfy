/**
 * Slugs: the URL-safe names derived from template titles, and the numbered
 * candidates tried when a slug is already taken.
 */
module Slug {
  import opened Text

  const MaxSlugLength: nat := 80
  const FallbackSlug: string := "template"

  predicate IsSlugAlnum(c: char) {
    'a' <= c <= 'z' || '0' <= c <= '9'
  }

  predicate IsSlugChar(c: char) {
    IsSlugAlnum(c) || c == '-'
  }

  predicate AllSlugChars(s: string) {
    forall i :: 0 <= i < |s| ==> IsSlugChar(s[i])
  }

  /** Positions `i` and `i + 1` of `s` both hold a hyphen. */
  predicate DoubleHyphenAt(s: string, i: int) {
    0 <= i < |s| - 1 && s[i] == '-' && s[i + 1] == '-'
  }

  ghost predicate NoDoubleHyphen(s: string) {
    forall i :: !DoubleHyphenAt(s, i)
  }

  lemma NoDoubleHyphenCons(c: char, r: string)
    requires NoDoubleHyphen(r) && (c != '-' || r == [] || r[0] != '-')
    ensures NoDoubleHyphen([c] + r)
  {
    forall i
      ensures !DoubleHyphenAt([c] + r, i)
    {
      if 0 < i < |r| {
        assert !DoubleHyphenAt(r, i - 1);
      }
    }
  }

  lemma NoDoubleHyphenTail(s: string)
    requires s != [] && NoDoubleHyphen(s)
    ensures NoDoubleHyphen(s[1..])
    ensures |s| >= 2 ==> s[0] != '-' || s[1] != '-'
  {
    assert !DoubleHyphenAt(s, 0);
    forall i
      ensures !DoubleHyphenAt(s[1..], i)
    {
      assert !DoubleHyphenAt(s, i + 1);
    }
  }

  lemma NoDoubleHyphenPrefix(s: string, n: nat)
    requires n <= |s| && NoDoubleHyphen(s)
    ensures NoDoubleHyphen(s[..n])
  {
    forall i
      ensures !DoubleHyphenAt(s[..n], i)
    {
      assert !DoubleHyphenAt(s, i);
    }
  }

  /** The letters and digits of `s` that a slug keeps, in order. */
  function Alnums(s: string): string {
    if s == [] then [] else (if IsSlugAlnum(s[0]) then [s[0]] else []) + Alnums(s[1..])
  }

  lemma {:induction false} AlnumsConcat(a: string, b: string)
    ensures Alnums(a + b) == Alnums(a) + Alnums(b)
  {
    if a != [] {
      var head := if IsSlugAlnum(a[0]) then [a[0]] else [];
      assert (a + b)[0] == a[0];
      assert (a + b)[1..] == a[1..] + b;
      AlnumsConcat(a[1..], b);
      calc {
        Alnums(a + b);
        head + Alnums(a[1..] + b);
        head + (Alnums(a[1..]) + Alnums(b));
        (head + Alnums(a[1..])) + Alnums(b);
        Alnums(a) + Alnums(b);
      }
    } else {
      assert a + b == b;
    }
  }

  lemma AlnumsPrefix(s: string, n: nat)
    requires n <= |s|
    ensures Alnums(s[..n]) <= Alnums(s)
  {
    assert s == s[..n] + s[n..];
    AlnumsConcat(s[..n], s[n..]);
  }

  /** Drops the leading characters that are neither letters nor digits. */
  function DropNonAlnum(s: string): (r: string)
    ensures |r| <= |s|
    ensures r == [] || IsSlugAlnum(r[0])
  {
    if s != [] && !IsSlugAlnum(s[0]) then DropNonAlnum(s[1..]) else s
  }

  lemma {:induction false} DropNonAlnumKeepsAlnums(s: string)
    ensures Alnums(DropNonAlnum(s)) == Alnums(s)
  {
    if s != [] && !IsSlugAlnum(s[0]) {
      DropNonAlnumKeepsAlnums(s[1..]);
    }
  }

  /** `replace(/[^a-z0-9]+/g, "-")`: every maximal run of other characters becomes one hyphen. */
  function DashRuns(s: string): (r: string)
    ensures |r| <= |s|
    ensures AllSlugChars(r)
    decreases |s|
  {
    if s == [] then []
    else if IsSlugAlnum(s[0]) then [s[0]] + DashRuns(s[1..])
    else "-" + DashRuns(DropNonAlnum(s[1..]))
  }

  lemma {:induction false} DashRunsKeepsAlnums(s: string)
    ensures Alnums(DashRuns(s)) == Alnums(s)
    decreases |s|
  {
    if s != [] {
      var r := DashRuns(s);
      if IsSlugAlnum(s[0]) {
        DashRunsKeepsAlnums(s[1..]);
        assert r == [s[0]] + DashRuns(s[1..]);
        assert r[0] == s[0] && r[1..] == DashRuns(s[1..]);
      } else {
        DropNonAlnumKeepsAlnums(s[1..]);
        DashRunsKeepsAlnums(DropNonAlnum(s[1..]));
        assert r == "-" + DashRuns(DropNonAlnum(s[1..]));
        assert r[0] == '-' && r[1..] == DashRuns(DropNonAlnum(s[1..]));
      }
    }
  }

  /** `replace(/^-+/, "")`. */
  function TrimLeadingHyphens(s: string): (r: string)
    ensures |r| <= |s| && r == s[|s| - |r|..]
    ensures r == [] || r[0] != '-'
    ensures forall k :: 0 <= k < |s| - |r| ==> s[k] == '-'
  {
    if s != [] && s[0] == '-' then TrimLeadingHyphens(s[1..]) else s
  }

  lemma {:induction false} TrimLeadingHyphensKeepsAlnums(s: string)
    ensures Alnums(TrimLeadingHyphens(s)) == Alnums(s)
  {
    if s != [] && s[0] == '-' {
      TrimLeadingHyphensKeepsAlnums(s[1..]);
    }
  }

  /** `replace(/-+$/, "")`. */
  function TrimTrailingHyphens(s: string): (r: string)
    ensures |r| <= |s| && r == s[..|r|]
    ensures r == [] || r[|r| - 1] != '-'
    ensures forall k :: |r| <= k < |s| ==> s[k] == '-'
  {
    if s != [] && s[|s| - 1] == '-' then TrimTrailingHyphens(s[..|s| - 1]) else s
  }

  lemma {:induction false} TrimTrailingHyphensKeepsAlnums(s: string)
    ensures Alnums(TrimTrailingHyphens(s)) == Alnums(s)
  {
    if s != [] && s[|s| - 1] == '-' {
      assert s == s[..|s| - 1] + [s[|s| - 1]];
      AlnumsConcat(s[..|s| - 1], [s[|s| - 1]]);
      TrimTrailingHyphensKeepsAlnums(s[..|s| - 1]);
    }
  }

  /** `replace(/-{2,}/g, "-")`: every run of hyphens shrinks to one. */
  function CollapseHyphens(s: string): (r: string)
    ensures |r| <= |s|
    ensures NoDoubleHyphen(r)
    ensures s != [] ==> r != [] && r[0] == s[0] && r[|r| - 1] == s[|s| - 1]
  {
    if |s| >= 2 && s[0] == '-' && s[1] == '-' then
      CollapseHyphens(s[1..])
    else if s == [] then
      []
    else
      var rest := CollapseHyphens(s[1..]);
      assert ([s[0]] + rest)[1..] == rest;
      NoDoubleHyphenCons(s[0], rest);
      [s[0]] + rest
  }

  /** Collapsing removes hyphens only. */
  lemma {:induction false} CollapseKeepsAlnums(s: string)
    ensures AllSlugChars(s) ==> AllSlugChars(CollapseHyphens(s))
    ensures Alnums(CollapseHyphens(s)) == Alnums(s)
  {
    if |s| >= 2 && s[0] == '-' && s[1] == '-' {
      CollapseKeepsAlnums(s[1..]);
    } else if s != [] {
      CollapseKeepsAlnums(s[1..]);
      var r := CollapseHyphens(s);
      assert r == [s[0]] + CollapseHyphens(s[1..]);
      assert r[1..] == CollapseHyphens(s[1..]);
    }
  }

  /** Collapsing leaves a string without hyphen runs as it is. */
  lemma {:induction false} CollapseKeepsSingleHyphens(s: string)
    requires NoDoubleHyphen(s)
    ensures CollapseHyphens(s) == s
  {
    if s != [] {
      NoDoubleHyphenTail(s);
      CollapseKeepsSingleHyphens(s[1..]);
      assert s == [s[0]] + s[1..];
    }
  }

  lemma CollapseCons(c: char, y: string)
    requires c != '-'
    ensures CollapseHyphens([c] + y) == [c] + CollapseHyphens(y)
  {
    assert ([c] + y)[1..] == y;
  }

  lemma NoHyphenTail(w: string)
    requires w != [] && forall i :: 0 <= i < |w| ==> w[i] != '-'
    ensures w[0] != '-' && forall i :: 0 <= i < |w| - 1 ==> w[1..][i] != '-'
  {
    forall i | 0 <= i < |w| - 1
      ensures w[1..][i] != '-'
    {
      assert w[1..][i] == w[i + 1];
    }
  }

  /** Characters other than hyphens pass through `CollapseHyphens` unchanged. */
  lemma {:induction false} CollapseNoHyphenPrefix(w: string, t: string)
    requires forall i :: 0 <= i < |w| ==> w[i] != '-'
    ensures CollapseHyphens(w + t) == w + CollapseHyphens(t)
    decreases |w|
  {
    if w == [] {
      assert w + t == t;
    } else {
      var w' := w[1..];
      NoHyphenTail(w);
      CollapseNoHyphenPrefix(w', t);
      CollapseCons(w[0], w' + t);
      assert w + t == [w[0]] + (w' + t);
      assert w + CollapseHyphens(t) == [w[0]] + (w' + CollapseHyphens(t));
    }
  }

  /** A whole run of hyphens, however long, becomes exactly one hyphen. */
  lemma {:induction false} CollapseHyphenRun(h: string, rest: string)
    requires h != [] && forall i :: 0 <= i < |h| ==> h[i] == '-'
    requires rest == [] || rest[0] != '-'
    ensures CollapseHyphens(h + rest) == "-" + CollapseHyphens(rest)
    decreases |h|
  {
    var x := h + rest;
    assert x[0] == '-' && x[1..] == h[1..] + rest;
    if |h| >= 2 {
      assert x[1] == '-';
      forall i | 0 <= i < |h| - 1
        ensures h[1..][i] == '-'
      {
        assert h[1..][i] == h[i + 1];
      }
      CollapseHyphenRun(h[1..], rest);
    } else {
      assert h[1..] + rest == rest;
    }
  }

  lemma TrimLeadingHyphensKeepsChars(d: string)
    requires AllSlugChars(d)
    ensures AllSlugChars(TrimLeadingHyphens(d))
  {
    var l := TrimLeadingHyphens(d);
    forall i | 0 <= i < |l| ensures IsSlugChar(l[i]) {
      assert l[i] == d[|d| - |l| + i];
    }
  }

  lemma TrimTrailingHyphensKeepsChars(l: string)
    requires AllSlugChars(l)
    ensures AllSlugChars(TrimTrailingHyphens(l))
  {
    var t := TrimTrailingHyphens(l);
    forall i | 0 <= i < |t| ensures IsSlugChar(t[i]) {
      assert t[i] == l[i];
    }
  }

  /** `t` sits at index `i` of `d` with nothing but hyphens around it. */
  ghost predicate HyphensAround(d: string, t: string, i: int) {
    && OccursAt(d, t, i)
    && (forall k :: 0 <= k < i ==> d[k] == '-')
    && (forall k :: i + |t| <= k < |d| ==> d[k] == '-')
  }

  lemma {:induction false} TrimmedHyphensAround(d: string)
    ensures HyphensAround(d, TrimTrailingHyphens(TrimLeadingHyphens(d)), |d| - |TrimLeadingHyphens(d)|)
  {
    var l := TrimLeadingHyphens(d);
    var t := TrimTrailingHyphens(l);
    var i := |d| - |l|;
    assert OccursAt(d, t, i);
    forall k | i + |t| <= k < |d|
      ensures d[k] == '-'
    {
      assert d[k] == l[k - i];
    }
  }

  /** The hyphenated string with the hyphens at both ends removed, and only those. */
  function TrimHyphens(d: string): (t: string)
    ensures |t| <= |d|
    ensures t == [] || (t[0] != '-' && t[|t| - 1] != '-')
    ensures exists i :: HyphensAround(d, t, i)
  {
    var l := TrimLeadingHyphens(d);
    var t := TrimTrailingHyphens(l);
    assert t != [] ==> t[0] == l[0];
    TrimmedHyphensAround(d);
    t
  }

  lemma TrimHyphensKeepsChars(d: string)
    requires AllSlugChars(d)
    ensures AllSlugChars(TrimHyphens(d))
  {
    TrimLeadingHyphensKeepsChars(d);
    TrimTrailingHyphensKeepsChars(TrimLeadingHyphens(d));
  }

  lemma TrimHyphensKeepsAlnums(d: string)
    ensures Alnums(TrimHyphens(d)) == Alnums(d)
  {
    TrimLeadingHyphensKeepsAlnums(d);
    TrimTrailingHyphensKeepsAlnums(TrimLeadingHyphens(d));
  }

  /** The slug before the length cap and the fallback. */
  function SlugBody(value: string): (r: string)
    ensures |r| <= |value|
    ensures AllSlugChars(r) && NoDoubleHyphen(r)
    ensures r == [] || (r[0] != '-' && r[|r| - 1] != '-')
  {
    var t := TrimHyphens(DashRuns(Lower(value)));
    TrimHyphensKeepsChars(DashRuns(Lower(value)));
    CollapseKeepsAlnums(t);
    CollapseHyphens(t)
  }

  lemma SlugBodyKeepsAlnums(value: string)
    ensures Alnums(SlugBody(value)) == Alnums(Lower(value))
  {
    var d := DashRuns(Lower(value));
    DashRunsKeepsAlnums(Lower(value));
    TrimHyphensKeepsAlnums(d);
    CollapseKeepsAlnums(TrimHyphens(d));
  }

  /** A slug-character string that does not start with a hyphen keeps a letter or digit. */
  lemma NonEmptyBodyHasAlnum(s: string)
    requires AllSlugChars(s) && s != [] && s[0] != '-'
    ensures Alnums(s) != []
  {
    assert Alnums(s) == [s[0]] + Alnums(s[1..]);
  }

  lemma FallbackSlugIsClean()
    ensures IsCleanSlug(FallbackSlug)
  {
  }

  /**
   * `slugify`: lower-case, hyphenate, trim hyphens, collapse hyphen runs,
   * keep at most 80 characters, and fall back to "template" when nothing is left.
   */
  function Slugify(value: string): (r: string)
    ensures 0 < |r| <= MaxSlugLength
    ensures AllSlugChars(r)
    ensures r[0] != '-'
    ensures NoDoubleHyphen(r)
    ensures r[|r| - 1] == '-' ==> |r| == MaxSlugLength
  {
    var body := SlugBody(value);
    if body == [] then
      FallbackSlugIsClean();
      FallbackSlug
    else
      NonEmptyBodyHasAlnum(body);
      if |body| <= MaxSlugLength then body else NoDoubleHyphenPrefix(body, MaxSlugLength); body[..MaxSlugLength]
  }

  /**
   * The slug keeps the letters and digits of the lower-cased value, in order:
   * all of them when the value fits the cap, a prefix of them otherwise, and
   * the fallback only when there are none.
   */
  lemma SlugifyKeepsAlnums(value: string)
    ensures Alnums(Lower(value)) == [] ==> Slugify(value) == FallbackSlug
    ensures Alnums(Lower(value)) != [] ==> Alnums(Slugify(value)) <= Alnums(Lower(value))
    ensures Alnums(Lower(value)) != [] && |value| <= MaxSlugLength ==> Alnums(Slugify(value)) == Alnums(Lower(value))
  {
    var body := SlugBody(value);
    SlugBodyKeepsAlnums(value);
    if body != [] {
      var cut := if |body| <= MaxSlugLength then body else body[..MaxSlugLength];
      NonEmptyBodyHasAlnum(body);
      AlnumsPrefix(body, |cut|);
      assert body[..|cut|] == cut;
    }
  }

  /** When the body fits the cap and is non-empty, it is the slug. */
  lemma SlugifyOfShortBody(value: string)
    requires 0 < |SlugBody(value)| <= MaxSlugLength
    ensures Slugify(value) == SlugBody(value)
  {
  }

  ghost predicate IsCleanSlug(s: string) {
    && 0 < |s| <= MaxSlugLength
    && AllSlugChars(s)
    && s[0] != '-' && s[|s| - 1] != '-'
    && NoDoubleHyphen(s)
  }

  lemma {:induction false} DashRunsKeepsSlug(s: string)
    requires AllSlugChars(s) && NoDoubleHyphen(s)
    ensures DashRuns(s) == s
    decreases |s|
  {
    if s != [] {
      NoDoubleHyphenTail(s);
      if IsSlugAlnum(s[0]) {
        DashRunsKeepsSlug(s[1..]);
      } else {
        assert s[1..] == [] || IsSlugAlnum(s[1]);
        assert DropNonAlnum(s[1..]) == s[1..];
        DashRunsKeepsSlug(s[1..]);
      }
      assert s == [s[0]] + s[1..];
    }
  }

  lemma LowerKeepsSlug(s: string)
    requires AllSlugChars(s)
    ensures Lower(s) == s
  {
    assert forall i :: 0 <= i < |s| ==> Lower(s)[i] == s[i];
  }

  lemma CleanSlugBody(s: string)
    requires IsCleanSlug(s)
    ensures CollapseHyphens(TrimHyphens(s)) == s
  {
    assert TrimLeadingHyphens(s) == s;
    assert TrimTrailingHyphens(s) == s;
    CollapseKeepsSingleHyphens(s);
  }

  lemma SlugBodyOfCleanSlug(s: string)
    requires IsCleanSlug(s)
    ensures SlugBody(s) == s
  {
    LowerKeepsSlug(s);
    DashRunsKeepsSlug(s);
    CleanSlugBody(s);
  }

  /** A well-formed slug is a fixed point of `Slugify`. */
  lemma SlugifyKeepsCleanSlug(s: string)
    requires IsCleanSlug(s)
    ensures Slugify(s) == s
  {
    SlugBodyOfCleanSlug(s);
    SlugifyOfShortBody(s);
  }

  /** Letters and digits pass through `DashRuns` unchanged. */
  lemma {:induction false} DashRunsAlnumPrefix(w: string, t: string)
    requires forall i :: 0 <= i < |w| ==> IsSlugAlnum(w[i])
    ensures DashRuns(w + t) == w + DashRuns(t)
    decreases |w|
  {
    if w == [] {
      assert w + t == t;
    } else {
      var x, w' := w + t, w[1..];
      assert DashRuns(w' + t) == w' + DashRuns(t) by {
        forall i | 0 <= i < |w'|
          ensures IsSlugAlnum(w'[i])
        {
          assert w'[i] == w[i + 1];
        }
        DashRunsAlnumPrefix(w', t);
      }
      assert x[0] == w[0] && x[1..] == w' + t;
      assert w == [w[0]] + w';
    }
  }

  /** Dropping a run of separators in front of a letter or digit, or of the end. */
  lemma {:induction false} DropNonAlnumPrefix(x: string, rest: string)
    requires forall i :: 0 <= i < |x| ==> !IsSlugAlnum(x[i])
    requires rest == [] || IsSlugAlnum(rest[0])
    ensures DropNonAlnum(x + rest) == rest
    decreases |x|
  {
    if x == [] {
      assert x + rest == rest;
    } else {
      assert (x + rest)[0] == x[0];
      assert (x + rest)[1..] == x[1..] + rest;
      forall i | 0 <= i < |x| - 1
        ensures !IsSlugAlnum(x[1..][i])
      {
        assert x[1..][i] == x[i + 1];
      }
      DropNonAlnumPrefix(x[1..], rest);
    }
  }

  /**
   * A maximal run of other characters, followed by a letter or digit or by
   * the end, becomes exactly one hyphen.
   */
  lemma DashRunsSeparator(sep: string, rest: string)
    requires sep != [] && forall i :: 0 <= i < |sep| ==> !IsSlugAlnum(sep[i])
    requires rest == [] || IsSlugAlnum(rest[0])
    ensures DashRuns(sep + rest) == "-" + DashRuns(rest)
  {
    var x := sep + rest;
    assert x[0] == sep[0] && x[1..] == sep[1..] + rest;
    forall i | 0 <= i < |sep| - 1
      ensures !IsSlugAlnum(sep[1..][i])
    {
      assert sep[1..][i] == sep[i + 1];
    }
    DropNonAlnumPrefix(sep[1..], rest);
  }

  predicate IsWord(w: string) {
    w != [] && forall k :: 0 <= k < |w| ==> IsSlugAlnum(w[k])
  }

  /** The longest prefix of `s` made of letters and digits. */
  function LeadingWord(s: string): (w: string)
    ensures |w| <= |s| && w == s[..|w|]
    ensures forall k :: 0 <= k < |w| ==> IsSlugAlnum(w[k])
    ensures |w| < |s| ==> !IsSlugAlnum(s[|w|])
    ensures s != [] && IsSlugAlnum(s[0]) ==> w != []
  {
    if s != [] && IsSlugAlnum(s[0]) then
      var w' := LeadingWord(s[1..]);
      assert s[..|w'| + 1] == [s[0]] + w';
      [s[0]] + w'
    else
      []
  }

  /**
   * The words of `s`: its maximal runs of letters and digits, in order.
   * This is the reference the slug is checked against.
   */
  function Words(s: string): (ws: seq<string>)
    ensures forall i :: 0 <= i < |ws| ==> IsWord(ws[i])
    decreases |s|
  {
    var t := DropNonAlnum(s);
    if t == [] then []
    else
      var w := LeadingWord(t);
      [w] + Words(t[|w|..])
  }

  /** The words separated by single hyphens. */
  function JoinWords(ws: seq<string>): string {
    if ws == [] then [] else if |ws| == 1 then ws[0] else ws[0] + "-" + JoinWords(ws[1..])
  }

  lemma JoinWordsCons(w: string, ws: seq<string>)
    requires ws != []
    ensures JoinWords([w] + ws) == w + "-" + JoinWords(ws)
  {
    assert ([w] + ws)[1..] == ws;
  }

  /** Words joined by hyphens start with a letter or digit and never hold `--`. */
  lemma {:induction false} JoinWordsShape(ws: seq<string>)
    requires forall i :: 0 <= i < |ws| ==> IsWord(ws[i])
    ensures ws != [] ==> JoinWords(ws) != [] && IsSlugAlnum(JoinWords(ws)[0])
    ensures NoDoubleHyphen(JoinWords(ws))
  {
    if |ws| == 1 {
      assert IsWord(ws[0]);
    } else if |ws| > 1 {
      var w, rest := ws[0], ws[1..];
      assert IsWord(w);
      JoinWordsShape(rest);
      var j := JoinWords(rest);
      var s := w + "-" + j;
      assert JoinWords(ws) == s;
      forall i | 0 <= i < |s| - 1
        ensures !DoubleHyphenAt(s, i)
      {
        if i < |w| {
          assert s[i] == w[i];
        } else if i > |w| {
          assert s[i] == j[i - |w| - 1] && s[i + 1] == j[i - |w|];
          assert !DoubleHyphenAt(j, i - |w| - 1);
        }
      }
    }
  }

  lemma DropNonAlnumIdempotent(s: string)
    ensures DropNonAlnum(DropNonAlnum(s)) == DropNonAlnum(s)
  {
  }

  /** Leading separators give a leading hyphen and nothing else. */
  lemma DashRunsTrimLeading(s: string)
    ensures TrimLeadingHyphens(DashRuns(s)) == DashRuns(DropNonAlnum(s))
  {
    if s != [] && !IsSlugAlnum(s[0]) {
      var u := DropNonAlnum(s[1..]);
      var d := DashRuns(u);
      assert d == [] || d[0] == u[0];
      assert ("-" + d)[1..] == d;
    } else if s != [] {
      assert DashRuns(s)[0] == s[0];
    }
  }

  /** Cutting trailing hyphens only touches the end. */
  lemma {:induction false} TrimTrailingAppend(a: string, b: string)
    requires TrimTrailingHyphens(b) != []
    ensures TrimTrailingHyphens(a + b) == a + TrimTrailingHyphens(b)
    decreases |b|
  {
    var x := a + b;
    if b[|b| - 1] == '-' {
      var b' := b[..|b| - 1];
      assert x[..|x| - 1] == a + b';
      TrimTrailingAppend(a, b');
    }
  }

  /**
   * From the first letter or digit on, the hyphenated string without its
   * trailing hyphen is the words joined by hyphens.
   */
  lemma {:induction false} DashRunsJoinsWords(t: string)
    requires t == [] || IsSlugAlnum(t[0])
    ensures TrimTrailingHyphens(DashRuns(t)) == JoinWords(Words(t))
    decreases |t|
  {
    if t != [] {
      var w := LeadingWord(t);
      var rest := t[|w|..];
      assert t == w + rest;
      assert Words(t) == [w] + Words(rest);
      DashRunsAlnumPrefix(w, rest);
      if rest == [] {
        assert DashRuns(t) == w;
        assert Words(rest) == [];
      } else {
        var u := DropNonAlnum(rest[1..]);
        assert DashRuns(rest) == "-" + DashRuns(u);
        assert DashRuns(t) == (w + "-") + DashRuns(u);
        assert Words(rest) == Words(u) by {
          DropNonAlnumIdempotent(rest[1..]);
        }
        if u == [] {
          assert DashRuns(t) == w + "-";
          assert Words(rest) == [];
        } else {
          DashRunsJoinsWords(u);
          assert DashRuns(u)[0] == u[0];
          TrimTrailingAppend(w + "-", DashRuns(u));
          assert Words(u) != [];
          JoinWordsCons(w, Words(u));
        }
      }
    }
  }

  /** The slug body is the words of the lower-cased value joined by single hyphens. */
  lemma SlugBodyJoinsWords(value: string)
    ensures SlugBody(value) == JoinWords(Words(Lower(value)))
  {
    var l := Lower(value);
    var d := DashRuns(l);
    DashRunsTrimLeading(l);
    DashRunsJoinsWords(DropNonAlnum(l));
    DropNonAlnumIdempotent(l);
    assert Words(DropNonAlnum(l)) == Words(l);
    assert TrimHyphens(d) == JoinWords(Words(l));
    JoinWordsShape(Words(l));
    CollapseKeepsSingleHyphens(JoinWords(Words(l)));
  }

  /**
   * `slugify` against the reference: the words of the lower-cased value
   * joined by single hyphens and cut at 80 characters, or "template" when
   * the value has no letter or digit.
   */
  lemma SlugifyJoinsWords(value: string)
    ensures var j := JoinWords(Words(Lower(value)));
      Slugify(value) == if Words(Lower(value)) == [] then FallbackSlug
        else if |j| <= MaxSlugLength then j else j[..MaxSlugLength]
  {
    SlugBodyJoinsWords(value);
    JoinWordsShape(Words(Lower(value)));
  }

  lemma NoDoubleHyphenJoin(w: string, rest: string)
    requires forall i :: 0 <= i < |w| ==> IsSlugAlnum(w[i])
    requires forall i :: 0 <= i < |rest| ==> IsSlugAlnum(rest[i])
    ensures NoDoubleHyphen(w + "-" + rest)
  {
    var s := w + "-" + rest;
    forall i | 0 <= i < |s| - 1 ensures !(s[i] == '-' && s[i + 1] == '-') {
      if i < |w| {
        assert s[i] == w[i];
      } else {
        assert s[i + 1] == rest[i - |w|];
      }
    }
  }

  lemma DashRunsDemoSite()
    ensures DashRuns("demo site") == "demo-site"
  {
    assert "demo site" == "demo" + (" " + "site");
    DashRunsAlnumPrefix("demo", " " + "site");
    DashRunsSeparator(" ", "site");
    DashRunsAlnumPrefix("site", []);
    assert "site" + [] == "site";
    assert "demo" + ("-" + "site") == "demo-site";
  }

  lemma DemoSiteIsClean()
    ensures IsCleanSlug("demo-site")
  {
    NoDoubleHyphenJoin("demo", "site");
    assert "demo" + "-" + "site" == "demo-site";
  }

  lemma LowerDemoSite()
    ensures Lower("Demo Site") == "demo site"
  {
    var s := "Demo Site";
    LowerChars(s);
    var r := Lower(s);
    assert r[0] == 'd' && r[1] == 'e' && r[2] == 'm' && r[3] == 'o' && r[4] == ' ';
    assert r[5] == 's' && r[6] == 'i' && r[7] == 't' && r[8] == 'e';
  }

  lemma SlugBodyDemoSite()
    ensures SlugBody("Demo Site") == "demo-site"
  {
    LowerDemoSite();
    DashRunsDemoSite();
    DemoSiteIsClean();
    CleanSlugBody("demo-site");
  }

  /** A title of two words becomes the two words joined by a hyphen. */
  lemma SlugifyDemoSite()
    ensures Slugify("Demo Site") == "demo-site"
  {
    SlugBodyDemoSite();
    SlugifyOfShortBody("Demo Site");
  }

  /** The `k`-th slug tried for `base`: `base` itself, then `base-1`, `base-2`, ... */
  function Candidate(base: string, k: nat): string {
    if k == 0 then base else base + "-" + ShowNat(k)
  }

  lemma CandidateInjective(base: string, j: nat, k: nat)
    requires Candidate(base, j) == Candidate(base, k)
    ensures j == k
  {
    if j != 0 && k != 0 {
      assert Candidate(base, j)[|base| + 1..] == ShowNat(j);
      assert Candidate(base, k)[|base| + 1..] == ShowNat(k);
      ShowNatInjective(j, k);
    }
  }

  /** The candidates tried before the `n`-th one. */
  ghost function Tried(base: string, n: nat): set<string> {
    if n == 0 then {} else Tried(base, n - 1) + {Candidate(base, n - 1)}
  }

  lemma {:induction false} TriedExcludesLater(base: string, n: nat, m: nat)
    requires n <= m
    ensures Candidate(base, m) !in Tried(base, n)
  {
    if n > 0 {
      TriedExcludesLater(base, n - 1, m);
      if Candidate(base, n - 1) == Candidate(base, m) {
        CandidateInjective(base, n - 1, m);
      }
    }
  }

  /** Trying one more taken candidate leaves fewer taken slugs untried. */
  lemma TriedStep(taken: set<string>, base: string, n: nat)
    requires Tried(base, n) <= taken && Candidate(base, n) in taken
    requires AllTakenBelow(taken, base, n)
    ensures Tried(base, n + 1) <= taken
    ensures AllTakenBelow(taken, base, n + 1)
    ensures |taken - Tried(base, n + 1)| < |taken - Tried(base, n)|
  {
    TriedExcludesLater(base, n, n);
    assert taken - Tried(base, n + 1) == (taken - Tried(base, n)) - {Candidate(base, n)};
  }

  ghost predicate AllTakenBelow(taken: set<string>, base: string, k: nat) {
    forall j :: 0 <= j < k ==> Candidate(base, j) in taken
  }

  /** `slug` is the first candidate for `base` that is not in `taken`. */
  ghost predicate IsFirstFree(taken: set<string>, base: string, slug: string) {
    exists k: nat :: slug == Candidate(base, k) && slug !in taken && AllTakenBelow(taken, base, k)
  }

  lemma FirstFreeIntro(taken: set<string>, base: string, k: nat)
    requires Candidate(base, k) !in taken && AllTakenBelow(taken, base, k)
    ensures IsFirstFree(taken, base, Candidate(base, k))
  {
  }

  /** At most one slug is the first free candidate. */
  lemma FirstFreeUnique(taken: set<string>, base: string, s1: string, s2: string)
    requires IsFirstFree(taken, base, s1) && IsFirstFree(taken, base, s2)
    ensures s1 == s2
  {
    var k1: nat :| s1 == Candidate(base, k1) && s1 !in taken && AllTakenBelow(taken, base, k1);
    var k2: nat :| s2 == Candidate(base, k2) && s2 !in taken && AllTakenBelow(taken, base, k2);
  }

  /** A base that nobody holds is kept as it is. */
  lemma FirstFreeIsBaseWhenFree(taken: set<string>, base: string, slug: string)
    requires IsFirstFree(taken, base, slug)
    ensures slug == base <==> base !in taken
  {
    var k: nat :| slug == Candidate(base, k) && slug !in taken && AllTakenBelow(taken, base, k);
    if k > 0 {
      assert Candidate(base, 0) in taken;
      assert |slug| > |base|;
    }
  }

  /** A second template titled "Demo Site" gets the slug "demo-site-1". */
  lemma SecondDemoSiteSlug(slug: string)
    requires IsFirstFree({"demo-site"}, "demo-site", slug)
    ensures slug == "demo-site-1"
  {
    var base := "demo-site";
    assert ShowNat(1) == "1";
    assert Candidate(base, 1) == "demo-site-1";
    assert Candidate(base, 0) == base;
    FirstFreeIntro({base}, base, 1);
    FirstFreeUnique({base}, base, slug, Candidate(base, 1));
  }
}
