/**
 * The string primitives the store relies on: ASCII lower-casing, whitespace
 * trimming, substring search, code-point ordering and decimal rendering of
 * the slug counter.
 */
module Text {

  predicate IsAsciiUpper(c: char) {
    'A' <= c <= 'Z'
  }

  function LowerChar(c: char): char {
    if IsAsciiUpper(c) then (c as int + 32) as char else c
  }

  /** `toLowerCase`, restricted to the ASCII letters. */
  function Lower(s: string): (r: string)
    ensures |r| == |s|
  {
    if s == [] then [] else [LowerChar(s[0])] + Lower(s[1..])
  }

  /** Each character is kept, or is an ASCII capital turned into its small letter. */
  lemma {:induction false} LowerChars(s: string)
    ensures forall i :: 0 <= i < |s| ==> !IsAsciiUpper(Lower(s)[i])
    ensures forall i :: 0 <= i < |s| ==>
      Lower(s)[i] == s[i] || (IsAsciiUpper(s[i]) && Lower(s)[i] as int == s[i] as int + 32)
  {
    if s != [] {
      LowerChars(s[1..]);
      var r := Lower(s);
      assert r == [LowerChar(s[0])] + Lower(s[1..]);
      forall i | 1 <= i < |s|
        ensures r[i] == Lower(s[1..])[i - 1] && s[i] == s[1..][i - 1]
      {
      }
    }
  }

  lemma LowerIdempotent(s: string)
    ensures Lower(Lower(s)) == Lower(s)
  {
    var l := Lower(s);
    LowerChars(s);
    LowerChars(l);
    assert forall i :: 0 <= i < |l| ==> Lower(l)[i] == l[i];
  }

  /** The characters `trim` removes: JavaScript white space and line terminators. */
  predicate IsSpace(c: char) {
    || c == ' ' || c == '\t' || c == '\n' || c == '\r'
    || c == '\U{000B}' || c == '\U{000C}' || c == '\U{00A0}' || c == '\U{1680}'
    || ('\U{2000}' <= c <= '\U{200A}')
    || c == '\U{2028}' || c == '\U{2029}' || c == '\U{202F}' || c == '\U{205F}'
    || c == '\U{3000}' || c == '\U{FEFF}'
  }

  /** Drops the leading white space. */
  function TrimStart(s: string): (r: string)
    ensures |r| <= |s| && r == s[|s| - |r|..]
    ensures r == [] || !IsSpace(r[0])
    ensures forall k :: 0 <= k < |s| - |r| ==> IsSpace(s[k])
  {
    if s != [] && IsSpace(s[0]) then TrimStart(s[1..]) else s
  }

  /** Drops the trailing white space. */
  function TrimEnd(s: string): (r: string)
    ensures |r| <= |s| && r == s[..|r|]
    ensures r == [] || !IsSpace(r[|r| - 1])
    ensures forall k :: |r| <= k < |s| ==> IsSpace(s[k])
  {
    if s != [] && IsSpace(s[|s| - 1]) then TrimEnd(s[..|s| - 1]) else s
  }

  predicate IsTrimmed(s: string) {
    s == [] || (!IsSpace(s[0]) && !IsSpace(s[|s| - 1]))
  }

  /** `q` occurs in `s` starting at index `i`. */
  predicate OccursAt(s: string, q: string, i: int) {
    0 <= i <= |s| - |q| && s[i..i + |q|] == q
  }

  /** `r` sits at index `i` of `s` with nothing but white space around it. */
  ghost predicate SpaceAround(s: string, r: string, i: int) {
    && OccursAt(s, r, i)
    && (forall k :: 0 <= k < i ==> IsSpace(s[k]))
    && (forall k :: i + |r| <= k < |s| ==> IsSpace(s[k]))
  }

  /** A suffix `t` of `s` and a prefix `r` of `t`, each cut off only white space. */
  lemma SpaceAroundInner(s: string, t: string, r: string)
    requires |t| <= |s| && t == s[|s| - |t|..]
    requires forall k :: 0 <= k < |s| - |t| ==> IsSpace(s[k])
    requires |r| <= |t| && r == t[..|r|]
    requires forall k :: |r| <= k < |t| ==> IsSpace(t[k])
    ensures SpaceAround(s, r, |s| - |t|)
  {
    var i := |s| - |t|;
    assert s[i..i + |r|] == s[i..][..|r|];
    forall k | i + |r| <= k < |s|
      ensures IsSpace(s[k])
    {
      assert s[k] == t[k - i];
    }
  }

  lemma TrimEndsAreSpace(s: string)
    ensures SpaceAround(s, TrimEnd(TrimStart(s)), |s| - |TrimStart(s)|)
  {
    SpaceAroundInner(s, TrimStart(s), TrimEnd(TrimStart(s)));
  }

  /** `trim`: the string without its leading and trailing white space, and nothing else removed. */
  function Trim(s: string): (r: string)
    ensures IsTrimmed(r)
    ensures |r| <= |s|
    ensures r == [] <==> forall k :: 0 <= k < |s| ==> IsSpace(s[k])
    ensures exists i :: SpaceAround(s, r, i)
  {
    TrimEndsAreSpace(s);
    TrimEnd(TrimStart(s))
  }

  lemma TrimIdempotent(s: string)
    requires IsTrimmed(s)
    ensures Trim(s) == s
  {
  }

  /** `s.includes(q)`: `q` occurs in `s` as a contiguous substring. */
  function Includes(s: string, q: string): (r: bool)
    ensures r <==> exists i :: OccursAt(s, q, i)
    decreases |s|
  {
    if |q| <= |s| && s[..|q|] == q then
      assert OccursAt(s, q, 0);
      true
    else if s == [] then
      false
    else
      var r := Includes(s[1..], q);
      assert forall i :: OccursAt(s[1..], q, i) <==> OccursAt(s, q, i + 1);
      assert forall i :: OccursAt(s, q, i) ==> i == 0 || OccursAt(s[1..], q, i - 1);
      r
  }

  /**
   * Lexicographic order on characters, the order used for titles and ISO
   * timestamps (`localeCompare` without locale tailoring). A Dafny `char` is
   * a Unicode scalar value, so this is code-point order; it agrees with
   * UTF-16 code-unit order on strings without characters above U+FFFF.
   */
  predicate StrLe(a: string, b: string) {
    a == [] || (b != [] && (a[0] < b[0] || (a[0] == b[0] && StrLe(a[1..], b[1..]))))
  }

  lemma {:induction false} StrLeTotal(a: string, b: string)
    ensures StrLe(a, b) || StrLe(b, a)
  {
    if a != [] && b != [] && a[0] == b[0] {
      StrLeTotal(a[1..], b[1..]);
    }
  }

  lemma {:induction false} StrLeTransitive(a: string, b: string, c: string)
    requires StrLe(a, b) && StrLe(b, c)
    ensures StrLe(a, c)
  {
    if a != [] && b != [] && c != [] && a[0] == b[0] == c[0] {
      StrLeTransitive(a[1..], b[1..], c[1..]);
    }
  }

  lemma {:induction false} StrLeAntisymmetric(a: string, b: string)
    requires StrLe(a, b) && StrLe(b, a)
    ensures a == b
  {
    if a != [] && b != [] {
      StrLeAntisymmetric(a[1..], b[1..]);
      assert a == [a[0]] + a[1..];
      assert b == [b[0]] + b[1..];
    }
  }

  predicate IsDigit(c: char) {
    '0' <= c <= '9'
  }

  function DigitChar(d: int): (c: char)
    requires 0 <= d < 10
    ensures IsDigit(c) && c as int - '0' as int == d
  {
    ('0' as int + d) as char
  }

  /** The decimal rendering of a counter, as a template literal prints it. */
  function ShowNat(n: nat): (r: string)
    ensures |r| > 0
    ensures forall i :: 0 <= i < |r| ==> IsDigit(r[i])
    ensures |r| > 1 ==> r[0] != '0'
  {
    if n < 10 then [DigitChar(n)] else ShowNat(n / 10) + [DigitChar(n % 10)]
  }

  function DigitValue(c: char): (d: nat)
    requires IsDigit(c)
    ensures d < 10
  {
    c as int - '0' as int
  }

  /** Reads a string of decimal digits back as a number. */
  function ParseNat(s: string): nat
    requires forall i :: 0 <= i < |s| ==> IsDigit(s[i])
  {
    if s == [] then 0 else ParseNat(s[..|s| - 1]) * 10 + DigitValue(s[|s| - 1])
  }

  lemma {:induction false} ParseShowNat(n: nat)
    ensures ParseNat(ShowNat(n)) == n
  {
    if n >= 10 {
      var s := ShowNat(n);
      assert s[..|s| - 1] == ShowNat(n / 10);
      ParseShowNat(n / 10);
    }
  }

  lemma ShowNatInjective(m: nat, n: nat)
    requires ShowNat(m) == ShowNat(n)
    ensures m == n
  {
    ParseShowNat(m);
    ParseShowNat(n);
  }
}
