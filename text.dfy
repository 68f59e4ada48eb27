/**
 * String operations of the .NET base library that the review pipeline relies on,
 * written out over `string` (= `seq<char>`): ordinal prefix and suffix tests,
 * ordinal `String.Replace`, ASCII case folding, `char.IsWhiteSpace`, decimal
 * formatting of integers, and the Unix flavour of `Path.Combine` and
 * `Path.GetExtension`.
 */
module Text {

  predicate StartsWith(s: string, prefix: string) {
    |prefix| <= |s| && s[..|prefix|] == prefix
  }

  /** A text that starts with `p + q` starts with `p`. */
  lemma StartsWithShorter(s: string, p: string, q: string)
    requires StartsWith(s, p + q)
    ensures StartsWith(s, p)
  {
    assert s[..|p|] == (p + q)[..|p|];
  }

  predicate EndsWith(s: string, suffix: string) {
    |suffix| <= |s| && s[|s| - |suffix|..] == suffix
  }

  /** `s` with one leading `prefix` removed when it is there. */
  function StripPrefix(s: string, prefix: string): (r: string)
    ensures StartsWith(s, prefix) ==> s == prefix + r
    ensures !StartsWith(s, prefix) ==> r == s
  {
    if StartsWith(s, prefix) then
      assert s == s[..|prefix|] + s[|prefix|..];
      s[|prefix|..]
    else s
  }

  /** Does `q` occur in `s` at some position? */
  predicate Contains(s: string, q: string)
    decreases |s|
  {
    StartsWith(s, q) || (|s| > 0 && Contains(s[1..], q))
  }

  lemma {:induction false} ContainsSuffix(s: string, k: nat, q: string)
    requires k <= |s|
    ensures Contains(s[k..], q) ==> Contains(s, q)
    decreases k
  {
    if k > 0 {
      assert s[1..][k - 1..] == s[k..];
      ContainsSuffix(s[1..], k - 1, q);
    }
  }

  // ---------------------------------------------------------------------------
  // Ordinal String.Replace

  /**
   * Ordinal `String.Replace(pat, rep)`: the occurrences of `pat` found scanning
   * from the left, none overlapping the previous one, each replaced by `rep`.
   */
  function Replace(s: string, pat: string, rep: string): (r: string)
    requires |pat| > 0
    ensures !Contains(s, pat) ==> r == s
    decreases |s|
  {
    if |s| == 0 then ""
    else if StartsWith(s, pat) then rep + Replace(s[|pat|..], pat, rep)
    else [s[0]] + Replace(s[1..], pat, rep)
  }

  /** No character of `a` appears in `b`. */
  predicate SharesNoChar(a: string, b: string) {
    forall c :: c in a ==> c !in b
  }

  lemma StartsWithCons(c: char, x: string, q: string)
    requires |q| > 0
    ensures StartsWith([c] + x, q) <==> c == q[0] && StartsWith(x, q[1..])
  {
    var y := [c] + x;
    assert q == [q[0]] + q[1..];
    if |q| <= |y| {
      assert y[..|q|] == [c] + x[..|q| - 1];
    }
  }

  /** A string that begins with characters foreign to `q` hides no `q` at its front. */
  lemma {:induction false} ForeignPrefixHidesNothing(rep: string, x: string, q: string)
    requires |rep| > 0 && |q| > 0 && SharesNoChar(rep, q)
    ensures Contains(rep + x, q) ==> Contains(x, q)
    decreases |rep|
  {
    var y := rep + x;
    assert y == [rep[0]] + (rep[1..] + x);
    StartsWithCons(rep[0], rep[1..] + x, q);
    assert rep[0] in rep && q[0] in q;
    assert y[1..] == rep[1..] + x;
    if |rep| > 1 {
      assert forall c :: c in rep[1..] ==> c in rep;
      ForeignPrefixHidesNothing(rep[1..], x, q);
    } else {
      assert rep[1..] + x == x;
    }
  }

  /** A replacement text that shares no character with `q` cannot complete a `q` at the front. */
  lemma {:induction false} ReplaceKeepsPrefixes(t: string, pat: string, rep: string, q: string)
    requires |pat| > 0 && |rep| > 0 && SharesNoChar(rep, q)
    ensures StartsWith(Replace(t, pat, rep), q) ==> StartsWith(t, q)
    decreases |t|
  {
    if |q| == 0 || |t| == 0 {
    } else if StartsWith(t, pat) {
      var x := Replace(t[|pat|..], pat, rep);
      assert Replace(t, pat, rep) == rep + x;
      assert rep + x == [rep[0]] + (rep[1..] + x);
      StartsWithCons(rep[0], rep[1..] + x, q);
      assert rep[0] in rep && q[0] in q;
    } else {
      var x := Replace(t[1..], pat, rep);
      assert Replace(t, pat, rep) == [t[0]] + x;
      StartsWithCons(t[0], x, q);
      assert forall c :: c in q[1..] ==> c in q;
      ReplaceKeepsPrefixes(t[1..], pat, rep, q[1..]);
      assert t == [t[0]] + t[1..];
      StartsWithCons(t[0], t[1..], q);
    }
  }

  /**
   * Replacing with a text that shares no character with `q` creates no new
   * occurrence of `q`.
   */
  lemma {:induction false} ReplaceCreatesNoOccurrence(s: string, pat: string, rep: string, q: string)
    requires |pat| > 0 && |rep| > 0 && |q| > 0 && SharesNoChar(rep, q)
    ensures Contains(Replace(s, pat, rep), q) ==> Contains(s, q)
    decreases |s|
  {
    if |s| == 0 {
    } else if StartsWith(s, pat) {
      var x := Replace(s[|pat|..], pat, rep);
      ForeignPrefixHidesNothing(rep, x, q);
      ReplaceCreatesNoOccurrence(s[|pat|..], pat, rep, q);
      ContainsSuffix(s, |pat|, q);
    } else {
      var x := Replace(s[1..], pat, rep);
      assert ([s[0]] + x)[1..] == x;
      ReplaceKeepsPrefixes(s, pat, rep, q);
      ReplaceCreatesNoOccurrence(s[1..], pat, rep, q);
    }
  }

  /** Replacing with a text that shares no character with `pat` leaves no `pat` behind. */
  lemma {:induction false} ReplaceRemovesEveryOccurrence(s: string, pat: string, rep: string)
    requires |pat| > 0 && |rep| > 0 && SharesNoChar(rep, pat)
    ensures !Contains(Replace(s, pat, rep), pat)
    decreases |s|
  {
    if |s| == 0 {
    } else if StartsWith(s, pat) {
      var x := Replace(s[|pat|..], pat, rep);
      ForeignPrefixHidesNothing(rep, x, pat);
      ReplaceRemovesEveryOccurrence(s[|pat|..], pat, rep);
    } else {
      var x := Replace(s[1..], pat, rep);
      assert ([s[0]] + x)[1..] == x;
      ReplaceKeepsPrefixes(s, pat, rep, pat);
      ReplaceRemovesEveryOccurrence(s[1..], pat, rep);
    }
  }

  // ---------------------------------------------------------------------------
  // Characters

  /** `char.IsWhiteSpace`, which is also the set the regex class `\s` denotes. */
  predicate IsWhiteSpace(c: char) {
    ('\t' <= c <= '\r') || c == ' ' || c == '\U{0085}' || c == '\U{00A0}' || c == '\U{1680}'
    || ('\U{2000}' <= c <= '\U{200A}') || c == '\U{2028}' || c == '\U{2029}'
    || c == '\U{202F}' || c == '\U{205F}' || c == '\U{3000}'
  }

  /** `string.IsNullOrWhiteSpace` for a non-null string. */
  predicate IsBlank(s: string) {
    forall i :: 0 <= i < |s| ==> IsWhiteSpace(s[i])
  }

  predicate IsAsciiLetter(c: char) {
    ('a' <= c <= 'z') || ('A' <= c <= 'Z')
  }

  predicate IsAsciiUpper(c: char) {
    'A' <= c <= 'Z'
  }

  predicate IsDigit(c: char) {
    '0' <= c <= '9'
  }

  function ToLowerChar(c: char): char {
    if 'A' <= c <= 'Z' then (c as int + 32) as char else c
  }

  function ToUpperChar(c: char): char {
    if 'a' <= c <= 'z' then (c as int - 32) as char else c
  }

  /** Lower-casing, applied character by character. */
  function Lower(s: string): (r: string)
    ensures |r| == |s|
    ensures forall i :: 0 <= i < |s| ==> r[i] == ToLowerChar(s[i])
  {
    seq(|s|, i requires 0 <= i < |s| => ToLowerChar(s[i]))
  }

  /** Lower-casing changes letters only: a character lower-cases to '.' or '/' exactly when it is one. */
  lemma LowerKeepsPunctuation(s: string)
    ensures forall i :: 0 <= i < |s| ==> (Lower(s)[i] == '.' <==> s[i] == '.')
    ensures forall i :: 0 <= i < |s| ==> (Lower(s)[i] == Separator <==> s[i] == Separator)
  {
  }

  /** Upper-casing, applied character by character. */
  function Upper(s: string): (r: string)
    ensures |r| == |s|
    ensures forall i :: 0 <= i < |s| ==> r[i] == ToUpperChar(s[i])
  {
    seq(|s|, i requires 0 <= i < |s| => ToUpperChar(s[i]))
  }

  /** `StringComparer.OrdinalIgnoreCase` equality. */
  predicate EqualsIgnoreCase(a: string, b: string) {
    Upper(a) == Upper(b)
  }

  /** `s` has the lower-case literal `lit` at position `i`, letters compared without case. */
  predicate AtIgnoreCase(s: string, i: nat, lit: string) {
    i + |lit| <= |s| && Lower(s[i..i + |lit|]) == lit
  }

  /** `s` has `lit` at position `i`, compared ordinally. */
  predicate At(s: string, i: nat, lit: string) {
    i + |lit| <= |s| && s[i..i + |lit|] == lit
  }

  /** The first index at or after `from` whose character fails `p`, or `|s|`. */
  function Span(s: string, from: nat, p: char -> bool): (e: nat)
    requires from <= |s|
    ensures from <= e <= |s|
    ensures forall k :: from <= k < e ==> p(s[k])
    ensures e < |s| ==> !p(s[e])
    decreases |s| - from
  {
    if from == |s| || !p(s[from]) then from else Span(s, from + 1, p)
  }

  /** A run of characters satisfying `p` from `from` to `b` lies within the span. */
  lemma SpanCovers(s: string, from: nat, b: nat, p: char -> bool)
    requires from <= b <= |s|
    requires forall k :: from <= k < b ==> p(s[k])
    ensures Span(s, from, p) >= b
  {
  }

  // ---------------------------------------------------------------------------
  // Integer formatting (string interpolation of an `int`)

  function DigitChar(d: nat): (c: char)
    requires d < 10
    ensures IsDigit(c)
  {
    "0123456789"[d]
  }

  function DigitValue(c: char): nat
    requires IsDigit(c)
  {
    c as int - '0' as int
  }

  /** Decimal digits of `n`, most significant first, without leading zeros. */
  function NatToString(n: nat): (r: string)
    ensures |r| > 0
    ensures forall i :: 0 <= i < |r| ==> IsDigit(r[i])
    decreases n
  {
    if n < 10 then [DigitChar(n)] else NatToString(n / 10) + [DigitChar(n % 10)]
  }

  function IntToString(n: int): string {
    if n < 0 then "-" + NatToString(-n) else NatToString(n)
  }

  /** The value of a string of decimal digits. */
  function ParseNat(s: string): nat
    requires forall i :: 0 <= i < |s| ==> IsDigit(s[i])
    decreases |s|
  {
    if s == [] then 0 else ParseNat(s[..|s| - 1]) * 10 + DigitValue(s[|s| - 1])
  }

  lemma {:induction false} ParseNatToString(n: nat)
    ensures ParseNat(NatToString(n)) == n
    decreases n
  {
    var d := "0123456789";
    assert forall k :: 0 <= k < 10 ==> DigitValue(d[k]) == k;
    if n >= 10 {
      var r := NatToString(n);
      assert r[..|r| - 1] == NatToString(n / 10);
      ParseNatToString(n / 10);
    }
  }

  lemma NatToStringInjective(a: nat, b: nat)
    ensures NatToString(a) == NatToString(b) ==> a == b
  {
    ParseNatToString(a);
    ParseNatToString(b);
  }

  lemma SignShows(neg: int, nonneg: int)
    requires neg < 0 <= nonneg
    ensures IntToString(neg) != IntToString(nonneg)
  {
    assert IntToString(neg)[0] == '-';
    assert IsDigit(IntToString(nonneg)[0]);
  }

  /** Distinct integers are written differently. */
  lemma IntToStringInjective(a: int, b: int)
    ensures IntToString(a) == IntToString(b) ==> a == b
  {
    var sa, sb := IntToString(a), IntToString(b);
    if sa == sb {
      if a < 0 && b < 0 {
        assert NatToString(-a) == sa[1..];
        assert NatToString(-b) == sb[1..];
        NatToStringInjective(-a, -b);
      } else if a >= 0 && b >= 0 {
        NatToStringInjective(a, b);
      } else if a < 0 {
        SignShows(a, b);
      } else {
        SignShows(b, a);
      }
    }
  }

  // ---------------------------------------------------------------------------
  // Building text in a loop

  /** The texts `f(x)` of the elements of `xs`, joined in order: what a loop appending to a `StringBuilder` builds. */
  function ConcatMap<T>(xs: seq<T>, f: T -> string): string
    decreases |xs|
  {
    if xs == [] then "" else ConcatMap(xs[..|xs| - 1], f) + f(xs[|xs| - 1])
  }

  /** Joining distributes over concatenation of the inputs. */
  lemma {:induction false} ConcatMapAppend<T>(a: seq<T>, b: seq<T>, f: T -> string)
    ensures ConcatMap(a + b, f) == ConcatMap(a, f) + ConcatMap(b, f)
    decreases |b|
  {
    if b == [] {
      assert a + b == a;
    } else {
      var b' := b[..|b| - 1];
      assert (a + b)[..|a + b| - 1] == a + b';
      ConcatMapAppend(a, b', f);
    }
  }

  /** Joining one element gives its text. */
  lemma ConcatMapSingle<T>(x: T, f: T -> string)
    ensures ConcatMap([x], f) == f(x)
  {
    assert [x][..0] == [];
  }

  // ---------------------------------------------------------------------------
  // Paths (Unix separators)

  const Separator: char := '/'

  /** `Path.Combine(a, b)`: `b` alone when it is rooted or `a` is empty, else joined by one separator. */
  function PathCombine(a: string, b: string): (r: string)
    ensures |b| > 0 && b[0] == Separator ==> r == b
    ensures a == "" ==> r == b
    ensures a != "" && a[|a| - 1] != Separator && !(|b| > 0 && b[0] == Separator) ==> r == a + [Separator] + b
  {
    if |b| > 0 && b[0] == Separator then b
    else if a == "" then b
    else if a[|a| - 1] == Separator then a + b
    else a + [Separator] + b
  }

  /**
   * `Path.GetExtension`: from the last '.' of the last path segment to the end,
   * or "" when that segment has no '.' or ends with it.
   */
  function GetExtension(path: string): (ext: string)
    ensures ext == "" || (|ext| >= 2 && ext[0] == '.' && EndsWith(path, ext))
    ensures ext != "" ==> '.' !in ext[1..] && Separator !in ext
  {
    ExtensionFrom(path, |path|)
  }

  function ExtensionFrom(path: string, i: nat): (ext: string)
    requires i <= |path|
    requires forall k :: i <= k < |path| ==> path[k] != '.' && path[k] != Separator
    ensures ext == "" || (|ext| >= 2 && ext[0] == '.' && EndsWith(path, ext))
    ensures ext != "" ==> '.' !in ext[1..] && Separator !in ext
    decreases i
  {
    if i == 0 then ""
    else if path[i - 1] == '.' then (if i == |path| then "" else path[i - 1..])
    else if path[i - 1] == Separator then ""
    else ExtensionFrom(path, i - 1)
  }

  /** A path ending in '.' and a non-empty tail free of '.' and '/' has that tail as its extension. */
  lemma ExtensionOfSuffix(path: string, tail: string)
    requires |tail| > 0 && '.' !in tail && Separator !in tail
    requires EndsWith(path, "." + tail)
    ensures GetExtension(path) == "." + tail
  {
    var n := |path|;
    var j := n - |tail|;
    assert path[j - 1..] == "." + tail;
    assert path[j - 1] == '.';
    assert forall k :: j <= k < n ==> path[k] == tail[k - j];
    ExtensionWalk(path, n, j);
  }

  lemma {:induction false} ExtensionWalk(path: string, i: nat, j: nat)
    requires 0 < j <= i <= |path| && j < |path| && path[j - 1] == '.'
    requires forall k :: j <= k < |path| ==> path[k] != '.' && path[k] != Separator
    ensures ExtensionFrom(path, i) == path[j - 1..]
    decreases i
  {
    if i > j {
      ExtensionWalk(path, i - 1, j);
    }
  }

  /** `s.Split('/').Last()`: the text after the last '/', or all of `s` when it has none. */
  function LastSegment(s: string): (r: string)
    ensures EndsWith(s, r) && Separator !in r
    ensures |r| < |s| ==> s[|s| - |r| - 1] == Separator
    decreases |s|
  {
    if s == [] then ""
    else if s[|s| - 1] == Separator then ""
    else LastSegment(s[..|s| - 1]) + [s[|s| - 1]]
  }

  /** A string ending in '/' and a segment free of '/' has that segment as its last one. */
  lemma {:induction false} LastSegmentOfSuffix(s: string, segment: string)
    requires Separator !in segment && EndsWith(s, [Separator] + segment)
    ensures LastSegment(s) == segment
    decreases |segment|
  {
    if segment == [] {
      assert s[|s| - 1] == Separator;
    } else {
      var s' := s[..|s| - 1];
      var segment' := segment[..|segment| - 1];
      assert s'[|s'| - |segment'| - 1..] == [Separator] + segment';
      LastSegmentOfSuffix(s', segment');
      assert s[|s| - 1] == segment[|segment| - 1];
      assert segment == segment' + [segment[|segment| - 1]];
    }
  }

  /** `s.IndexOf(q)` (ordinal): the first position of `q` in `s`, or -1. */
  function IndexOf(s: string, q: string): (r: int)
    ensures r >= -1
    ensures r >= 0 ==> At(s, r, q) && forall k :: 0 <= k < r ==> !At(s, k, q)
    ensures r == -1 ==> forall k :: 0 <= k <= |s| - |q| ==> !At(s, k, q)
  {
    IndexFrom(s, q, 0)
  }

  function IndexFrom(s: string, q: string, from: nat): (r: int)
    ensures r >= -1
    ensures r >= 0 ==> from <= r && At(s, r, q) && forall k :: from <= k < r ==> !At(s, k, q)
    ensures r == -1 ==> forall k :: from <= k <= |s| - |q| ==> !At(s, k, q)
    decreases |s| - from
  {
    if from + |q| > |s| then -1
    else if At(s, from, q) then from
    else IndexFrom(s, q, from + 1)
  }
}
