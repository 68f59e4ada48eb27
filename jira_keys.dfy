/**
 * Issue-key extraction of the current issue-tracker service: every match, left
 * to right and non-overlapping, of the case-insensitive pattern
 *     https?://[^\s/]+\.atlassian\.net/browse/([A-Z]+-\d+)
 * contributes its group 1 (the key), and the keys are then deduplicated
 * ignoring case, keeping each key's first appearance.
 *
 * The matcher is written for this one pattern. Because the host part cannot
 * contain '/', it must be the whole run of non-space, non-'/' characters after
 * "://", and that run must end in ".atlassian.net" and be followed by
 * "/browse/". The letter and digit runs of the key are maximal, so the match
 * is unique once its start is fixed.
 */
module JiraKeys {
  import opened Text
  import opened Models

  /** A match: where it starts, where its key starts, and where both end. */
  datatype Match = Match(start: nat, keyStart: nat, end: nat)

  const HostSuffix: string := ".atlassian.net"
  const BrowsePath: string := "/browse/"

  predicate IsHostChar(c: char) {
    !IsWhiteSpace(c) && c != '/'
  }

  /** The shape of an issue key: letters, '-', digits (letters of either case). */
  predicate IsIssueKey(k: string) {
    exists d :: 0 < d < |k| - 1 && k[d] == '-'
      && (forall j :: 0 <= j < d ==> IsAsciiLetter(k[j]))
      && (forall j :: d < j < |k| ==> IsDigit(k[j]))
  }

  /** Where the host starts after the scheme at `i`, if there is one. */
  function HostStart(s: string, i: nat): (h: int)
    ensures h == -1 || (h == i + 8 && AtIgnoreCase(s, i, "https://")) || (h == i + 7 && AtIgnoreCase(s, i, "http://"))
    ensures h == -1 <==> !AtIgnoreCase(s, i, "https://") && !AtIgnoreCase(s, i, "http://")
  {
    if AtIgnoreCase(s, i, "https://") then i + 8
    else if AtIgnoreCase(s, i, "http://") then i + 7
    else -1
  }

  /** The end of the run of host characters (neither white space nor '/') that starts at `h`. */
  function HostRunEnd(s: string, h: nat): (e: nat)
    requires h <= |s|
    ensures h <= e <= |s|
    ensures forall p :: h <= p < e ==> IsHostChar(s[p])
    ensures e < |s| ==> !IsHostChar(s[e])
  {
    Span(s, h, IsHostChar)
  }

  /** The key that starts at `k` (letters, '-', digits), given by the end of its digits. */
  function KeyEnd(s: string, k: nat): (d: int)
    requires k <= |s|
    ensures d == -1 || (k < d <= |s| && IsIssueKey(s[k..d]))
    ensures d != -1 ==> d == |s| || !IsDigit(s[d])
  {
    var l := Span(s, k, IsAsciiLetter);
    if l == k || l == |s| || s[l] != '-' then -1
    else
      var d := Span(s, l + 1, IsDigit);
      if d == l + 1 then -1
      else
        assert s[k..d][l - k] == '-';
        d
  }

  /**
   * The only place the pattern can match at `i`: after the scheme, the whole
   * host run, then "/browse/", then the longest key there.
   */
  function Candidate(s: string, i: nat): (c: Option<Match>)
    requires i <= |s|
    ensures c.Some? ==> c.value.start == i && c.value.keyStart <= c.value.end <= |s|
  {
    var h := HostStart(s, i);
    if h == -1 then None
    else
      var ks := HostRunEnd(s, h) + |BrowsePath|;
      if |s| < ks then None
      else
        var e := KeyEnd(s, ks);
        if e == -1 then None else Some(Match(i, ks, e))
  }

  /** The match of the pattern that starts at `i`, if any: the candidate, when it has the pattern's shape. */
  function MatchAt(s: string, i: nat): (m: Option<Match>)
    requires i <= |s|
    ensures m.Some? ==> m.value.start == i && i + |BrowsePath| < m.value.keyStart < m.value.end <= |s|
    ensures m.Some? ==> IsIssueKey(s[m.value.keyStart..m.value.end])
    ensures m.Some? ==> IsKeyUrlAt(s, i, m.value.keyStart, m.value.end)
  {
    var c := Candidate(s, i);
    if c.Some? && IsKeyUrlAt(s, i, c.value.keyStart, c.value.end) then c else None
  }

  /** The dash of a key found in `s[k..e]`, as a position of `s`. */
  lemma KeyDash(s: string, k: nat, e: nat) returns (dash: nat)
    requires k < e <= |s| && IsIssueKey(s[k..e])
    ensures k < dash < e - 1 && s[dash] == '-'
    ensures forall j :: k <= j < dash ==> IsAsciiLetter(s[j])
    ensures forall j :: dash < j < e ==> IsDigit(s[j])
  {
    var key := s[k..e];
    var d :| 0 < d < |key| - 1 && key[d] == '-'
      && (forall j :: 0 <= j < d ==> IsAsciiLetter(key[j]))
      && (forall j :: d < j < |key| ==> IsDigit(key[j]));
    dash := k + d;
    assert forall j :: k <= j < e ==> s[j] == key[j - k];
  }

  /** Every key at `k` is found, and with its longest digit run. */
  lemma KeyEndFindsEveryKey(s: string, k: nat, e: nat)
    requires k < e <= |s| && IsIssueKey(s[k..e])
    ensures KeyEnd(s, k) != -1 && KeyEnd(s, k) >= e
    ensures e == |s| || !IsDigit(s[e]) ==> KeyEnd(s, k) == e
  {
    var dash := KeyDash(s, k, e);
    SpanCovers(s, k, dash, IsAsciiLetter);
    var l := Span(s, k, IsAsciiLetter);
    assert l == dash;
    SpanCovers(s, l + 1, e, IsDigit);
  }

  /**
   * The pattern matches at `i` with its key in `s[ks..e]`: "http://" or
   * "https://", a host of more than `|HostSuffix|` characters, none of them
   * white space or '/', whose last ones are ".atlassian.net", then "/browse/"
   * (all ignoring case), then a key whose digit run ends at `e` because the
   * text or its digits end there.
   */
  predicate IsKeyUrlAt(s: string, i: nat, ks: nat, e: nat) {
    var h := HostStart(s, i);
    && h != -1
    && h + |HostSuffix| + |BrowsePath| < ks <= e <= |s|
    && (forall p :: h <= p < ks - |BrowsePath| ==> IsHostChar(s[p]))
    && AtIgnoreCase(s, ks - |BrowsePath| - |HostSuffix|, HostSuffix)
    && AtIgnoreCase(s, ks - |BrowsePath|, BrowsePath)
    && IsIssueKey(s[ks..e])
    && (e == |s| || !IsDigit(s[e]))
  }

  /** Every match of the pattern at `i` is what `MatchAt` finds. */
  lemma KeyUrlIsMatchAt(s: string, i: nat, ks: nat, e: nat)
    requires i <= |s| && IsKeyUrlAt(s, i, ks, e)
    ensures MatchAt(s, i) == Some(Match(i, ks, e))
  {
    CandidateIsKeyUrl(s, i, ks, e);
  }

  /** A match of the pattern at `i` is the candidate there. */
  lemma CandidateIsKeyUrl(s: string, i: nat, ks: nat, e: nat)
    requires i <= |s| && IsKeyUrlAt(s, i, ks, e)
    ensures Candidate(s, i) == Some(Match(i, ks, e))
  {
    HostEndsAtSlash(s, HostStart(s, i), ks - |BrowsePath|);
    KeyEndFindsEveryKey(s, ks, e);
    CandidateOfParts(s, i, HostStart(s, i), ks, e);
  }

  /** The candidate is made of the host run's end and the key found after it. */
  lemma CandidateOfParts(s: string, i: nat, h: int, ks: nat, e: int)
    requires i <= |s| && h == HostStart(s, i) && h != -1
    requires HostRunEnd(s, h) + |BrowsePath| == ks <= |s| && KeyEnd(s, ks) == e != -1
    ensures Candidate(s, i) == Some(Match(i, ks, e))
  {
  }

  /** A run of host characters followed by "/browse/" is the whole host run. */
  lemma HostEndsAtSlash(s: string, h: nat, hostEnd: nat)
    requires h <= hostEnd && AtIgnoreCase(s, hostEnd, BrowsePath)
    requires forall p :: h <= p < hostEnd ==> IsHostChar(s[p])
    ensures HostRunEnd(s, h) == hostEnd
  {
    assert Lower(s[hostEnd..hostEnd + |BrowsePath|])[0] == '/';
    assert s[hostEnd] == s[hostEnd..hostEnd + |BrowsePath|][0];
    SpanCovers(s, h, hostEnd, IsHostChar);
  }

  /** `MatchAt` finds a match exactly when the pattern matches there, and then that very one. */
  lemma MatchAtIffKeyUrl(s: string, i: nat, ks: nat, e: nat)
    requires i <= |s|
    ensures MatchAt(s, i) == Some(Match(i, ks, e)) <==> IsKeyUrlAt(s, i, ks, e)
    ensures MatchAt(s, i).None? <==> forall ks': nat, e': nat :: !IsKeyUrlAt(s, i, ks', e')
  {
    if IsKeyUrlAt(s, i, ks, e) {
      KeyUrlIsMatchAt(s, i, ks, e);
    }
    if MatchAt(s, i).None? {
      forall ks': nat, e': nat
        ensures !IsKeyUrlAt(s, i, ks', e')
      {
        if IsKeyUrlAt(s, i, ks', e') {
          KeyUrlIsMatchAt(s, i, ks', e');
        }
      }
    }
  }

  /** The pattern's match at every start position of `s`. */
  function MatchTable(s: string): (t: seq<Option<Match>>)
    ensures |t| == |s| && TableOk(t)
    ensures forall p :: 0 <= p < |t| && t[p].Some? ==>
              t[p] == MatchAt(s, p) && IsIssueKey(s[t[p].value.keyStart..t[p].value.end])
  {
    seq(|s|, p requires 0 <= p < |s| => MatchAt(s, p))
  }

  /** A table is well formed when the match found at `p` starts at `p` and ends inside the text. */
  predicate TableOk(t: seq<Option<Match>>) {
    forall p :: 0 <= p < |t| && t[p].Some? ==> t[p].value.start == p < t[p].value.keyStart < t[p].value.end <= |t|
  }

  /**
   * `Regex.Matches` from position `i`: the leftmost match at or after `i`, then
   * the matches after its end. Every reported match is the table's match at its start.
   */
  function MatchesFrom(t: seq<Option<Match>>, i: nat): (ms: seq<Match>)
    requires TableOk(t) && i <= |t|
    ensures forall j :: 0 <= j < |ms| ==> i <= ms[j].start < |t| && t[ms[j].start] == Some(ms[j])
    decreases |t| - i
  {
    if i == |t| then []
    else if t[i].Some? then [t[i].value] + MatchesFrom(t, t[i].value.end)
    else MatchesFrom(t, i + 1)
  }

  /** Each match ends before the next one starts. */
  predicate InTextOrder(ms: seq<Match>) {
    forall j :: 0 <= j < |ms| - 1 ==> ms[j].end <= ms[j + 1].start
  }

  /** Some match of `ms` covers position `p`. */
  predicate Covers(ms: seq<Match>, p: nat) {
    exists j :: 0 <= j < |ms| && ms[j].start <= p < ms[j].end
  }

  /** The matches come in text order and do not overlap. */
  lemma {:induction false} MatchesAreOrdered(t: seq<Option<Match>>, i: nat)
    requires TableOk(t) && i <= |t|
    ensures InTextOrder(MatchesFrom(t, i))
    decreases |t| - i
  {
    if i < |t| {
      var ms := MatchesFrom(t, i);
      if t[i].Some? {
        var rest := MatchesFrom(t, t[i].value.end);
        assert ms == [t[i].value] + rest;
        assert t[i].value.start == i < t[i].value.end;
        MatchesAreOrdered(t, t[i].value.end);
        forall j | 0 <= j < |ms| - 1
          ensures ms[j].end <= ms[j + 1].start
        {
          assert ms[j + 1] == rest[j];
          if j > 0 {
            assert ms[j] == rest[j - 1];
            assert rest[j - 1].end <= rest[(j - 1) + 1].start;
          } else {
            assert rest[0].start >= t[i].value.end;
          }
        }
      } else {
        assert ms == MatchesFrom(t, i + 1);
        MatchesAreOrdered(t, i + 1);
      }
    }
  }

  /** No match is skipped: every position where the pattern matches lies within a reported match. */
  lemma {:induction false} MatchesAreComplete(t: seq<Option<Match>>, i: nat, p: nat)
    requires TableOk(t) && i <= p < |t| && t[p].Some?
    ensures Covers(MatchesFrom(t, i), p)
    decreases |t| - i
  {
    var ms := MatchesFrom(t, i);
    if t[i].Some? {
      var rest := MatchesFrom(t, t[i].value.end);
      assert ms == [t[i].value] + rest;
      assert t[i].value.start == i < t[i].value.end;
      if p < t[i].value.end {
        assert ms[0] == t[i].value;
        assert 0 < |ms| && ms[0].start <= p < ms[0].end;
      } else {
        MatchesAreComplete(t, t[i].value.end, p);
        var j :| 0 <= j < |rest| && rest[j].start <= p < rest[j].end;
        assert ms[j + 1] == rest[j];
      }
    } else {
      assert p != i;
      assert ms == MatchesFrom(t, i + 1);
      MatchesAreComplete(t, i + 1, p);
    }
  }

  /** The keys of all matches in `s`, in text order (group 1 of each match). */
  function MatchedKeys(s: string): (keys: seq<string>)
    ensures forall j :: 0 <= j < |keys| ==> IsIssueKey(keys[j])
  {
    var t := MatchTable(s);
    var ms := MatchesFrom(t, 0);
    seq(|ms|, j requires 0 <= j < |ms| => s[ms[j].keyStart..ms[j].end])
  }

  // ---------------------------------------------------------------------------
  // Distinct(StringComparer.OrdinalIgnoreCase)

  function UpperSet(keys: seq<string>): set<string> {
    set k | k in keys :: Upper(k)
  }

  /** The keys without case-insensitive repeats, each kept where it first appears. */
  function DistinctIgnoreCase(keys: seq<string>): seq<string>
    decreases |keys|
  {
    if keys == [] then []
    else
      var init := keys[..|keys| - 1];
      var last := keys[|keys| - 1];
      if Upper(last) in UpperSet(init) then DistinctIgnoreCase(init)
      else DistinctIgnoreCase(init) + [last]
  }

  /** No earlier key equals `keys[j]` ignoring case. */
  predicate IsFirstOfItsKind(keys: seq<string>, j: nat)
    requires j < |keys|
  {
    forall j' :: 0 <= j' < j ==> Upper(keys[j']) != Upper(keys[j])
  }

  /** Reference definition: the first-of-their-kind keys, in input order. */
  function FirstsUpTo(keys: seq<string>, n: nat): seq<string>
    requires n <= |keys|
    decreases n
  {
    if n == 0 then []
    else FirstsUpTo(keys, n - 1) + (if IsFirstOfItsKind(keys, n - 1) then [keys[n - 1]] else [])
  }

  lemma {:induction false} FirstsUpToPrefix(keys: seq<string>, m: nat, n: nat)
    requires n <= m <= |keys|
    ensures FirstsUpTo(keys[..m], n) == FirstsUpTo(keys, n)
    decreases n
  {
    if n > 0 {
      FirstsUpToPrefix(keys, m, n - 1);
      assert forall j' :: 0 <= j' < n ==> keys[..m][j'] == keys[j'];
    }
  }

  /** Deduplication keeps exactly the first key of each case-insensitive class, in input order. */
  lemma {:induction false} DistinctKeepsFirsts(keys: seq<string>)
    ensures DistinctIgnoreCase(keys) == FirstsUpTo(keys, |keys|)
    decreases |keys|
  {
    if keys != [] {
      var n := |keys|;
      var init := keys[..n - 1];
      DistinctKeepsFirsts(init);
      FirstsUpToPrefix(keys, n - 1, n - 1);
      assert init[..n - 1] == init;
      assert Upper(keys[n - 1]) in UpperSet(init) <==> !IsFirstOfItsKind(keys, n - 1) by {
        if Upper(keys[n - 1]) in UpperSet(init) {
          var k :| k in init && Upper(k) == Upper(keys[n - 1]);
          var j' :| 0 <= j' < n - 1 && init[j'] == k;
          assert Upper(keys[j']) == Upper(keys[n - 1]);
        }
        if !IsFirstOfItsKind(keys, n - 1) {
          var j' :| 0 <= j' < n - 1 && Upper(keys[j']) == Upper(keys[n - 1]);
          assert init[j'] in init;
        }
      }
    }
  }

  /** Deduplication loses no key: every key's case-insensitive class is represented. */
  lemma {:induction false} DistinctCoversAll(keys: seq<string>)
    ensures UpperSet(DistinctIgnoreCase(keys)) == UpperSet(keys)
    decreases |keys|
  {
    if keys != [] {
      var init := keys[..|keys| - 1];
      DistinctCoversAll(init);
      assert keys == init + [keys[|keys| - 1]];
      assert UpperSet(keys) == UpperSet(init) + {Upper(keys[|keys| - 1])};
      var r := DistinctIgnoreCase(init);
      assert UpperSet(r + [keys[|keys| - 1]]) == UpperSet(r) + {Upper(keys[|keys| - 1])};
    }
  }

  /** Deduplication leaves no two keys equal ignoring case, and invents none. */
  lemma {:induction false} DistinctHasNoRepeats(keys: seq<string>)
    ensures var r := DistinctIgnoreCase(keys);
            (forall a, b :: 0 <= a < b < |r| ==> Upper(r[a]) != Upper(r[b]))
            && (forall x :: x in r ==> x in keys)
    decreases |keys|
  {
    if keys != [] {
      var init := keys[..|keys| - 1];
      var last := keys[|keys| - 1];
      DistinctHasNoRepeats(init);
      DistinctCoversAll(init);
      var r := DistinctIgnoreCase(init);
      if Upper(last) !in UpperSet(init) {
        forall a | 0 <= a < |r|
          ensures Upper(r[a]) != Upper(last)
        {
          assert r[a] in r;
          assert Upper(r[a]) in UpperSet(r);
        }
      }
    }
  }

  /** The keys `GetIssuesFromTextAsync` asks the tracker about, in order. */
  function IssueKeys(text: string): seq<string> {
    DistinctIgnoreCase(MatchedKeys(text))
  }

  /** Every key asked about is a well-formed key taken from the text, and no two are equal ignoring case. */
  lemma IssueKeysAreDistinctKeys(text: string)
    ensures var keys := IssueKeys(text);
            (forall k :: k in keys ==> IsIssueKey(k) && k in MatchedKeys(text))
            && (forall a, b :: 0 <= a < b < |keys| ==> Upper(keys[a]) != Upper(keys[b]))
  {
    var found := MatchedKeys(text);
    var keys := IssueKeys(text);
    assert keys == DistinctIgnoreCase(found);
    DistinctHasNoRepeats(found);
    forall k | k in keys
      ensures IsIssueKey(k) && k in found
    {
      assert k in found;
      var j :| 0 <= j < |found| && found[j] == k;
    }
  }
}
