/**
 * The issue-tracker module of the first-generation pipeline. It looks for
 * the first issue URL in the pull-request description (the case-sensitive
 * pattern `https?://[^\s]+/browse/[A-Z]+-\d+`), fetches that one issue from
 * the server named in the URL, saves each attachment it can download into
 * `PR-<number>`, and adds one Markdown section for the issue.
 *
 * A failed issue request ends the run (the original throws); a failed
 * download is skipped.
 */
module LegacyJira {
  import opened Text
  import opened Models
  import JiraKeys
  import JiraService
  import MarkdownFormatter
  import opened LegacyModel

  /** An entry of the issue's `attachment` array. */
  datatype AttachmentJson = AttachmentJson(filename: string, content: string)

  /**
   * The `fields` object of an issue response. `summary` and `description`
   * are None when null; `attachment` and `comments` are None when absent.
   */
  datatype IssueJson = IssueJson(
    summary: Option<string>,
    description: Option<string>,
    attachment: Option<seq<AttachmentJson>>,
    comments: Option<seq<JiraService.CommentJson>>)

  /** The answers of the tracker: the issue at an API URL, the bytes at an attachment URL. */
  datatype Server = Server(issue: string -> Response<IssueJson>, download: string -> Response<seq<byte>>)

  const BrowsePath: string := "/browse/"
  const ApiPath: string := "/rest/api/2/issue/"

  // ---------------------------------------------------------------------------
  // The issue-URL pattern

  /** The text `[A-Z]+-\d+`: upper-case ASCII letters, '-', decimal digits. */
  predicate IsLegacyKey(k: string) {
    exists d :: 0 < d < |k| - 1 && k[d] == '-'
      && (forall j {:trigger IsAsciiUpper(k[j])} :: 0 <= j < d ==> IsAsciiUpper(k[j]))
      && (forall j {:trigger IsDigit(k[j])} :: d < j < |k| ==> IsDigit(k[j]))
  }

  /** A key of this pattern is also one the current issue service recognises. */
  lemma LegacyKeyIsIssueKey(k: string)
    requires IsLegacyKey(k)
    ensures JiraKeys.IsIssueKey(k) && Separator !in k
  {
    var d :| 0 < d < |k| - 1 && k[d] == '-'
      && (forall j :: 0 <= j < d ==> IsAsciiUpper(k[j]))
      && (forall j :: d < j < |k| ==> IsDigit(k[j]));
    assert forall j :: 0 <= j < d ==> IsAsciiLetter(k[j]);
    assert forall j :: 0 <= j < |k| ==> k[j] != Separator by {
      forall j | 0 <= j < |k| ensures k[j] != Separator {
        if j < d { assert IsAsciiUpper(k[j]); } else if j > d { assert IsDigit(k[j]); }
      }
    }
  }

  /** A match of the pattern in `s`: it spans `s[start..end]` and its "/browse/" is at `browse`. */
  datatype UrlMatch = UrlMatch(start: nat, browse: nat, end: nat)

  /** `m` is a match of the pattern: scheme, a non-empty run without white space, "/browse/", a key. */
  predicate IsUrlMatch(s: string, m: UrlMatch) {
    && m.browse + |BrowsePath| < m.end <= |s|
    && ((At(s, m.start, "https://") && m.start + 8 < m.browse) || (At(s, m.start, "http://") && m.start + 7 < m.browse))
    && (forall j {:trigger NotWhiteSpace(s[j])} :: m.start + 7 <= j < m.browse ==> NotWhiteSpace(s[j]))
    && At(s, m.browse, BrowsePath)
    && IsLegacyKey(s[m.browse + |BrowsePath|..m.end])
  }

  /** Where the scheme `https?://` starting at `i` ends; the optional 's' is taken when it is there. */
  function SchemeEnd(s: string, i: nat): (h: Option<nat>)
    ensures h.Some? <==> At(s, i, "https://") || At(s, i, "http://")
    ensures h.Some? ==> h.value <= |s|
    ensures h.Some? && At(s, i, "https://") ==> h.value == i + 8
    ensures h.Some? && !At(s, i, "https://") ==> h.value == i + 7
  {
    if At(s, i, "https://") then Some(i + 8)
    else if At(s, i, "http://") then Some(i + 7)
    else None
  }

  /** `[A-Z]+-\d+` at `k`, each run taken as long as it goes: the end of the match, if any. */
  function KeyEnd(s: string, k: nat): (e: Option<nat>)
    requires k <= |s|
    ensures e.Some? ==> k < e.value <= |s|
  {
    var u := Span(s, k, IsAsciiUpper);
    if u == k || u == |s| || s[u] != '-' then None
    else
      var e := Span(s, u + 1, IsDigit);
      if e == u + 1 then None
      else Some(e)
  }

  /** What `KeyEnd` finds is a key, and its digits run to the end of the text or to a non-digit. */
  lemma KeyEndIsKey(s: string, k: nat)
    requires k <= |s| && KeyEnd(s, k).Some?
    ensures IsLegacyKey(s[k..KeyEnd(s, k).value])
    ensures KeyEnd(s, k).value == |s| || !IsDigit(s[KeyEnd(s, k).value])
  {
    var u := Span(s, k, IsAsciiUpper);
    var e := KeyEnd(s, k).value;
    assert s[k..e][u - k] == '-';
  }

  /** Every key at `k` is found, and the one found is at least as long. */
  lemma KeyEndFindsEveryKey(s: string, k: nat, e: nat)
    requires k < e <= |s| && IsLegacyKey(s[k..e])
    ensures KeyEnd(s, k).Some? && KeyEnd(s, k).value >= e
  {
    var dash := KeyDash(s, k, e);
    SpanCovers(s, k, dash, IsAsciiUpper);
    var u := Span(s, k, IsAsciiUpper);
    assert u == dash;
    SpanCovers(s, u + 1, e, IsDigit);
  }

  /** The dash of a key found in `s[k..e]`, as a position of `s`. */
  lemma KeyDash(s: string, k: nat, e: nat) returns (dash: nat)
    requires k < e <= |s| && IsLegacyKey(s[k..e])
    ensures k < dash < e - 1 && s[dash] == '-'
    ensures forall j :: k <= j < dash ==> IsAsciiUpper(s[j])
    ensures forall j :: dash < j < e ==> IsDigit(s[j])
  {
    var key := s[k..e];
    var d :| 0 < d < |key| - 1 && key[d] == '-'
      && (forall j :: 0 <= j < d ==> IsAsciiUpper(key[j]))
      && (forall j :: d < j < |key| ==> IsDigit(key[j]));
    dash := k + d;
    assert forall j :: k <= j < e ==> s[j] == key[j - k];
  }

  /** A key follows a "/browse/" at `q`. */
  predicate KeyAfter(s: string, q: nat) {
    At(s, q, BrowsePath) && KeyEnd(s, q + |BrowsePath|).Some?
  }

  /** The last index in `(lo, hi]` whose entry holds. */
  function LastTrue(t: seq<bool>, lo: nat, hi: nat): (r: Option<nat>)
    requires lo <= hi < |t|
    ensures r.Some? ==> lo < r.value <= hi && t[r.value]
    ensures r.Some? ==> forall p :: r.value < p <= hi ==> !t[p]
    ensures r.None? ==> forall p :: lo < p <= hi ==> !t[p]
    decreases hi
  {
    if hi == lo then None
    else if t[hi] then Some(hi)
    else LastTrue(t, lo, hi - 1)
  }

  /** The first index at or after `i` whose entry is present. */
  function FirstSome<T>(t: seq<Option<T>>, i: nat): (r: Option<nat>)
    requires i <= |t|
    ensures r.Some? ==> i <= r.value < |t| && t[r.value].Some?
    ensures r.Some? ==> forall j :: i <= j < r.value ==> t[j].None?
    ensures r.None? ==> forall j :: i <= j < |t| ==> t[j].None?
    decreases |t| - i
  {
    if i == |t| then None
    else if t[i].Some? then Some(i)
    else FirstSome(t, i + 1)
  }

  /** Whether a key follows a "/browse/" at each position of `s` and at its end. */
  function KeyAfterTable(s: string): (t: seq<bool>)
    ensures |t| == |s| + 1
    ensures forall q :: 0 <= q <= |s| ==> t[q] == KeyAfter(s, q)
  {
    seq(|s| + 1, q requires 0 <= q <= |s| => KeyAfter(s, q))
  }

  /** The last "/browse/" in `(lo, hi]` with a key after it. */
  function LastKeyAfter(s: string, lo: nat, hi: nat): (q: Option<nat>)
    requires lo <= hi <= |s|
    ensures q.Some? ==> lo < q.value <= hi && KeyAfter(s, q.value)
    ensures q.Some? ==> forall p :: q.value < p <= hi ==> !KeyAfter(s, p)
    ensures q.None? ==> forall p :: lo < p <= hi ==> !KeyAfter(s, p)
  {
    var t := KeyAfterTable(s);
    var q := LastTrue(t, lo, hi);
    assert forall p :: lo < p <= hi ==> t[p] == KeyAfter(s, p);
    q
  }

  predicate NotWhiteSpace(c: char) {
    !IsWhiteSpace(c)
  }

  /** A scheme at `i` ending at `h`, a run without white space up to `q`, and a key after "/browse/" at `q` make a match. */
  lemma MatchOfParts(s: string, i: nat, h: nat, q: nat, d: nat)
    requires SchemeEnd(s, i) == Some(h)
    requires h < q <= Span(s, h, NotWhiteSpace)
    requires At(s, q, BrowsePath) && KeyEnd(s, q + |BrowsePath|) == Some(d)
    ensures IsUrlMatch(s, UrlMatch(i, q, d))
  {
    KeyEndIsKey(s, q + |BrowsePath|);
    forall j | i + 7 <= j < q ensures NotWhiteSpace(s[j]) {
      if j < h {
        assert s[j] == "https://"[7];
      }
    }
  }

  /**
   * The match of the pattern starting at `i`, as the backtracking matcher
   * finds it: the greedy `[^\s]+` gives characters back until "/browse/"
   * and a key follow, so the last such "/browse/" in the run is taken.
   */
  function UrlAt(s: string, i: nat): (m: Option<UrlMatch>)
    ensures m.Some? ==> m.value.start == i
  {
    var h := SchemeEnd(s, i);
    if h.None? then None
    else
      var e := Span(s, h.value, NotWhiteSpace);
      var q := LastKeyAfter(s, h.value, e);
      if q.None? then None
      else Some(UrlMatch(i, q.value, KeyEnd(s, q.value + |BrowsePath|).value))
  }

  /** A match ending at `e` has taken every digit of its key, as the greedy `\d+` does. */
  predicate DigitsRunOut(s: string, e: nat) {
    e <= |s| && (e == |s| || !IsDigit(s[e]))
  }

  /** The matcher is sound: what `UrlAt` finds is a match of the pattern, and its key takes every digit. */
  lemma UrlAtIsMatch(s: string, i: nat)
    requires UrlAt(s, i).Some?
    ensures IsUrlMatch(s, UrlAt(s, i).value)
    ensures DigitsRunOut(s, UrlAt(s, i).value.end)
  {
    var h, q, d := UrlAtParts(s, i);
    MatchOfParts(s, i, h, q, d);
    KeyEndIsKey(s, q + |BrowsePath|);
  }

  /** The parts `UrlAt` puts together. */
  lemma UrlAtParts(s: string, i: nat) returns (h: nat, q: nat, d: nat)
    requires UrlAt(s, i).Some?
    ensures SchemeEnd(s, i) == Some(h)
    ensures h < q <= Span(s, h, NotWhiteSpace)
    ensures At(s, q, BrowsePath) && KeyEnd(s, q + |BrowsePath|) == Some(d)
    ensures UrlAt(s, i) == Some(UrlMatch(i, q, d))
  {
    h := SchemeEnd(s, i).value;
    q := LastKeyAfter(s, h, Span(s, h, NotWhiteSpace)).value;
    d := KeyEnd(s, q + |BrowsePath|).value;
  }

  /**
   * The matcher is complete and greedy: wherever a match starts, `UrlAt`
   * finds one at that start, its "/browse/" is the last one possible, and
   * its key takes every digit.
   */
  lemma UrlAtIsCompleteAndGreedy(s: string, m: UrlMatch)
    requires IsUrlMatch(s, m)
    ensures UrlAt(s, m.start).Some? && UrlAt(s, m.start).value.browse >= m.browse
    ensures DigitsRunOut(s, UrlAt(s, m.start).value.end)
  {
    var h := SchemeOfMatch(s, m);
    SpanCovers(s, h, m.browse, NotWhiteSpace);
    KeyEndFindsEveryKey(s, m.browse + |BrowsePath|, m.end);
    UrlAtFinds(s, m.start, h, m.browse);
    UrlAtIsMatch(s, m.start);
  }

  /** With a scheme ending at `h` and a key after "/browse/" at `b` within the run, `UrlAt` finds a match no shorter. */
  lemma UrlAtFinds(s: string, i: nat, h: nat, b: nat)
    requires SchemeEnd(s, i) == Some(h)
    requires h < b <= Span(s, h, NotWhiteSpace)
    requires KeyAfter(s, b)
    ensures UrlAt(s, i).Some? && UrlAt(s, i).value.browse >= b
  {
  }

  /** The scheme of a match is the one `SchemeEnd` sees, and the run after it has no white space. */
  lemma SchemeOfMatch(s: string, m: UrlMatch) returns (h: nat)
    requires IsUrlMatch(s, m)
    ensures SchemeEnd(s, m.start) == Some(h) && h < m.browse
    ensures forall j :: h <= j < m.browse ==> NotWhiteSpace(s[j])
  {
    h := SchemeEnd(s, m.start).value;
    if At(s, m.start, "https://") {
      assert !At(s, m.start, "http://") by {
        assert s[m.start + 4] == 's';
      }
    }
  }

  /** The match starting at each position of `s` and at its end. */
  function UrlTable(s: string): (t: seq<Option<UrlMatch>>)
    ensures |t| == |s| + 1
    ensures forall i :: 0 <= i <= |s| ==> t[i] == UrlAt(s, i)
  {
    seq(|s| + 1, i requires 0 <= i <= |s| => UrlAt(s, i))
  }

  /** `Regex.Match(description, pattern)`: the leftmost match, None when there is none. */
  function JiraUrl(description: string): (m: Option<UrlMatch>)
    ensures m.Some? ==> IsUrlMatch(description, m.value) && DigitsRunOut(description, m.value.end)
    ensures m.Some? ==> m.value.start <= |description| && forall j :: 0 <= j < m.value.start ==> UrlAt(description, j).None?
    ensures m.None? ==> forall j :: 0 <= j <= |description| ==> UrlAt(description, j).None?
  {
    var t := UrlTable(description);
    var k := FirstSome(t, 0);
    if k.None? then None
    else
      assert forall j :: 0 <= j < k.value ==> t[j] == UrlAt(description, j);
      UrlAtIsMatch(description, k.value);
      t[k.value]
  }

  /**
   * The match found is the leftmost and, at its start, the greedy one; and
   * nothing is found only when the description has no match at all.
   */
  lemma JiraUrlIsLeftmost(description: string, m: UrlMatch)
    requires IsUrlMatch(description, m)
    ensures JiraUrl(description).Some?
    ensures JiraUrl(description).value.start <= m.start
    ensures JiraUrl(description).value.start == m.start ==> JiraUrl(description).value.browse >= m.browse
    ensures DigitsRunOut(description, JiraUrl(description).value.end)
  {
    UrlAtIsCompleteAndGreedy(description, m);
    assert m.start <= |description| by {
      assert m.start < m.browse < m.end;
    }
  }

  /** A URL ending in "/browse/" and a key has that key as its last '/'-segment. */
  lemma KeyIsLastSegment(url: string, b: nat)
    requires At(url, b, BrowsePath) && IsLegacyKey(url[b + |BrowsePath|..])
    ensures LastSegment(url) == url[b + |BrowsePath|..]
  {
    var key := url[b + |BrowsePath|..];
    LegacyKeyIsIssueKey(key);
    assert url[b + 7] == BrowsePath[7];
    assert url[b + 7..] == [Separator] + key;
    LastSegmentOfSuffix(url, key);
  }

  /** A URL with "/browse/" at `b` has its first one at or before `b`. */
  lemma FirstBrowseIsNoLater(url: string, b: nat)
    requires At(url, b, BrowsePath)
    ensures 0 <= IndexOf(url, BrowsePath) <= b
  {
  }

  /**
   * The parts of a matched URL: its last '/'-segment is the key, and its
   * first "/browse/" is at or before the matched one.
   */
  lemma UrlParts(s: string, m: UrlMatch)
    requires IsUrlMatch(s, m)
    ensures var url := s[m.start..m.end];
            && LastSegment(url) == s[m.browse + |BrowsePath|..m.end]
            && IsLegacyKey(LastSegment(url))
            && 0 <= IndexOf(url, BrowsePath) <= m.browse - m.start
  {
    var url := s[m.start..m.end];
    var b := m.browse - m.start;
    assert forall j :: 0 <= j < |url| ==> url[j] == s[m.start + j];
    assert url[b..b + |BrowsePath|] == s[m.browse..m.browse + |BrowsePath|];
    assert url[b + |BrowsePath|..] == s[m.browse + |BrowsePath|..m.end];
    KeyIsLastSegment(url, b);
    FirstBrowseIsNoLater(url, b);
  }

  /** The REST URL of the issue: the URL's text before its first "/browse/", then the API path and the key. */
  function ApiUrl(url: string, key: string): (r: string)
    requires IndexOf(url, BrowsePath) >= 0
    ensures var n := |r| - |ApiPath| - |key|;
            && 0 <= n && EndsWith(r, ApiPath + key)
            && StartsWith(url, r[..n]) && At(url, n, BrowsePath)
            && forall k :: 0 <= k < n ==> !At(url, k, BrowsePath)
  {
    var b := IndexOf(url, BrowsePath);
    var r := url[..b] + ApiPath + key;
    assert r[..b] == url[..b];
    assert r[|r| - |ApiPath + key|..] == ApiPath + key;
    r
  }

  // ---------------------------------------------------------------------------
  // The section

  predicate EndsWithIgnoreCase(s: string, lit: string) {
    |lit| <= |s| && AtIgnoreCase(s, |s| - |lit|, lit)
  }

  /** The legacy image test: the name ends, ignoring case, with one of four image extensions. */
  predicate IsLegacyImage(fileName: string) {
    EndsWithIgnoreCase(fileName, ".png") || EndsWithIgnoreCase(fileName, ".jpg")
    || EndsWithIgnoreCase(fileName, ".jpeg") || EndsWithIgnoreCase(fileName, ".gif")
  }

  function AttachmentMarkdown(fileName: string): string {
    if IsLegacyImage(fileName) then "![" + fileName + "](" + fileName + ")"
    else "[Attachment: " + fileName + "](" + fileName + ")"
  }

  function AttachmentText(a: AttachmentJson): string {
    MarkdownFormatter.Line(AttachmentMarkdown(a.filename))
  }

  function CommentText(c: JiraService.CommentJson): string {
    MarkdownFormatter.Line("- **" + c.authorDisplayName.GetOr("") + "**: " + c.body.GetOr(""))
  }

  /** The attachment list, after a blank line; absent when there is no attachment. */
  function AttachmentPart(atts: seq<AttachmentJson>): (r: string)
    ensures atts == [] <==> r == ""
  {
    if atts == [] then "" else "\n" + ConcatMap(atts, AttachmentText)
  }

  /** The comment list, after a blank line and a heading; absent when there is no comment. */
  function CommentPart(comments: seq<JiraService.CommentJson>): (r: string)
    ensures comments == [] <==> r == ""
  {
    if comments == [] then "" else "\n" + MarkdownFormatter.Line("### JIRA Comments") + ConcatMap(comments, CommentText)
  }

  /** The heading, linking the key to the matched URL, and the summary in bold. */
  function Heading(key: string, url: string, summary: Option<string>): string {
    MarkdownFormatter.Line("## JIRA: [" + key + "](" + url + ")") + "\n"
    + MarkdownFormatter.Line("**" + summary.GetOr("") + "**") + "\n"
  }

  /** The section added for the issue. */
  function Section(key: string, url: string, issue: IssueJson): (r: string)
    ensures StartsWith(r, Heading(key, url, issue.summary))
  {
    var head := Heading(key, url, issue.summary);
    var r := head + MarkdownFormatter.Line(issue.description.GetOr(""))
             + AttachmentPart(issue.attachment.GetOr([])) + CommentPart(issue.comments.GetOr([]));
    assert r[..|head|] == head;
    r
  }

  /** Both generations open an issue with the same heading. */
  lemma HeadingAsCurrent(key: string, url: string, summary: string, issue: JiraIssue)
    requires issue.key == key && issue.url == url && issue.summary == summary
    ensures Heading(key, url, Some(summary)) == MarkdownFormatter.IssueHeading(issue)
  {
  }

  // ---------------------------------------------------------------------------
  // Image tests of the two generations

  /** A name ending, ignoring case, in a lower-case extension of letters has that extension. */
  lemma ExtensionOfImageName(fileName: string, ext: string)
    requires |ext| >= 2 && ext[0] == '.' && forall k :: 1 <= k < |ext| ==> 'a' <= ext[k] <= 'z'
    requires EndsWithIgnoreCase(fileName, ext)
    ensures Lower(GetExtension(fileName)) == ext
  {
    var n := |fileName| - |ext|;
    var tail := fileName[n + 1..];
    assert Lower(fileName[n..]) == ext;
    assert fileName[n] == '.' by {
      assert ToLowerChar(fileName[n]) == ext[0];
    }
    forall k | 0 <= k < |tail| ensures tail[k] != '.' && tail[k] != Separator && ToLowerChar(tail[k]) == ext[k + 1] {
      assert tail[k] == fileName[n..][k + 1];
    }
    assert fileName[n..] == "." + tail;
    ExtensionOfSuffix(fileName, tail);
    assert Lower("." + tail) == ext;
  }

  /** Whatever the legacy module shows inline, the current formatter shows inline too. */
  lemma LegacyImageIsImage(fileName: string)
    requires IsLegacyImage(fileName)
    ensures MarkdownFormatter.IsImage(fileName)
    ensures Lower(GetExtension(fileName)) in {".png", ".jpg", ".jpeg", ".gif"}
  {
    var ext := if EndsWithIgnoreCase(fileName, ".png") then ".png"
               else if EndsWithIgnoreCase(fileName, ".jpg") then ".jpg"
               else if EndsWithIgnoreCase(fileName, ".jpeg") then ".jpeg"
               else ".gif";
    assert ext in MarkdownFormatter.ImageExtensions;
    ExtensionOfImageName(fileName, ext);
  }

  /** The current formatter shows inline what the legacy module does, and bitmaps besides. */
  lemma ImageIsLegacyImageOrBitmap(fileName: string)
    requires MarkdownFormatter.IsImage(fileName)
    ensures IsLegacyImage(fileName) || Lower(GetExtension(fileName)) == ".bmp"
  {
    var ext := GetExtension(fileName);
    var lower := Lower(ext);
    if lower != ".bmp" {
      EndsWithSuffixIgnoringCase(fileName, ext);
      assert EndsWithIgnoreCase(fileName, lower);
    }
  }

  /** A name ends, ignoring case, with the lower-cased form of any of its suffixes. */
  lemma EndsWithSuffixIgnoringCase(fileName: string, ext: string)
    requires EndsWith(fileName, ext)
    ensures EndsWithIgnoreCase(fileName, Lower(ext))
  {
    var n := |fileName| - |ext|;
    assert fileName[n..] == ext;
  }

  /** Bitmaps are the one difference: a link in the legacy section, an inline image in the current one. */
  lemma BitmapIsOnlyCurrentImage(fileName: string)
    requires Lower(GetExtension(fileName)) == ".bmp"
    ensures MarkdownFormatter.IsImage(fileName) && !IsLegacyImage(fileName)
  {
    if IsLegacyImage(fileName) {
      LegacyImageIsImage(fileName);
      assert false;
    }
  }

  /** Apart from bitmaps, both generations list an attachment by the same line. */
  lemma AttachmentLineAsCurrent(a: AttachmentJson, current: JiraAttachment)
    requires current.fileName == a.filename && Lower(GetExtension(a.filename)) != ".bmp"
    ensures AttachmentText(a) == MarkdownFormatter.AttachmentLine(current)
  {
    if IsLegacyImage(a.filename) {
      LegacyImageIsImage(a.filename);
    } else if MarkdownFormatter.IsImage(a.filename) {
      ImageIsLegacyImageOrBitmap(a.filename);
    }
  }

  // ---------------------------------------------------------------------------
  // Downloads

  predicate Downloads(server: Server, a: AttachmentJson) {
    server.download(a.content).IsSuccess()
  }

  function SaveOp(server: Server, folder: string, a: AttachmentJson): FsOp {
    WriteBytes(PathCombine(folder, a.filename), server.download(a.content).body)
  }

  /** The files written for the attachments, in order: one per successful download. */
  function DownloadOps(server: Server, folder: string, atts: seq<AttachmentJson>): (ops: seq<FsOp>)
    ensures |ops| <= |atts|
    decreases |atts|
  {
    if atts == [] then []
    else
      var a := atts[|atts| - 1];
      DownloadOps(server, folder, atts[..|atts| - 1]) + (if Downloads(server, a) then [SaveOp(server, folder, a)] else [])
  }

  /** A file is written exactly for each attachment whose download succeeds. */
  lemma {:induction false} DownloadOpsMembership(server: Server, folder: string, atts: seq<AttachmentJson>, op: FsOp)
    ensures op in DownloadOps(server, folder, atts)
            <==> exists j :: 0 <= j < |atts| && Downloads(server, atts[j]) && op == SaveOp(server, folder, atts[j])
    decreases |atts|
  {
    if atts != [] {
      var init := atts[..|atts| - 1];
      var a := atts[|atts| - 1];
      var prev := DownloadOps(server, folder, init);
      var tail := if Downloads(server, a) then [SaveOp(server, folder, a)] else [];
      assert DownloadOps(server, folder, atts) == prev + tail;
      DownloadOpsMembership(server, folder, init, op);
      if op in prev {
        var j :| 0 <= j < |init| && Downloads(server, init[j]) && op == SaveOp(server, folder, init[j]);
        assert atts[j] == init[j];
      } else if op in tail {
        assert atts[|atts| - 1] == a;
      }
      if exists j :: 0 <= j < |atts| && Downloads(server, atts[j]) && op == SaveOp(server, folder, atts[j]) {
        var j :| 0 <= j < |atts| && Downloads(server, atts[j]) && op == SaveOp(server, folder, atts[j]);
        if j < |init| {
          assert init[j] == atts[j];
        } else {
          assert op in tail;
        }
      }
    }
  }

  // ---------------------------------------------------------------------------
  // The module run

  /** The issue URL found in a description, and the key it ends in. */
  datatype IssueLink = IssueLink(url: string, key: string)

  /** The first issue URL of the description and its last '/'-segment, the key. */
  function Link(description: string): (r: Option<IssueLink>)
    ensures r.None? <==> JiraUrl(description).None?
    ensures r.Some? ==> IndexOf(r.value.url, BrowsePath) >= 0
  {
    LinkOf(description, JiraUrl(description))
  }

  /** The link of the match `m` of the description, if any. */
  function LinkOf(description: string, m: Option<UrlMatch>): (r: Option<IssueLink>)
    requires m.Some? ==> IsUrlMatch(description, m.value)
    ensures r.None? <==> m.None?
    ensures r.Some? ==> IndexOf(r.value.url, BrowsePath) >= 0
  {
    if m.None? then None
    else
      var url := description[m.value.start..m.value.end];
      UrlParts(description, m.value);
      Some(IssueLink(url, LastSegment(url)))
  }

  /** The link is the text of the leftmost match, and its key is the key that match ends in. */
  lemma LinkIsLeftmostMatch(description: string)
    requires JiraUrl(description).Some?
    ensures var m := JiraUrl(description).value;
            && Link(description).value.url == description[m.start..m.end]
            && Link(description).value.key == description[m.browse + |BrowsePath|..m.end]
            && IsLegacyKey(Link(description).value.key)
            && DigitsRunOut(description, m.end)
  {
    LinkOfMatch(description, JiraUrl(description).value);
  }

  /** The link of a match is its text, and its key is the key the match ends in. */
  lemma LinkOfMatch(description: string, m: UrlMatch)
    requires IsUrlMatch(description, m)
    ensures LinkOf(description, Some(m)).value.url == description[m.start..m.end]
    ensures LinkOf(description, Some(m)).value.key == description[m.browse + |BrowsePath|..m.end]
    ensures IsLegacyKey(LinkOf(description, Some(m)).value.key)
  {
    UrlParts(description, m);
  }

  /** What a run does once the description's link is known. */
  function StepWith(server: Server, st: LegacyState, link: Option<IssueLink>): StepResult
    requires link.Some? ==> IndexOf(link.value.url, BrowsePath) >= 0
  {
    if link.None? then StepResult(true, st, [])
    else
      var resp := server.issue(ApiUrl(link.value.url, link.value.key));
      if !resp.IsSuccess() then StepResult(false, st, [])
      else
        var issue := resp.body;
        StepResult(true, st.(sections := st.sections + [Section(link.value.key, link.value.url, issue)]),
                   DownloadOps(server, PrFolder(st.prNumber), issue.attachment.GetOr([])))
  }

  /** `ProcessAsync` as a value: what a run does to the context `st`. */
  function Step(server: Server, st: LegacyState): StepResult {
    StepWith(server, st, Link(st.prDescription))
  }

  /** The section of an issue opens with a heading that names its key. */
  lemma SectionNamesKey(key: string, url: string, issue: IssueJson)
    ensures StartsWith(Section(key, url, issue), "## JIRA: [" + key + "](")
  {
    var p := "## JIRA: [" + key + "](";
    var section := Section(key, url, issue);
    assert section[..|p|] == Heading(key, url, issue.summary)[..|p|];
  }

  /** `StepShape` for a known link. */
  lemma StepWithShape(server: Server, st: LegacyState, link: Option<IssueLink>)
    requires link.Some? ==> IndexOf(link.value.url, BrowsePath) >= 0
    ensures var r := StepWith(server, st, link);
            && r.state.prNumber == st.prNumber && r.state.prTitle == st.prTitle
            && r.state.prDescription == st.prDescription
            && (r.ok <==> link.None? || server.issue(ApiUrl(link.value.url, link.value.key)).IsSuccess())
            && (link.None? ==> r.state == st && r.ops == [])
            && (!r.ok ==> r.state == st && r.ops == [])
            && (r.ok && link.Some? ==>
                  var key, url := link.value.key, link.value.url;
                  var issue := server.issue(ApiUrl(url, key)).body;
                  && r.state.sections == st.sections + [Section(key, url, issue)]
                  && StartsWith(r.state.sections[|st.sections|], "## JIRA: [" + key + "](")
                  && r.ops == DownloadOps(server, PrFolder(st.prNumber), issue.attachment.GetOr([])))
  {
    var r := StepWith(server, st, link);
    if r.ok && link.Some? {
      var key, url := link.value.key, link.value.url;
      SectionNamesKey(key, url, server.issue(ApiUrl(url, key)).body);
    }
  }

  /**
   * A run never changes the number, title or description. Without an issue
   * URL it changes nothing. Otherwise it completes exactly when the request
   * for the issue, at the API URL built from the link, succeeds: then it adds
   * the issue's section, headed by the link's key, and writes the
   * attachments it downloads into the pull request's folder; when the
   * request fails it changes nothing and writes nothing.
   */
  lemma StepShape(server: Server, st: LegacyState)
    ensures var r := Step(server, st);
            var link := Link(st.prDescription);
            && r.state.prNumber == st.prNumber && r.state.prTitle == st.prTitle
            && r.state.prDescription == st.prDescription
            && (r.ok <==> link.None? || server.issue(ApiUrl(link.value.url, link.value.key)).IsSuccess())
            && (link.None? ==> r.state == st && r.ops == [])
            && (!r.ok ==> r.state == st && r.ops == [])
            && (r.ok && link.Some? ==>
                  var key, url := link.value.key, link.value.url;
                  var issue := server.issue(ApiUrl(url, key)).body;
                  && r.state.sections == st.sections + [Section(key, url, issue)]
                  && StartsWith(r.state.sections[|st.sections|], "## JIRA: [" + key + "](")
                  && r.ops == DownloadOps(server, PrFolder(st.prNumber), issue.attachment.GetOr([])))
  {
    StepWithShape(server, st, Link(st.prDescription));
  }

  /** The attachment loop: each attachment is downloaded, saved when that succeeds, and listed. */
  method SaveAttachments(server: Server, folder: string, atts: seq<AttachmentJson>) returns (lines: string, writes: seq<FsOp>)
    ensures lines == ConcatMap(atts, AttachmentText)
    ensures writes == DownloadOps(server, folder, atts)
  {
    lines := "";
    writes := [];
    var i := 0;
    while i < |atts|
      invariant 0 <= i <= |atts|
      invariant lines == ConcatMap(atts[..i], AttachmentText)
      invariant writes == DownloadOps(server, folder, atts[..i])
    {
      var att := atts[i];
      assert atts[..i + 1][..i] == atts[..i];
      var download := server.download(att.content);
      if download.IsSuccess() {
        writes := writes + [WriteBytes(PathCombine(folder, att.filename), download.body)];
      }
      lines := lines + MarkdownFormatter.Line(AttachmentMarkdown(att.filename));
      i := i + 1;
    }
    assert atts[..i] == atts;
  }

  /** The comment loop: one line per comment, a null author or body shown as empty. */
  method RenderComments(comments: seq<JiraService.CommentJson>) returns (lines: string)
    ensures lines == ConcatMap(comments, CommentText)
  {
    lines := "";
    var i := 0;
    while i < |comments|
      invariant 0 <= i <= |comments|
      invariant lines == ConcatMap(comments[..i], CommentText)
    {
      var comment := comments[i];
      assert comments[..i + 1][..i] == comments[..i];
      lines := lines + MarkdownFormatter.Line("- **" + comment.authorDisplayName.GetOr("") + "**: " + comment.body.GetOr(""));
      i := i + 1;
    }
    assert comments[..i] == comments;
  }

  /** The section and the file effects for a fetched issue. */
  method RenderIssue(server: Server, folder: string, key: string, url: string, issue: IssueJson)
    returns (section: string, writes: seq<FsOp>)
    ensures section == Section(key, url, issue)
    ensures writes == DownloadOps(server, folder, issue.attachment.GetOr([]))
  {
    var attachmentPart := "";
    var atts := issue.attachment.GetOr([]);
    writes := [];
    if |atts| > 0 {
      var lines;
      lines, writes := SaveAttachments(server, folder, atts);
      attachmentPart := "\n" + lines;
    }
    var commentPart := "";
    var comments := issue.comments.GetOr([]);
    if |comments| > 0 {
      var lines := RenderComments(comments);
      commentPart := "\n" + MarkdownFormatter.Line("### JIRA Comments") + lines;
    }
    section := Heading(key, url, issue.summary) + MarkdownFormatter.Line(issue.description.GetOr(""))
               + attachmentPart + commentPart;
  }

  /** `ProcessAsync`: the run on the context object, as `Step` describes it; `writes` are its file effects. */
  method ProcessAsync(context: LegacyContext, server: Server) returns (ok: bool, writes: seq<FsOp>)
    modifies context
    ensures ok == Step(server, old(context.State())).ok
    ensures context.State() == Step(server, old(context.State())).state
    ensures writes == Step(server, old(context.State())).ops
  {
    var link := Link(context.prDescription);
    ok, writes := ProcessLink(context, server, link);
  }

  /** The run once the link is known: the issue is fetched and its section added. */
  method ProcessLink(context: LegacyContext, server: Server, link: Option<IssueLink>) returns (ok: bool, writes: seq<FsOp>)
    requires link.Some? ==> IndexOf(link.value.url, BrowsePath) >= 0
    modifies context
    ensures ok == StepWith(server, old(context.State()), link).ok
    ensures context.State() == StepWith(server, old(context.State()), link).state
    ensures writes == StepWith(server, old(context.State()), link).ops
  {
    if link.None? {
      return true, [];
    }
    var resp := server.issue(ApiUrl(link.value.url, link.value.key));
    if !resp.IsSuccess() {
      return false, [];
    }
    var section;
    section, writes := RenderIssue(server, PrFolder(context.prNumber), link.value.key, link.value.url, resp.body);
    context.sections := context.sections + [section];
    ok := true;
  }
}
