/**
 * The issue-tracker service of the current pipeline: it finds the issue keys
 * linked from a pull-request description, fetches each issue once, downloads
 * the issue's attachments into a directory and keeps its non-empty comments.
 * The tracker's answers are functions of the request; file writes are
 * recorded as `FsOp`s in the order they happen.
 */
module JiraService {
  import opened Text
  import opened Models
  import opened JiraKeys

  /** An entry of `fields.attachment`; a field is None when it is JSON null. */
  datatype AttachmentJson = AttachmentJson(filename: Option<string>, content: Option<string>)

  /** An entry of `fields.comment.comments`: the author's display name and the body. */
  datatype CommentJson = CommentJson(authorDisplayName: Option<string>, body: Option<string>)

  /**
   * The `fields` object of an issue response. `attachment` is None when it is
   * absent or not an array; `comments` is None when `comment.comments` is
   * absent or not an array.
   */
  datatype IssueFieldsJson = IssueFieldsJson(
    summary: Option<string>,
    description: Option<string>,
    attachment: Option<seq<AttachmentJson>>,
    comments: Option<seq<CommentJson>>)

  /** The tracker: its configured base URL, the issue endpoint by key, and attachment downloads by URL. */
  datatype TrackerServer = TrackerServer(
    baseUrl: string,
    issue: string -> Response<IssueFieldsJson>,
    download: string -> Response<seq<byte>>)

  // ---------------------------------------------------------------------------
  // Comments

  /** A comment is kept when both its author and its body are non-null and non-empty. */
  predicate IsKept(c: CommentJson) {
    !IsNullOrEmpty(c.authorDisplayName) && !IsNullOrEmpty(c.body)
  }

  /** The comments kept from `entries`, in response order. */
  function KeptComments(entries: seq<CommentJson>): seq<JiraComment>
    decreases |entries|
  {
    if entries == [] then []
    else
      var last := entries[|entries| - 1];
      KeptComments(entries[..|entries| - 1])
        + (if IsKept(last) then [JiraComment(last.authorDisplayName.value, last.body.value)] else [])
  }

  /** A comment is in the list exactly when some entry with that non-empty author and body produced it. */
  lemma {:induction false} KeptCommentsMembership(entries: seq<CommentJson>, c: JiraComment)
    ensures c in KeptComments(entries) <==>
            exists j :: 0 <= j < |entries| && IsKept(entries[j])
                        && c == JiraComment(entries[j].authorDisplayName.value, entries[j].body.value)
    decreases |entries|
  {
    if entries != [] {
      var init := entries[..|entries| - 1];
      KeptCommentsMembership(init, c);
      assert forall j :: 0 <= j < |init| ==> init[j] == entries[j];
      if c in KeptComments(entries) && c !in KeptComments(init) {
        var j := |entries| - 1;
        assert IsKept(entries[j]) && c == JiraComment(entries[j].authorDisplayName.value, entries[j].body.value);
      }
    }
  }

  /** Every kept comment has a non-empty author and a non-empty body. */
  lemma KeptCommentsAreNonEmpty(entries: seq<CommentJson>)
    ensures forall c :: c in KeptComments(entries) ==> c.author != "" && c.body != ""
  {
    forall c | c in KeptComments(entries)
      ensures c.author != "" && c.body != ""
    {
      KeptCommentsMembership(entries, c);
    }
  }

  /** Filtering comments commutes with concatenation, so their order is the response order. */
  lemma {:induction false} KeptCommentsAppend(a: seq<CommentJson>, b: seq<CommentJson>)
    ensures KeptComments(a + b) == KeptComments(a) + KeptComments(b)
    decreases |b|
  {
    if b == [] {
      assert a + b == a;
    } else {
      var b' := b[..|b| - 1];
      assert (a + b)[..|a + b| - 1] == a + b';
      KeptCommentsAppend(a, b');
    }
  }

  /** `ProcessComments` */
  method ProcessComments(comments: Option<seq<CommentJson>>) returns (result: seq<JiraComment>)
    ensures comments.None? ==> result == []
    ensures comments.Some? ==> result == KeptComments(comments.value)
  {
    result := [];
    if comments.Some? {
      var entries := comments.value;
      var i := 0;
      while i < |entries|
        invariant 0 <= i <= |entries|
        invariant result == KeptComments(entries[..i])
      {
        var comment := entries[i];
        assert entries[..i + 1][..i] == entries[..i];
        var author := comment.authorDisplayName;
        var body := comment.body;
        if !IsNullOrEmpty(author) && !IsNullOrEmpty(body) {
          result := result + [JiraComment(author.value, body.value)];
        }
        i := i + 1;
      }
      assert entries[..i] == entries;
    }
  }

  // ---------------------------------------------------------------------------
  // Attachments

  /** An attachment is fetched only when its file name and its content URL are both non-empty. */
  predicate IsDownloadable(a: AttachmentJson) {
    !IsNullOrEmpty(a.filename) && !IsNullOrEmpty(a.content)
  }

  /** What one attachment entry contributes: the downloaded attachment, or nothing when it is skipped or its download fails. */
  function DownloadOf(server: TrackerServer, a: AttachmentJson): (r: seq<JiraAttachment>)
    ensures |r| <= 1
    ensures |r| == 1 <==> IsDownloadable(a) && server.download(a.content.value).IsSuccess()
    ensures |r| == 1 ==> r[0].fileName != "" && r[0].url != ""
  {
    if IsDownloadable(a) && server.download(a.content.value).IsSuccess() then
      [JiraAttachment(a.filename.value, a.content.value, server.download(a.content.value).body)]
    else []
  }

  /** The attachments downloaded from `entries`, in response order. */
  function Downloaded(server: TrackerServer, entries: seq<AttachmentJson>): seq<JiraAttachment>
    decreases |entries|
  {
    if entries == [] then []
    else Downloaded(server, entries[..|entries| - 1]) + DownloadOf(server, entries[|entries| - 1])
  }

  /** An attachment is kept exactly when a downloadable entry with that name and URL downloaded successfully, with the downloaded bytes. */
  lemma {:induction false} DownloadedMembership(server: TrackerServer, entries: seq<AttachmentJson>, a: JiraAttachment)
    ensures a in Downloaded(server, entries) <==>
            exists j :: 0 <= j < |entries| && IsDownloadable(entries[j])
                        && server.download(entries[j].content.value).IsSuccess()
                        && a == JiraAttachment(entries[j].filename.value, entries[j].content.value,
                                               server.download(entries[j].content.value).body)
    decreases |entries|
  {
    if entries != [] {
      var init := entries[..|entries| - 1];
      DownloadedMembership(server, init, a);
      assert forall j :: 0 <= j < |init| ==> init[j] == entries[j];
    }
  }

  /** When every download fails, no attachment is kept. */
  lemma {:induction false} FailedDownloadsKeepNothing(server: TrackerServer, entries: seq<AttachmentJson>)
    requires forall j :: 0 <= j < |entries| && entries[j].content.Some? ==>
               !server.download(entries[j].content.value).IsSuccess()
    ensures Downloaded(server, entries) == []
    decreases |entries|
  {
    if entries != [] {
      FailedDownloadsKeepNothing(server, entries[..|entries| - 1]);
    }
  }

  /** The file writes that store `atts` in `dir`, one per attachment, in order. */
  function WritesOf(dir: string, atts: seq<JiraAttachment>): (ops: seq<FsOp>)
    ensures |ops| == |atts|
    ensures forall i :: 0 <= i < |atts| ==> ops[i] == WriteBytes(PathCombine(dir, atts[i].fileName), atts[i].content)
  {
    seq(|atts|, i requires 0 <= i < |atts| => WriteBytes(PathCombine(dir, atts[i].fileName), atts[i].content))
  }

  /** Storing one more attachment adds its write at the end. */
  lemma WritesOfSnoc(dir: string, atts: seq<JiraAttachment>, a: JiraAttachment)
    ensures WritesOf(dir, atts + [a]) == WritesOf(dir, atts) + [WriteBytes(PathCombine(dir, a.fileName), a.content)]
  {
    var longer := atts + [a];
    assert forall i :: 0 <= i < |atts| ==> longer[i] == atts[i];
  }

  /**
   * `ProcessAttachmentsAsync`: with an attachment array, the directory is
   * created first and each downloaded attachment is then written under its
   * file name, in the order the attachments are kept.
   */
  method ProcessAttachments(server: TrackerServer, entries: Option<seq<AttachmentJson>>, dir: string)
    returns (atts: seq<JiraAttachment>, ops: seq<FsOp>)
    ensures entries.None? ==> atts == [] && ops == []
    ensures entries.Some? ==> atts == Downloaded(server, entries.value)
    ensures entries.Some? ==> ops == [CreateDirectory(dir)] + WritesOf(dir, atts)
  {
    atts, ops := [], [];
    if entries.Some? {
      var arr := entries.value;
      ops := ops + [CreateDirectory(dir)];
      var i := 0;
      while i < |arr|
        invariant 0 <= i <= |arr|
        invariant atts == Downloaded(server, arr[..i])
        invariant ops == [CreateDirectory(dir)] + WritesOf(dir, atts)
      {
        var att := arr[i];
        assert arr[..i + 1][..i] == arr[..i];
        assert Downloaded(server, arr[..i + 1]) == atts + DownloadOf(server, att);
        var filename := att.filename;
        var contentUrl := att.content;
        if !IsNullOrEmpty(filename) && !IsNullOrEmpty(contentUrl) {
          var attResp := server.download(contentUrl.value);
          if attResp.IsSuccess() {
            var localPath := PathCombine(dir, filename.value);
            var attachment := JiraAttachment(filename.value, contentUrl.value, attResp.body);
            WritesOfSnoc(dir, atts, attachment);
            ops := ops + [WriteBytes(localPath, attResp.body)];
            atts := atts + [attachment];
          }
        }
        i := i + 1;
      }
      assert arr[..i] == arr;
    }
  }

  // ---------------------------------------------------------------------------
  // One issue

  /** The issue fetched for `key`, or None when the request fails. */
  function IssueFor(server: TrackerServer, key: string, dir: string): (r: Option<JiraIssue>)
    ensures r.Some? <==> server.issue(key).IsSuccess()
    ensures r.Some? ==> r.value.key == key && r.value.url == server.baseUrl + "/browse/" + key
  {
    var resp := server.issue(key);
    if !resp.IsSuccess() then None
    else
      var fields := resp.body;
      Some(JiraIssue(
        key, server.baseUrl + "/browse/" + key,
        fields.summary.GetOr("N/A"), fields.description.GetOr(""),
        if fields.attachment.Some? then Downloaded(server, fields.attachment.value) else [],
        if fields.comments.Some? then KeptComments(fields.comments.value) else []))
  }

  /** The file-system effects of fetching `key`: none when the request fails or the issue has no attachment array. */
  function OpsFor(server: TrackerServer, key: string, dir: string): (ops: seq<FsOp>)
    ensures !server.issue(key).IsSuccess() ==> ops == []
  {
    var resp := server.issue(key);
    if !resp.IsSuccess() || resp.body.attachment.None? then []
    else [CreateDirectory(dir)] + WritesOf(dir, Downloaded(server, resp.body.attachment.value))
  }

  /**
   * `GetIssueDetailsAsync`: a failed request gives no issue and touches no
   * file; otherwise the summary defaults to "N/A", the description to "", and
   * the page URL is the base URL, "/browse/" and the key.
   */
  method GetIssueDetails(server: TrackerServer, key: string, dir: string)
    returns (issue: Option<JiraIssue>, ops: seq<FsOp>)
    ensures issue == IssueFor(server, key, dir)
    ensures ops == OpsFor(server, key, dir)
  {
    var response := server.issue(key);
    if !response.IsSuccess() {
      return None, [];
    }
    var fields := response.body;
    var summary := fields.summary.GetOr("N/A");
    var description := fields.description.GetOr("");
    var issuePageUrl := server.baseUrl + "/browse/" + key;
    var attachments;
    attachments, ops := ProcessAttachments(server, fields.attachment, dir);
    var comments := ProcessComments(fields.comments);
    issue := Some(JiraIssue(key, issuePageUrl, summary, description, attachments, comments));
  }

  /** A fetched issue keeps its fields: a null summary reads "N/A", a null description "". */
  lemma IssueForDefaults(server: TrackerServer, key: string, dir: string)
    requires server.issue(key).IsSuccess()
    ensures var fields := server.issue(key).body;
            var issue := IssueFor(server, key, dir).value;
            && (fields.summary.None? ==> issue.summary == "N/A")
            && (fields.summary.Some? ==> issue.summary == fields.summary.value)
            && (fields.description.None? ==> issue.description == "")
            && (fields.description.Some? ==> issue.description == fields.description.value)
            && (forall c :: c in issue.comments ==> c.author != "" && c.body != "")
  {
    var fields := server.issue(key).body;
    if fields.comments.Some? {
      KeptCommentsAreNonEmpty(fields.comments.value);
    }
  }

  // ---------------------------------------------------------------------------
  // All issues of a text

  /** The issues fetched for `keys`, in key order, skipping keys whose request fails. */
  function IssuesFor(server: TrackerServer, keys: seq<string>, dir: string): seq<JiraIssue>
    decreases |keys|
  {
    if keys == [] then []
    else
      var last := IssueFor(server, keys[|keys| - 1], dir);
      IssuesFor(server, keys[..|keys| - 1], dir) + (if last.Some? then [last.value] else [])
  }

  /** The file-system effects of fetching every key of `keys`, in order. */
  function OpsForAll(server: TrackerServer, keys: seq<string>, dir: string): seq<FsOp>
    decreases |keys|
  {
    if keys == [] then []
    else OpsForAll(server, keys[..|keys| - 1], dir) + OpsFor(server, keys[|keys| - 1], dir)
  }

  /** Each issue returned is the issue of one of the keys, and carries that key. */
  lemma {:induction false} IssuesForMembership(server: TrackerServer, keys: seq<string>, dir: string, issue: JiraIssue)
    ensures issue in IssuesFor(server, keys, dir) <==>
            exists j :: 0 <= j < |keys| && IssueFor(server, keys[j], dir) == Some(issue)
    decreases |keys|
  {
    if keys != [] {
      var init := keys[..|keys| - 1];
      IssuesForMembership(server, init, dir, issue);
      assert forall j :: 0 <= j < |init| ==> init[j] == keys[j];
      if issue in IssuesFor(server, keys, dir) && issue !in IssuesFor(server, init, dir) {
        assert IssueFor(server, keys[|keys| - 1], dir) == Some(issue);
      }
    }
  }

  /** No two issues have keys that are equal ignoring case. */
  predicate DistinctIssueKeys(issues: seq<JiraIssue>) {
    forall a, b :: 0 <= a < b < |issues| ==> Upper(issues[a].key) != Upper(issues[b].key)
  }

  /** Keys that are distinct ignoring case give issues whose keys are distinct ignoring case. */
  lemma {:induction false} IssuesForAreDistinct(server: TrackerServer, keys: seq<string>, dir: string)
    requires forall a, b :: 0 <= a < b < |keys| ==> Upper(keys[a]) != Upper(keys[b])
    ensures DistinctIssueKeys(IssuesFor(server, keys, dir))
    decreases |keys|
  {
    if keys != [] {
      var init := keys[..|keys| - 1];
      var last := keys[|keys| - 1];
      assert forall j :: 0 <= j < |init| ==> init[j] == keys[j];
      var prev := IssuesFor(server, init, dir);
      IssuesForAreDistinct(server, init, dir);
      assert DistinctIssueKeys(prev);
      var next := IssueFor(server, last, dir);
      var issues := IssuesFor(server, keys, dir);
      assert forall a, b :: 0 <= a < b < |prev| ==> Upper(prev[a].key) != Upper(prev[b].key);
      if next.Some? {
        assert issues == prev + [next.value];
        forall a | 0 <= a < |prev|
          ensures Upper(prev[a].key) != Upper(next.value.key)
        {
          assert prev[a] in prev;
          IssuesForMembership(server, init, dir, prev[a]);
          var j :| 0 <= j < |init| && IssueFor(server, init[j], dir) == Some(prev[a]);
          assert init[j] == keys[j];
        }
        forall a, b | 0 <= a < b < |issues|
          ensures Upper(issues[a].key) != Upper(issues[b].key)
        {
          assert issues[a] == prev[a];
          if b < |prev| {
            assert issues[b] == prev[b];
          } else {
            assert issues[b] == next.value;
          }
        }
        assert DistinctIssueKeys(issues);
      } else {
        assert issues == prev;
      }
    }
  }

  /** Keys whose request fails contribute no issue and no file effect. */
  lemma {:induction false} FailedKeysContributeNothing(server: TrackerServer, keys: seq<string>, dir: string)
    requires forall j :: 0 <= j < |keys| ==> !server.issue(keys[j]).IsSuccess()
    ensures IssuesFor(server, keys, dir) == [] && OpsForAll(server, keys, dir) == []
    decreases |keys|
  {
    if keys != [] {
      FailedKeysContributeNothing(server, keys[..|keys| - 1], dir);
    }
  }

  /** The loop of `GetIssuesFromTextAsync`: every key is fetched once, in order. */
  method GetIssues(server: TrackerServer, keys: seq<string>, dir: string)
    returns (issues: seq<JiraIssue>, ops: seq<FsOp>)
    ensures issues == IssuesFor(server, keys, dir)
    ensures ops == OpsForAll(server, keys, dir)
  {
    issues, ops := [], [];
    var i := 0;
    while i < |keys|
      invariant 0 <= i <= |keys|
      invariant issues == IssuesFor(server, keys[..i], dir)
      invariant ops == OpsForAll(server, keys[..i], dir)
    {
      var key := keys[i];
      assert keys[..i + 1][..i] == keys[..i];
      var issue, issueOps := GetIssueDetails(server, key, dir);
      ops := ops + issueOps;
      if issue.Some? {
        issues := issues + [issue.value];
      }
      i := i + 1;
    }
    assert keys[..i] == keys;
  }

  /**
   * `GetIssuesFromTextAsync`: the issues of the distinct keys linked from
   * `text`, in order of first appearance, skipping keys whose request fails;
   * no two of them have keys that are equal ignoring case.
   */
  method GetIssuesFromText(server: TrackerServer, text: string, dir: string)
    returns (issues: seq<JiraIssue>, ops: seq<FsOp>)
    ensures issues == IssuesFor(server, IssueKeys(text), dir)
    ensures ops == OpsForAll(server, IssueKeys(text), dir)
    ensures DistinctIssueKeys(issues)
  {
    var issueKeys := IssueKeys(text);
    issues, ops := GetIssues(server, issueKeys, dir);
    IssueKeysAreDistinctKeys(text);
    IssuesForAreDistinct(server, issueKeys, dir);
  }
}
