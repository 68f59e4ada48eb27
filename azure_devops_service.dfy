/**
 * The source-control service of the current pipeline: it resolves a pull
 * request into `PullRequestDetails` (two requests: the pull request itself,
 * then a commit diff between the cleaned branch names that yields the
 * merge-base commit and the change list) and computes one `DiffInfo` per
 * changed file from the file contents at the merge base and at the source
 * commit. The server's answers are given as functions; the line-diff library
 * is an uninterpreted function.
 */
module AzureDevOps {
  import opened Text
  import opened Models

  const RefPrefix: string := "refs/heads/"

  /** The fields of the pull-request response the service reads. */
  datatype PullRequestJson = PullRequestJson(
    title: string,
    description: Option<string>,
    sourceRefName: string,
    targetRefName: string,
    lastMergeSourceCommit: string,
    lastMergeTargetCommit: string)

  /** An entry's `item`; a field is None when it is absent or JSON null. */
  datatype ItemJson = ItemJson(path: Option<string>, gitObjectType: Option<string>)

  datatype ChangeJson = ChangeJson(item: Option<ItemJson>, changeType: Option<string>)

  /** The commit-diff response; `changes` is None when it is absent or not an array. */
  datatype CommitDiffJson = CommitDiffJson(baseCommit: string, changes: Option<seq<ChangeJson>>)

  /** The answers of the source-control server to the three requests the service makes. */
  datatype Server = Server(
    pullRequest: int -> Response<PullRequestJson>,
    // (baseVersion, targetVersion), both branch names
    commitDiff: (string, string) -> Response<CommitDiffJson>,
    // (path, commitId)
    item: (string, string) -> Response<string>)

  /** A branch reference with one leading "refs/heads/" removed when present. */
  function CleanRef(ref: string): (r: string)
    ensures StartsWith(ref, RefPrefix) ==> ref == RefPrefix + r
    ensures !StartsWith(ref, RefPrefix) ==> r == ref
  {
    StripPrefix(ref, RefPrefix)
  }

  /** Exactly one prefix is stripped: a branch named "refs/heads/x" keeps its own prefix. */
  lemma CleanRefStripsOnce(branch: string)
    ensures CleanRef(RefPrefix + branch) == branch
  {
    assert (RefPrefix + branch)[..|RefPrefix|] == RefPrefix;
  }

  // ---------------------------------------------------------------------------
  // The change list

  /** An entry names a file when its item has a path, is a "blob", and the entry has a change type; both strings non-empty. */
  predicate IsFileChange(c: ChangeJson) {
    && c.item.Some?
    && c.item.value.path.Some?
    && c.item.value.gitObjectType == Some("blob")
    && c.changeType.Some?
    && c.item.value.path.value != ""
    && c.changeType.value != ""
  }

  function ToFileChange(c: ChangeJson): (f: FileChangeInfo)
    requires IsFileChange(c)
    ensures f.path != "" && f.changeType != ""
  {
    FileChangeInfo(c.item.value.path.value, c.changeType.value)
  }

  /** The file changes named by `entries`, in response order. */
  function FileChanges(entries: seq<ChangeJson>): seq<FileChangeInfo>
    decreases |entries|
  {
    if entries == [] then []
    else
      var init := FileChanges(entries[..|entries| - 1]);
      var last := entries[|entries| - 1];
      if IsFileChange(last) then init + [ToFileChange(last)] else init
  }

  /** A change is kept exactly when some entry names it. */
  lemma {:induction false} FileChangesMembership(entries: seq<ChangeJson>, f: FileChangeInfo)
    ensures f in FileChanges(entries) <==>
            exists j :: 0 <= j < |entries| && IsFileChange(entries[j]) && ToFileChange(entries[j]) == f
    decreases |entries|
  {
    if entries != [] {
      var init := entries[..|entries| - 1];
      FileChangesMembership(init, f);
      assert forall j :: 0 <= j < |init| ==> init[j] == entries[j];
      if f in FileChanges(entries) && f !in FileChanges(init) {
        var j := |entries| - 1;
        assert IsFileChange(entries[j]) && ToFileChange(entries[j]) == f;
      }
    }
  }

  /** Every kept change has a non-empty path and change type. */
  lemma FileChangesAreNonEmpty(entries: seq<ChangeJson>)
    ensures forall f :: f in FileChanges(entries) ==> f.path != "" && f.changeType != ""
  {
    forall f | f in FileChanges(entries)
      ensures f.path != "" && f.changeType != ""
    {
      FileChangesMembership(entries, f);
    }
  }

  /** Filtering commutes with concatenation: the response order is kept. */
  lemma {:induction false} FileChangesAppend(a: seq<ChangeJson>, b: seq<ChangeJson>)
    ensures FileChanges(a + b) == FileChanges(a) + FileChanges(b)
    decreases |b|
  {
    if b == [] {
      assert a + b == a;
    } else {
      var b' := b[..|b| - 1];
      assert (a + b)[..|a + b| - 1] == a + b';
      FileChangesAppend(a, b');
    }
  }

  /** When every entry names a file, the list has one change per entry, in the same order. */
  lemma {:induction false} FileChangesOfAllFiles(entries: seq<ChangeJson>)
    requires forall j :: 0 <= j < |entries| ==> IsFileChange(entries[j])
    ensures |FileChanges(entries)| == |entries|
    ensures forall j :: 0 <= j < |entries| ==> FileChanges(entries)[j] == ToFileChange(entries[j])
    decreases |entries|
  {
    if entries != [] {
      var init := entries[..|entries| - 1];
      FileChangesOfAllFiles(init);
    }
  }

  /** The change-list loop of `GetPullRequestDetailsAsync`. */
  method ParseChanges(changes: Option<seq<ChangeJson>>) returns (result: seq<FileChangeInfo>)
    ensures changes.None? ==> result == []
    ensures changes.Some? ==> result == FileChanges(changes.value)
  {
    result := [];
    if changes.Some? {
      var entries := changes.value;
      var i := 0;
      while i < |entries|
        invariant 0 <= i <= |entries|
        invariant result == FileChanges(entries[..i])
      {
        var change := entries[i];
        assert entries[..i + 1][..i] == entries[..i];
        if change.item.Some? && change.item.value.path.Some?
           && change.item.value.gitObjectType == Some("blob") && change.changeType.Some?
        {
          var path := change.item.value.path.value;
          var changeType := change.changeType.value;
          if path != "" && changeType != "" {
            result := result + [FileChangeInfo(path, changeType)];
          }
        }
        i := i + 1;
      }
      assert entries[..i] == entries;
    }
  }

  // ---------------------------------------------------------------------------
  // Resolving a pull request

  /**
   * `GetPullRequestDetailsAsync`: a failed pull-request or commit-diff request
   * gives no details; otherwise the details carry the uncleaned ref names, the
   * diff's merge-base commit and the parsed change list, and the diff was
   * asked for with the cleaned target branch as base and the cleaned source
   * branch as target.
   */
  method GetPullRequestDetails(server: Server, pullRequestId: int) returns (details: Option<PullRequestDetails>)
    ensures details == DetailsFor(server, pullRequestId)
    ensures !server.pullRequest(pullRequestId).IsSuccess() ==> details == None
    ensures server.pullRequest(pullRequestId).IsSuccess() ==>
              var pr := server.pullRequest(pullRequestId).body;
              var diff := server.commitDiff(CleanRef(pr.targetRefName), CleanRef(pr.sourceRefName));
              && (!diff.IsSuccess() ==> details == None)
              && (diff.IsSuccess() ==>
                    details == Some(PullRequestDetails(
                      pullRequestId, pr.title, pr.description.GetOr(""),
                      pr.sourceRefName, pr.targetRefName,
                      pr.lastMergeSourceCommit, pr.lastMergeTargetCommit,
                      diff.body.baseCommit,
                      if diff.body.changes.Some? then FileChanges(diff.body.changes.value) else [])))
  {
    var prResp := server.pullRequest(pullRequestId);
    if !prResp.IsSuccess() {
      return None;
    }
    var root := prResp.body;
    var sourceRef := root.sourceRefName;
    var targetRef := root.targetRefName;
    var cleanSourceRef := CleanRef(sourceRef);
    var cleanTargetRef := CleanRef(targetRef);
    var diffResp := server.commitDiff(cleanTargetRef, cleanSourceRef);
    if !diffResp.IsSuccess() {
      return None;
    }
    var changes := ParseChanges(diffResp.body.changes);
    details := Some(PullRequestDetails(
      pullRequestId, root.title, root.description.GetOr(""),
      sourceRef, targetRef, root.lastMergeSourceCommit, root.lastMergeTargetCommit,
      diffResp.body.baseCommit, changes));
  }

  /** The details `GetPullRequestDetailsAsync` resolves, as a value. */
  function DetailsFor(server: Server, pullRequestId: int): Option<PullRequestDetails> {
    var prResp := server.pullRequest(pullRequestId);
    if !prResp.IsSuccess() then None
    else
      var pr := prResp.body;
      var diff := server.commitDiff(CleanRef(pr.targetRefName), CleanRef(pr.sourceRefName));
      if !diff.IsSuccess() then None
      else
        Some(PullRequestDetails(
          pullRequestId, pr.title, pr.description.GetOr(""),
          pr.sourceRefName, pr.targetRefName,
          pr.lastMergeSourceCommit, pr.lastMergeTargetCommit,
          diff.body.baseCommit,
          if diff.body.changes.Some? then FileChanges(diff.body.changes.value) else []))
  }

  // ---------------------------------------------------------------------------
  // File contents and diffs

  /** `GetItemContentAsync`: the body of a successful response, "" for 404 and for every other failure. */
  function ItemContent(resp: Response<string>): (content: string)
    ensures resp.IsSuccess() ==> content == resp.body
    ensures resp.IsNotFound() ==> content == ""
    ensures !resp.IsSuccess() ==> content == ""
  {
    if resp.IsSuccess() then resp.body
    else if resp.IsNotFound() then ""
    else ""
  }

  /** The item requests, as (path, commit), that the diff of one change issues. */
  function RequestsFor(details: PullRequestDetails, c: FileChangeInfo): (r: seq<(string, string)>)
    ensures c.changeType == "add" ==> r == [(c.path, details.sourceCommit)]
    ensures c.changeType == "delete" ==> r == [(c.path, details.baseCommit)]
    ensures c.changeType != "add" && c.changeType != "delete" ==>
              r == [(c.path, details.baseCommit), (c.path, details.sourceCommit)]
  {
    (if c.changeType != "add" then [(c.path, details.baseCommit)] else [])
    + (if c.changeType != "delete" then [(c.path, details.sourceCommit)] else [])
  }

  /** The "before" text of a change: empty for an added file, else the content at the merge base. */
  function BaseContent(server: Server, details: PullRequestDetails, c: FileChangeInfo): string {
    if c.changeType != "add" then ItemContent(server.item(c.path, details.baseCommit)) else ""
  }

  /** The "after" text of a change: empty for a deleted file, else the content at the source commit. */
  function TargetContent(server: Server, details: PullRequestDetails, c: FileChangeInfo): string {
    if c.changeType != "delete" then ItemContent(server.item(c.path, details.sourceCommit)) else ""
  }

  function DiffFor(server: Server, differ: (string, string) -> seq<DiffPiece>,
                   details: PullRequestDetails, c: FileChangeInfo): (d: DiffInfo)
    ensures d.filePath == c.path
  {
    DiffInfo(c.path, differ(BaseContent(server, details, c), TargetContent(server, details, c)))
  }

  /** The item requests of the changes `cs`, in order. */
  function RequestsOf(details: PullRequestDetails, cs: seq<FileChangeInfo>): seq<(string, string)>
    decreases |cs|
  {
    if cs == [] then [] else RequestsOf(details, cs[..|cs| - 1]) + RequestsFor(details, cs[|cs| - 1])
  }

  /** The diffs `GetDiffsAsync` computes, as a value: one per change, in change order. */
  function DiffsFor(server: Server, differ: (string, string) -> seq<DiffPiece>, details: PullRequestDetails): seq<DiffInfo> {
    seq(|details.changes|, i requires 0 <= i < |details.changes| => DiffFor(server, differ, details, details.changes[i]))
  }

  /**
   * `GetDiffsAsync`: one diff per change, in change order, each carrying its
   * change's path and the line diff of its before and after texts; `requests`
   * lists the content requests made, in order.
   */
  method GetDiffs(server: Server, differ: (string, string) -> seq<DiffPiece>, details: PullRequestDetails)
    returns (diffs: seq<DiffInfo>, requests: seq<(string, string)>)
    ensures diffs == DiffsFor(server, differ, details)
    ensures |diffs| == |details.changes|
    ensures forall i :: 0 <= i < |diffs| ==>
              diffs[i] == DiffFor(server, differ, details, details.changes[i])
    ensures requests == RequestsOf(details, details.changes)
  {
    diffs, requests := [], [];
    if |details.changes| == 0 {
      return;
    }
    var i := 0;
    while i < |details.changes|
      invariant 0 <= i <= |details.changes|
      invariant |diffs| == i
      invariant forall k :: 0 <= k < i ==> diffs[k] == DiffFor(server, differ, details, details.changes[k])
      invariant requests == RequestsOf(details, details.changes[..i])
    {
      var change := details.changes[i];
      assert details.changes[..i + 1][..i] == details.changes[..i];
      var baseContent, targetContent := "", "";
      if change.changeType != "add" {
        baseContent := ItemContent(server.item(change.path, details.baseCommit));
        requests := requests + [(change.path, details.baseCommit)];
      }
      if change.changeType != "delete" {
        targetContent := ItemContent(server.item(change.path, details.sourceCommit));
        requests := requests + [(change.path, details.sourceCommit)];
      }
      diffs := diffs + [DiffInfo(change.path, differ(baseContent, targetContent))];
      i := i + 1;
    }
    assert details.changes[..i] == details.changes;
  }

  /** A change whose content requests all fail still gets its entry, diffed from two empty texts. */
  lemma FailedFetchesDiffEmptyTexts(server: Server, differ: (string, string) -> seq<DiffPiece>,
                                    details: PullRequestDetails, c: FileChangeInfo)
    requires !server.item(c.path, details.baseCommit).IsSuccess()
    requires !server.item(c.path, details.sourceCommit).IsSuccess()
    ensures DiffFor(server, differ, details, c) == DiffInfo(c.path, differ("", ""))
  {
  }
}
