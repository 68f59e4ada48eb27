/**
 * The source-control module of the first-generation pipeline. It reads the
 * pull request, resolves the merge base and the source tip between the two
 * cleaned branch names, renders one unified diff of every changed file
 * (unchanged lines included), and adds two sections: the diff, fenced, and
 * a fixed review prompt.
 *
 * A failed pull-request request or commit lookup ends the run (the original
 * throws); a failed diff request or content request yields empty text.
 */
module LegacyAzureDevOps {
  import opened Text
  import opened Models
  import AzureDevOps
  import MarkdownFormatter
  import opened LegacyModel

  /** The pull-request fields the module reads; a field is None when it is JSON null. */
  datatype PullRequestJson = PullRequestJson(
    title: Option<string>,
    description: Option<string>,
    sourceRefName: Option<string>,
    targetRefName: Option<string>)

  /** The two commits of a branch-to-branch diff response. */
  datatype BranchDiffJson = BranchDiffJson(baseCommit: Option<string>, targetCommit: Option<string>)

  /** An entry of a commit-to-commit diff: the item's path and object type. */
  datatype ChangeJson = ChangeJson(path: string, gitObjectType: Option<string>)

  /** The answers of the source-control server to the module's requests. */
  datatype Server = Server(
    pullRequest: int -> Response<PullRequestJson>,
    // (baseVersion, targetVersion), both branch names
    branchDiff: (string, string) -> Response<BranchDiffJson>,
    // (baseVersion, targetVersion), both commit ids
    commitDiff: (string, string) -> Response<seq<ChangeJson>>,
    // (path, commit id)
    item: (string, string) -> Response<string>)

  const ReviewPrompt: string :=
    "## Review Prompt\n\nPlease review the above changes for correctness, clarity, and adherence to project standards."

  /** The merge base and source tip for the two cleaned branch names, when both are present and non-empty. */
  function CommitsFor(server: Server, sourceRef: string, targetRef: string): (r: Option<(string, string)>)
    ensures r.Some? ==> r.value.0 != "" && r.value.1 != ""
    ensures r.Some? <==> server.branchDiff(targetRef, sourceRef).IsSuccess()
                         && !IsNullOrEmpty(server.branchDiff(targetRef, sourceRef).body.baseCommit)
                         && !IsNullOrEmpty(server.branchDiff(targetRef, sourceRef).body.targetCommit)
  {
    var resp := server.branchDiff(targetRef, sourceRef);
    if !resp.IsSuccess() then None
    else if IsNullOrEmpty(resp.body.baseCommit) || IsNullOrEmpty(resp.body.targetCommit) then None
    else Some((resp.body.baseCommit.value, resp.body.targetCommit.value))
  }

  /** The commits for the pull request's two branch names, cleaned; a null name reads as "". */
  function BranchCommits(server: Server, pr: PullRequestJson): Option<(string, string)> {
    CommitsFor(server, AzureDevOps.CleanRef(pr.sourceRefName.GetOr("")), AzureDevOps.CleanRef(pr.targetRefName.GetOr("")))
  }

  // ---------------------------------------------------------------------------
  // The diff text

  /** One rendered line: every kind but imaginary and modified is shown, unchanged lines included. */
  function DiffLine(p: DiffPiece): string {
    match p.kind
    case Inserted => MarkdownFormatter.Line("+" + p.text)
    case Deleted => MarkdownFormatter.Line("-" + p.text)
    case Unchanged => MarkdownFormatter.Line(" " + p.text)
    case Imaginary => ""
    case Modified => ""
  }

  /** The rendering of one file: three git header lines, then its lines. */
  function FileDiff(path: string, lines: seq<DiffPiece>): string {
    MarkdownFormatter.Line("diff --git a" + path + " b" + path)
    + MarkdownFormatter.Line("--- a" + path)
    + MarkdownFormatter.Line("+++ b" + path)
    + ConcatMap(lines, DiffLine)
  }

  /** The content of a file at a commit: the body of a successful response, else "". */
  function FileText(server: Server, path: string, commit: string): (text: string)
    ensures !server.item(path, commit).IsSuccess() ==> text == ""
  {
    var resp := server.item(path, commit);
    if resp.IsSuccess() then resp.body else ""
  }

  /** What one change contributes: nothing unless it is a blob, else its file diff from the base to the target commit. */
  function ChangeDiff(server: Server, differ: (string, string) -> seq<DiffPiece>,
                      baseCommit: string, targetCommit: string, c: ChangeJson): (text: string)
    ensures c.gitObjectType != Some("blob") ==> text == ""
  {
    if c.gitObjectType != Some("blob") then ""
    else FileDiff(c.path, differ(FileText(server, c.path, baseCommit), FileText(server, c.path, targetCommit)))
  }

  function ChangesDiff(server: Server, differ: (string, string) -> seq<DiffPiece>,
                       baseCommit: string, targetCommit: string, changes: seq<ChangeJson>): string
    decreases |changes|
  {
    if changes == [] then ""
    else ChangesDiff(server, differ, baseCommit, targetCommit, changes[..|changes| - 1])
         + ChangeDiff(server, differ, baseCommit, targetCommit, changes[|changes| - 1])
  }

  /** The diff text between two commits; "" when the diff request fails. */
  function DiffText(server: Server, differ: (string, string) -> seq<DiffPiece>,
                    baseCommit: string, targetCommit: string): (text: string)
    ensures !server.commitDiff(baseCommit, targetCommit).IsSuccess() ==> text == ""
  {
    var resp := server.commitDiff(baseCommit, targetCommit);
    if !resp.IsSuccess() then "" else ChangesDiff(server, differ, baseCommit, targetCommit, resp.body)
  }

  /** Changes that name no file (folders, submodules) add nothing to the diff. */
  lemma {:induction false} NonBlobChangesAddNothing(server: Server, differ: (string, string) -> seq<DiffPiece>,
                                                    baseCommit: string, targetCommit: string, changes: seq<ChangeJson>)
    requires forall j :: 0 <= j < |changes| ==> changes[j].gitObjectType != Some("blob")
    ensures ChangesDiff(server, differ, baseCommit, targetCommit, changes) == ""
    decreases |changes|
  {
    if changes != [] {
      NonBlobChangesAddNothing(server, differ, baseCommit, targetCommit, changes[..|changes| - 1]);
    }
  }

  /** The legacy module renders a line as the current formatter does when it is configured to show unchanged lines. */
  lemma DiffLineAsCurrentWithUnchanged(p: DiffPiece)
    ensures DiffLine(p) == MarkdownFormatter.DiffLine(true, p)
  {
  }

  lemma {:induction false} DiffLinesAsCurrentWithUnchanged(lines: seq<DiffPiece>)
    ensures ConcatMap(lines, DiffLine) == MarkdownFormatter.DiffLines(true, lines)
    decreases |lines|
  {
    if lines != [] {
      DiffLinesAsCurrentWithUnchanged(lines[..|lines| - 1]);
    }
  }

  /**
   * A legacy file diff followed by a blank line is the current formatter's
   * block of that file when unchanged lines are shown: the two generations
   * render file diffs alike, except that the current one separates files by
   * a blank line and may hide unchanged lines.
   */
  lemma FileDiffAsCurrentWithUnchanged(path: string, lines: seq<DiffPiece>)
    ensures FileDiff(path, lines) + "\n" == MarkdownFormatter.FileDiffBlock(true, DiffInfo(path, lines))
  {
    DiffLinesAsCurrentWithUnchanged(lines);
  }

  // ---------------------------------------------------------------------------
  // The module run

  /** The diff section added to the context. */
  function DiffSection(diff: string): string {
    "## Diff\n```diff\n" + diff + "\n```"
  }

  /** `ProcessAsync` as a value: what a run does to the context `st`. */
  function Step(server: Server, differ: (string, string) -> seq<DiffPiece>, st: LegacyState): StepResult {
    var prResp := server.pullRequest(st.prNumber);
    if !prResp.IsSuccess() then StepResult(false, st, [])
    else
      var pr := prResp.body;
      var titled := st.(prTitle := pr.title.GetOr(""), prDescription := pr.description.GetOr(""));
      var commits := BranchCommits(server, pr);
      if commits.None? then StepResult(false, titled, [])
      else
        var diff := DiffText(server, differ, commits.value.0, commits.value.1);
        StepResult(true, titled.(sections := titled.sections + [DiffSection(diff), ReviewPrompt]), [])
  }

  /**
   * A run completes exactly when the pull request is read and both commits
   * of its branches are found. Once the pull request is read, the title and
   * description are set, even when the commit lookup then fails. A run that
   * completes adds two sections, the diff of the two commits, fenced, then
   * the fixed prompt; a run that fails adds none. It never writes a file.
   */
  lemma StepShape(server: Server, differ: (string, string) -> seq<DiffPiece>, st: LegacyState)
    ensures var r := Step(server, differ, st);
            var resp := server.pullRequest(st.prNumber);
            var commits := BranchCommits(server, resp.body);
            && r.ops == []
            && r.state.prNumber == st.prNumber
            && (r.ok <==> resp.IsSuccess() && commits.Some?)
            && (!resp.IsSuccess() ==> r.state == st)
            && (resp.IsSuccess() ==> r.state.prTitle == resp.body.title.GetOr("")
                                     && r.state.prDescription == resp.body.description.GetOr(""))
            && (!r.ok ==> r.state.sections == st.sections)
            && (r.ok ==> r.state.sections == st.sections + [DiffSection(DiffText(server, differ, commits.value.0, commits.value.1)),
                                                            ReviewPrompt])
  {
  }

  /** The diff loop of `GenerateDiffAsync`, over one file's lines. */
  method RenderLines(lines: seq<DiffPiece>) returns (text: string)
    ensures text == ConcatMap(lines, DiffLine)
  {
    text := "";
    var i := 0;
    while i < |lines|
      invariant 0 <= i <= |lines|
      invariant text == ConcatMap(lines[..i], DiffLine)
    {
      var line := lines[i];
      assert lines[..i + 1][..i] == lines[..i];
      match line.kind {
        case Inserted =>
          text := text + MarkdownFormatter.Line("+" + line.text);
        case Deleted =>
          text := text + MarkdownFormatter.Line("-" + line.text);
        case Unchanged =>
          text := text + MarkdownFormatter.Line(" " + line.text);
        case Imaginary =>
        case Modified =>
      }
      i := i + 1;
    }
    assert lines[..i] == lines;
  }

  /** The body of the loop of `GenerateDiffAsync`: one change's file diff, or nothing when it is not a blob. */
  method RenderChange(server: Server, differ: (string, string) -> seq<DiffPiece>,
                      baseCommit: string, targetCommit: string, change: ChangeJson)
    returns (text: string)
    ensures text == ChangeDiff(server, differ, baseCommit, targetCommit, change)
  {
    if change.gitObjectType != Some("blob") {
      return "";
    }
    var baseResp := server.item(change.path, baseCommit);
    var targetResp := server.item(change.path, targetCommit);
    var baseContent := if baseResp.IsSuccess() then baseResp.body else "";
    var targetContent := if targetResp.IsSuccess() then targetResp.body else "";
    var diff := differ(baseContent, targetContent);
    var lines := RenderLines(diff);
    text := MarkdownFormatter.Line("diff --git a" + change.path + " b" + change.path)
            + MarkdownFormatter.Line("--- a" + change.path)
            + MarkdownFormatter.Line("+++ b" + change.path)
            + lines;
  }

  /** `GenerateDiffAsync` */
  method GenerateDiff(server: Server, differ: (string, string) -> seq<DiffPiece>, baseCommit: string, targetCommit: string)
    returns (result: string)
    ensures result == DiffText(server, differ, baseCommit, targetCommit)
  {
    var diffResp := server.commitDiff(baseCommit, targetCommit);
    if !diffResp.IsSuccess() {
      return "";
    }
    var changes := diffResp.body;
    result := "";
    var i := 0;
    while i < |changes|
      invariant 0 <= i <= |changes|
      invariant result == ChangesDiff(server, differ, baseCommit, targetCommit, changes[..i])
    {
      assert changes[..i + 1][..i] == changes[..i];
      var text := RenderChange(server, differ, baseCommit, targetCommit, changes[i]);
      result := result + text;
      i := i + 1;
    }
    assert changes[..i] == changes;
  }

  /** `ProcessAsync`: the run on the context object, as `Step` describes it. */
  method ProcessAsync(context: LegacyContext, server: Server, differ: (string, string) -> seq<DiffPiece>)
    returns (ok: bool)
    modifies context
    ensures ok == Step(server, differ, old(context.State())).ok
    ensures context.State() == Step(server, differ, old(context.State())).state
  {
    var prResp := server.pullRequest(context.prNumber);
    if !prResp.IsSuccess() {
      return false;
    }
    var pr := prResp.body;
    context.prTitle := pr.title.GetOr("");
    context.prDescription := pr.description.GetOr("");
    var sourceRef := AzureDevOps.CleanRef(pr.sourceRefName.GetOr(""));
    var targetRef := AzureDevOps.CleanRef(pr.targetRefName.GetOr(""));
    var commits := CommitsFor(server, sourceRef, targetRef);
    if commits.None? {
      return false;
    }
    var diff := GenerateDiff(server, differ, commits.value.0, commits.value.1);
    context.sections := context.sections + [DiffSection(diff)];
    context.sections := context.sections + [ReviewPrompt];
    ok := true;
  }
}
