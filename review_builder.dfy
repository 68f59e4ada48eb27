/**
 * The builder of the current pipeline. It owns one `CodeReviewContext` and
 * fills it step by step: the pull-request id, the pull-request details, the
 * diffs, the linked issues, the generated document. At the end it writes the
 * document to `<output directory>/PR-<id>/<output file name>`.
 *
 * A step that the original reports by throwing `InvalidOperationException`
 * returns `ok == false` here, and the contract says what the context holds
 * at that point. The builder's providers are the services of this model. The
 * files it writes, and those the issue service writes, are appended to a
 * ghost log `fsLog` in the order they happen.
 */
module ReviewBuilder {
  import opened Text
  import opened Models
  import AzureDevOps
  import JiraKeys
  import JiraService
  import MarkdownFormatter

  /** The name of the review document of pull request `id`. */
  function ReviewFileName(id: int): (name: string)
    ensures StartsWith(name, "PR-") && EndsWith(name, "-review.md")
  {
    var name := "PR-" + IntToString(id) + "-review.md";
    assert name[..3] == "PR-";
    assert name[|name| - 10..] == "-review.md";
    name
  }

  /** Different pull requests get different review documents. */
  lemma ReviewFileNamesAreDistinct(a: int, b: int)
    requires ReviewFileName(a) == ReviewFileName(b)
    ensures a == b
  {
    var x, y := IntToString(a), IntToString(b);
    var s := ReviewFileName(a);
    assert |x| == |y|;
    assert x == s[3..3 + |x|];
    assert y == ReviewFileName(b)[3..3 + |y|];
    IntToStringInjective(a, b);
  }

  /** The folder of pull request `id` under the output directory: attachments and the document both go there. */
  function PrFolder(outputDirectory: string, id: int): string {
    PathCombine(outputDirectory, "PR-" + IntToString(id))
  }

  /** A relative output directory puts the folder of a pull request directly under it. */
  lemma PrFolderIsUnderOutputDirectory(outputDirectory: string, id: int)
    requires outputDirectory != "" && outputDirectory[|outputDirectory| - 1] != Separator
    ensures PrFolder(outputDirectory, id) == outputDirectory + "/PR-" + IntToString(id)
  {
    var leaf := "PR-" + IntToString(id);
    assert leaf[0] == 'P';
    assert outputDirectory + [Separator] + leaf == outputDirectory + "/PR-" + IntToString(id);
  }

  /** The two file effects of `BuildAsync` when it writes the document. */
  function DocumentWrites(st: ContextState): seq<FsOp>
    requires !IsNullOrEmpty(st.outputDirectory) && !IsNullOrEmpty(st.outputFileName) && !IsNullOrEmpty(st.generatedMarkdown)
  {
    var folder := PrFolder(st.outputDirectory.value, st.pullRequestId);
    [CreateDirectory(folder), WriteText(PathCombine(folder, st.outputFileName.value), st.generatedMarkdown.value)]
  }

  /** `BuildAsync` writes the document exactly when asked to and every name and the text are present. */
  predicate WillWrite(writeToFile: bool, st: ContextState) {
    writeToFile && !IsNullOrEmpty(st.outputDirectory) && !IsNullOrEmpty(st.outputFileName)
    && !IsNullOrEmpty(st.generatedMarkdown)
  }

  class CodeReviewBuilder {
    const context: CodeReviewContext
    const sourceControl: AzureDevOps.Server
    const differ: (string, string) -> seq<DiffPiece>
    const tracker: JiraService.TrackerServer
    const formatter: MarkdownFormatter.MarkdownOutputFormatter
    const options: CodeReviewOptions
    ghost var fsLog: seq<FsOp>

    /** A fresh context, with the prompt and the output directory taken from the options. */
    constructor (sourceControl: AzureDevOps.Server, differ: (string, string) -> seq<DiffPiece>,
                 tracker: JiraService.TrackerServer, formatter: MarkdownFormatter.MarkdownOutputFormatter,
                 options: CodeReviewOptions)
      ensures fresh(context)
      ensures this.sourceControl == sourceControl && this.differ == differ && this.tracker == tracker
      ensures this.formatter == formatter && this.options == options
      ensures context.State() == ContextState(0, None, [], [], options.reviewPrompt, options.outputDirectory, None, None)
      ensures fsLog == []
    {
      this.sourceControl := sourceControl;
      this.differ := differ;
      this.tracker := tracker;
      this.formatter := formatter;
      this.options := options;
      var ctx := new CodeReviewContext();
      ctx.reviewPrompt := options.reviewPrompt;
      ctx.outputDirectory := options.outputDirectory;
      this.context := ctx;
      fsLog := [];
    }

    /** `SetPullRequestId`: only the id changes; the builder itself is returned for chaining. */
    method SetPullRequestId(prId: int) returns (self: CodeReviewBuilder)
      modifies context
      ensures self == this
      ensures context.State() == old(context.State()).(pullRequestId := prId)
    {
      context.pullRequestId := prId;
      self := this;
    }

    /**
     * `AddAzureDevOpsDetailsAsync`: refused without a positive id. Otherwise
     * the details are replaced by what the provider resolves, even when that
     * is nothing (then the step fails and the output file name is kept); on
     * success the output file name becomes "PR-<id>-review.md".
     */
    method AddAzureDevOpsDetails() returns (ok: bool)
      modifies context
      ensures old(context.pullRequestId) <= 0 ==> !ok && context.State() == old(context.State())
      ensures old(context.pullRequestId) > 0 ==>
                var details := AzureDevOps.DetailsFor(sourceControl, old(context.pullRequestId));
                && ok == details.Some?
                && context.State() == old(context.State()).(
                     pullRequestDetails := details,
                     outputFileName := if details.Some? then Some(ReviewFileName(old(context.pullRequestId)))
                                       else old(context.outputFileName))
    {
      if context.pullRequestId <= 0 {
        return false;
      }
      var details := AzureDevOps.GetPullRequestDetails(sourceControl, context.pullRequestId);
      context.pullRequestDetails := details;
      if details.None? {
        return false;
      }
      context.outputFileName := Some("PR-" + IntToString(context.pullRequestId) + "-review.md");
      ok := true;
    }

    /** `AddDiffsAsync`: refused without details; otherwise the provider's diffs are appended. */
    method AddDiffs() returns (ok: bool)
      modifies context
      ensures ok <==> old(context.pullRequestDetails).Some?
      ensures !ok ==> context.State() == old(context.State())
      ensures ok ==> context.State() == old(context.State()).(
                diffs := old(context.diffs) + AzureDevOps.DiffsFor(sourceControl, differ, old(context.pullRequestDetails).value))
    {
      if context.pullRequestDetails.None? {
        return false;
      }
      var diffs, _ := AzureDevOps.GetDiffs(sourceControl, differ, context.pullRequestDetails.value);
      context.diffs := context.diffs + diffs;
      ok := true;
    }

    /**
     * `AddJiraDetailsAsync`: refused without details or without an output
     * directory; otherwise the issues linked from the description are
     * appended, their attachments being saved in the pull request's folder.
     */
    method AddJiraDetails() returns (ok: bool)
      modifies context, this`fsLog
      ensures ok <==> old(context.pullRequestDetails).Some? && !IsNullOrEmpty(old(context.outputDirectory))
      ensures !ok ==> context.State() == old(context.State()) && fsLog == old(fsLog)
      ensures ok ==>
                var text := old(context.pullRequestDetails).value.description;
                var folder := PrFolder(old(context.outputDirectory).value, old(context.pullRequestId));
                var keys := JiraKeys.IssueKeys(text);
                && context.State() == old(context.State()).(
                     jiraIssues := old(context.jiraIssues) + JiraService.IssuesFor(tracker, keys, folder))
                && fsLog == old(fsLog) + JiraService.OpsForAll(tracker, keys, folder)
    {
      if context.pullRequestDetails.None? {
        return false;
      }
      if IsNullOrEmpty(context.outputDirectory) {
        return false;
      }
      var prDescription := context.pullRequestDetails.value.description;
      var prFolder := PathCombine(context.outputDirectory.value, "PR-" + IntToString(context.pullRequestId));
      var issues, ops := JiraService.GetIssuesFromText(tracker, prDescription, prFolder);
      context.jiraIssues := context.jiraIssues + issues;
      fsLog := fsLog + ops;
      ok := true;
    }

    /** `FormatOutputAsync`: the formatter's outcome, passed on. */
    method FormatOutput() returns (ok: bool)
      modifies context
      ensures ok <==> MarkdownFormatter.CanFormat(old(context.State()))
      ensures !ok ==> context.State() == old(context.State())
      ensures ok ==> context.State() == old(context.State()).(
                generatedMarkdown := Some(MarkdownFormatter.DocumentOf(
                  formatter.config.includeUnchangedLinesInDiff, old(context.State()))))
    {
      ok := formatter.FormatAsync(context);
    }

    /**
     * `BuildAsync`: when asked to write and the directory, file name and
     * document are all present, the pull request's folder is created and the
     * document written into it; when asked to write but something is missing,
     * a warning is given instead. The context is returned unchanged.
     */
    method BuildAsync(writeToFile: bool) returns (result: CodeReviewContext, warned: bool)
      modifies this`fsLog
      ensures result == context
      ensures WillWrite(writeToFile, context.State()) ==> fsLog == old(fsLog) + DocumentWrites(context.State())
      ensures !WillWrite(writeToFile, context.State()) ==> fsLog == old(fsLog)
      ensures warned <==> writeToFile && !WillWrite(writeToFile, context.State())
    {
      warned := false;
      if writeToFile && !IsNullOrEmpty(context.outputDirectory) && !IsNullOrEmpty(context.outputFileName)
         && !IsNullOrEmpty(context.generatedMarkdown)
      {
        var prFolder := PathCombine(context.outputDirectory.value, "PR-" + IntToString(context.pullRequestId));
        fsLog := fsLog + [CreateDirectory(prFolder)];
        var fullPath := PathCombine(prFolder, context.outputFileName.value);
        fsLog := fsLog + [WriteText(fullPath, context.generatedMarkdown.value)];
      } else if writeToFile {
        warned := true;
      }
      result := context;
    }
  }
}
