/**
 * The records the current pipeline passes between its stages, the mutable
 * review context the builder owns, and the shapes of what the outside world
 * returns (HTTP responses, file-system effects).
 */
module Models {

  newtype byte = b: int | 0 <= b < 256

  datatype Option<T> = None | Some(value: T) {
    /** `value ?? default` */
    function GetOr(default: T): T {
      match this
      case Some(v) => v
      case None => default
    }
  }

  /** An HTTP response as the services read it: its status code and its body. */
  datatype Response<T> = Response(status: int, body: T) {
    /** `HttpResponseMessage.IsSuccessStatusCode` */
    predicate IsSuccess() {
      200 <= status <= 299
    }

    predicate IsNotFound() {
      status == 404
    }
  }

  /** A file-system effect, recorded in order instead of performed. */
  datatype FsOp =
    | CreateDirectory(dir: string)
    | WriteText(path: string, text: string)
    | WriteBytes(path: string, bytes: seq<byte>)

  /** The line classification of the line-diff library. */
  datatype ChangeType = Inserted | Deleted | Unchanged | Imaginary | Modified

  /** One line of a computed line diff. */
  datatype DiffPiece = DiffPiece(kind: ChangeType, text: string)

  /** The diff of one changed file. */
  datatype DiffInfo = DiffInfo(filePath: string, lines: seq<DiffPiece>)

  /** One changed file of a pull request, with the server's change-type word ("add", "edit", "delete", ...). */
  datatype FileChangeInfo = FileChangeInfo(path: string, changeType: string)

  datatype PullRequestDetails = PullRequestDetails(
    id: int,
    title: string,
    description: string,
    sourceRefName: string,
    targetRefName: string,
    sourceCommit: string,
    targetCommit: string,
    baseCommit: string,
    changes: seq<FileChangeInfo>)

  datatype JiraAttachment = JiraAttachment(fileName: string, url: string, content: seq<byte>)

  datatype JiraComment = JiraComment(author: string, body: string)

  datatype JiraIssue = JiraIssue(
    key: string,
    url: string,
    summary: string,
    description: string,
    attachments: seq<JiraAttachment>,
    comments: seq<JiraComment>)

  /** The two options the builder reads when it is constructed. */
  datatype CodeReviewOptions = CodeReviewOptions(reviewPrompt: Option<string>, outputDirectory: Option<string>)

  /** The formatter's configuration. */
  datatype CodeReviewConfig = CodeReviewConfig(
    outputDirectory: string,
    reviewPrompt: string,
    includeUnchangedLinesInDiff: bool)

  /** A configuration that sets only the required prompt. */
  function ConfigWithDefaults(reviewPrompt: string): (c: CodeReviewConfig)
    ensures c.outputDirectory == "CodeReviews" && !c.includeUnchangedLinesInDiff
    ensures c.reviewPrompt == reviewPrompt
  {
    CodeReviewConfig("CodeReviews", reviewPrompt, false)
  }

  /** A snapshot of every field of a `CodeReviewContext`. */
  datatype ContextState = ContextState(
    pullRequestId: int,
    pullRequestDetails: Option<PullRequestDetails>,
    diffs: seq<DiffInfo>,
    jiraIssues: seq<JiraIssue>,
    reviewPrompt: Option<string>,
    outputDirectory: Option<string>,
    outputFileName: Option<string>,
    generatedMarkdown: Option<string>)

  /** The single working state one run of the pipeline fills in. */
  class CodeReviewContext {
    var pullRequestId: int
    var pullRequestDetails: Option<PullRequestDetails>
    var diffs: seq<DiffInfo>
    var jiraIssues: seq<JiraIssue>
    var reviewPrompt: Option<string>
    var outputDirectory: Option<string>
    var outputFileName: Option<string>
    var generatedMarkdown: Option<string>

    constructor ()
      ensures State() == ContextState(0, None, [], [], None, None, None, None)
    {
      pullRequestId := 0;
      pullRequestDetails := None;
      diffs := [];
      jiraIssues := [];
      reviewPrompt := None;
      outputDirectory := None;
      outputFileName := None;
      generatedMarkdown := None;
    }

    function State(): ContextState
      reads this
    {
      ContextState(pullRequestId, pullRequestDetails, diffs, jiraIssues,
                   reviewPrompt, outputDirectory, outputFileName, generatedMarkdown)
    }
  }

  /** `string.IsNullOrEmpty` on a nullable string. */
  predicate IsNullOrEmpty(s: Option<string>) {
    s.None? || s.value == ""
  }
}
