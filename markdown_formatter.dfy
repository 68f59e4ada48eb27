/**
 * The output formatter of the current pipeline: it renders the review
 * context as one Markdown document (title and description, one block per
 * issue, the diff section, the review prompt) and stores it in the context.
 *
 * The document is specified by pure functions, one per block; the formatter
 * builds it imperatively, appending to a `StringBuilder` (a string here), and
 * is proved to build exactly the specified text. `AppendLine` ends a line
 * with "\n".
 */
module MarkdownFormatter {
  import opened Text
  import opened Models

  /** `AppendLine(s)` */
  function Line(s: string): string {
    s + "\n"
  }

  // ---------------------------------------------------------------------------
  // Title and description

  function TitleBlock(details: PullRequestDetails): string {
    Line("# " + details.title) + "\n" + PrDescriptionBlock(details.description)
  }

  /** The pull request's description and a blank line, absent when the description is blank. */
  function PrDescriptionBlock(description: string): (r: string)
    ensures IsBlank(description) <==> r == ""
  {
    if !IsBlank(description) then Line(description) + "\n" else ""
  }

  // ---------------------------------------------------------------------------
  // Issues

  /** The issue tracker's wiki markup for code blocks becomes a Markdown fence. */
  function WikiToMarkdown(description: string): (r: string)
    ensures !Contains(description, "{code}") && !Contains(description, "{noformat}") ==> r == description
  {
    Replace(Replace(description, "{code}", "```"), "{noformat}", "```")
  }

  /** After conversion, neither wiki marker is left in the text. */
  lemma WikiMarkersAreGone(description: string)
    ensures !Contains(WikiToMarkdown(description), "{code}")
    ensures !Contains(WikiToMarkdown(description), "{noformat}")
  {
    var once := Replace(description, "{code}", "```");
    ReplaceRemovesEveryOccurrence(description, "{code}", "```");
    ReplaceRemovesEveryOccurrence(once, "{noformat}", "```");
    assert SharesNoChar("```", "{code}");
    if Contains(Replace(once, "{noformat}", "```"), "{code}") {
      ReplaceCreatesNoOccurrence(once, "{noformat}", "```", "{code}");
    }
  }

  const ImageExtensions: set<string> := {".png", ".jpg", ".jpeg", ".gif", ".bmp"}

  /** An attachment is shown inline when its extension, lower-cased, is an image extension. */
  predicate IsImage(fileName: string) {
    Lower(GetExtension(fileName)) in ImageExtensions
  }

  function AttachmentLine(a: JiraAttachment): string {
    if IsImage(a.fileName) then Line("![" + a.fileName + "](" + a.fileName + ")")
    else Line("[Attachment: " + a.fileName + "](" + a.fileName + ")")
  }

  /** The attachment list: absent when there is no attachment. */
  function AttachmentsBlock(atts: seq<JiraAttachment>): (r: string)
    ensures atts == [] <==> r == ""
  {
    if |atts| > 0 then Line("### Attachments") + ConcatMap(atts, AttachmentLine) + "\n" else ""
  }

  function CommentLine(c: JiraComment): string {
    Line("- **" + c.author + "**: " + c.body)
  }

  /** The comment list: absent when there is no comment. */
  function CommentsBlock(comments: seq<JiraComment>): (r: string)
    ensures comments == [] <==> r == ""
  {
    if |comments| > 0 then Line("### Comments") + ConcatMap(comments, CommentLine) + "\n" else ""
  }

  /** The block of one issue: heading with its link, summary in bold, converted description when not blank, attachments, comments. */
  function IssueBlock(issue: JiraIssue): (r: string)
    ensures StartsWith(r, IssueHeading(issue))
  {
    var r := IssueHeading(issue) + DescriptionBlock(issue.description)
             + AttachmentsBlock(issue.attachments) + CommentsBlock(issue.comments);
    assert r[..|IssueHeading(issue)|] == IssueHeading(issue);
    r
  }

  /** The heading of an issue block, linking the issue, then its summary in bold. */
  function IssueHeading(issue: JiraIssue): string {
    Line("## JIRA: [" + issue.key + "](" + issue.url + ")") + "\n" + Line("**" + issue.summary + "**") + "\n"
  }

  /** The converted description, absent when the description is blank. */
  function DescriptionBlock(description: string): (r: string)
    ensures IsBlank(description) <==> r == ""
  {
    if !IsBlank(description) then Line(WikiToMarkdown(description)) + "\n" else ""
  }

  // ---------------------------------------------------------------------------
  // Diffs

  /** One diff line: "+" inserted, "-" deleted, " " unchanged when configured; nothing otherwise. */
  function DiffLine(includeUnchanged: bool, p: DiffPiece): (r: string)
    ensures r == "" <==> p.kind in {Imaginary, Modified} || (p.kind == Unchanged && !includeUnchanged)
    ensures r != "" ==> r[|r| - 1] == '\n'
  {
    match p.kind
    case Inserted => Line("+" + p.text)
    case Deleted => Line("-" + p.text)
    case Unchanged => if includeUnchanged then Line(" " + p.text) else ""
    case Imaginary => ""
    case Modified => ""
  }

  function DiffLines(includeUnchanged: bool, lines: seq<DiffPiece>): string
    decreases |lines|
  {
    if lines == [] then ""
    else DiffLines(includeUnchanged, lines[..|lines| - 1]) + DiffLine(includeUnchanged, lines[|lines| - 1])
  }

  /** The lines of a diff that are not unchanged, in order. */
  function WithoutUnchanged(lines: seq<DiffPiece>): (r: seq<DiffPiece>)
    ensures forall p :: p in r ==> p in lines && p.kind != Unchanged
    ensures forall p :: p in lines && p.kind != Unchanged ==> p in r
    decreases |lines|
  {
    if lines == [] then []
    else
      var last := lines[|lines| - 1];
      WithoutUnchanged(lines[..|lines| - 1]) + (if last.kind == Unchanged then [] else [last])
  }

  /** Leaving unchanged lines out renders a diff as if it had none: the flag only decides about unchanged lines. */
  lemma {:induction false} UnchangedLinesAreLeftOut(lines: seq<DiffPiece>)
    ensures DiffLines(false, lines) == DiffLines(true, WithoutUnchanged(lines))
    decreases |lines|
  {
    if lines != [] {
      var init := lines[..|lines| - 1];
      var last := lines[|lines| - 1];
      UnchangedLinesAreLeftOut(init);
      var kept := WithoutUnchanged(init);
      if last.kind == Unchanged {
        assert WithoutUnchanged(lines) == kept;
        assert DiffLines(false, lines) == DiffLines(false, init) + "";
      } else {
        var kept' := kept + [last];
        assert WithoutUnchanged(lines) == kept';
        assert kept'[..|kept'| - 1] == kept;
        assert DiffLine(false, last) == DiffLine(true, last);
        assert DiffLines(true, kept') == DiffLines(true, kept) + DiffLine(true, last);
      }
    }
  }

  /** The block of one file: the three git header lines, its lines, and a blank line. */
  function FileDiffBlock(includeUnchanged: bool, d: DiffInfo): string {
    Line("diff --git a" + d.filePath + " b" + d.filePath)
    + Line("--- a" + d.filePath)
    + Line("+++ b" + d.filePath)
    + DiffLines(includeUnchanged, d.lines)
    + "\n"
  }

  function FileDiffBlocks(includeUnchanged: bool, diffs: seq<DiffInfo>): string
    decreases |diffs|
  {
    if diffs == [] then ""
    else FileDiffBlocks(includeUnchanged, diffs[..|diffs| - 1]) + FileDiffBlock(includeUnchanged, diffs[|diffs| - 1])
  }

  /** The diff section: a fenced "diff" block of every file, absent when there is no diff. */
  function DiffSection(includeUnchanged: bool, diffs: seq<DiffInfo>): (r: string)
    ensures diffs == [] <==> r == ""
  {
    if |diffs| > 0 then
      Line("## Diff") + "\n" + Line("```diff")
      + FileDiffBlocks(includeUnchanged, diffs)
      + Line("```") + "\n"
    else ""
  }

  function PromptBlock(prompt: string): string {
    Line("## Review Prompt") + "\n" + Line(prompt)
  }

  // ---------------------------------------------------------------------------
  // The document

  /** The formatter refuses a context without details, output directory, output file name or prompt. */
  predicate CanFormat(st: ContextState) {
    && st.pullRequestDetails.Some?
    && !IsNullOrEmpty(st.outputDirectory)
    && !IsNullOrEmpty(st.outputFileName)
    && !IsNullOrEmpty(st.reviewPrompt)
  }

  /** The whole document: title block, issue blocks, diff section, review prompt. */
  function Document(includeUnchanged: bool, details: PullRequestDetails, issues: seq<JiraIssue>,
                    diffs: seq<DiffInfo>, prompt: string): string
  {
    TitleBlock(details) + ConcatMap(issues, IssueBlock) + DiffSection(includeUnchanged, diffs) + PromptBlock(prompt)
  }

  /** The document of a context that can be formatted. */
  function DocumentOf(includeUnchanged: bool, st: ContextState): string
    requires CanFormat(st)
  {
    Document(includeUnchanged, st.pullRequestDetails.value, st.jiraIssues, st.diffs, st.reviewPrompt.value)
  }

  /**
   * Adding issues to a context inserts their blocks, in order, right after
   * those of the earlier issues; the rest of the document stays as it was.
   */
  lemma IssuesRenderInOrder(includeUnchanged: bool, st: ContextState, added: seq<JiraIssue>)
    requires CanFormat(st)
    ensures var doc := DocumentOf(includeUnchanged, st);
            var n := |TitleBlock(st.pullRequestDetails.value) + ConcatMap(st.jiraIssues, IssueBlock)|;
            && n <= |doc|
            && DocumentOf(includeUnchanged, st.(jiraIssues := st.jiraIssues + added))
               == doc[..n] + ConcatMap(added, IssueBlock) + doc[n..]
  {
    ConcatMapAppend(st.jiraIssues, added, IssueBlock);
    InsertAfter(TitleBlock(st.pullRequestDetails.value), ConcatMap(st.jiraIssues, IssueBlock), ConcatMap(added, IssueBlock),
                DiffSection(includeUnchanged, st.diffs), PromptBlock(st.reviewPrompt.value));
  }

  /** Text `x` inserted where `b` ends in the text `a + b + c + d`. */
  lemma InsertAfter(a: string, b: string, x: string, c: string, d: string)
    ensures var doc := a + b + c + d;
            && |a + b| <= |doc|
            && a + (b + x) + c + d == doc[..|a + b|] + x + doc[|a + b|..]
  {
    var doc := a + b + c + d;
    assert doc[..|a + b|] == a + b;
    assert doc[|a + b|..] == c + d;
  }

  /** An unchanged line as written when unchanged lines are shown: a space, then its text. */
  function ContextLine(p: DiffPiece): string {
    Line(" " + p.text)
  }

  /**
   * A diff of unchanged lines only renders to nothing, unless unchanged lines
   * are configured in; then every line is written after a space.
   */
  lemma {:induction false} DiffWithoutChangesIsEmptyUnlessConfigured(lines: seq<DiffPiece>)
    requires forall j :: 0 <= j < |lines| ==> lines[j].kind == Unchanged
    ensures DiffLines(false, lines) == ""
    ensures DiffLines(true, lines) == ConcatMap(lines, ContextLine)
    decreases |lines|
  {
    if lines != [] {
      DiffWithoutChangesIsEmptyUnlessConfigured(lines[..|lines| - 1]);
    }
  }

  // ---------------------------------------------------------------------------
  // The formatter

  class MarkdownOutputFormatter {
    const config: CodeReviewConfig

    constructor (config: CodeReviewConfig)
      ensures this.config == config
    {
      this.config := config;
    }

    /** The attachment loop of one issue. */
    static method RenderAttachments(atts: seq<JiraAttachment>) returns (text: string)
      ensures text == ConcatMap(atts, AttachmentLine)
    {
      text := "";
      var i := 0;
      while i < |atts|
        invariant 0 <= i <= |atts|
        invariant text == ConcatMap(atts[..i], AttachmentLine)
      {
        var att := atts[i];
        assert atts[..i + 1][..i] == atts[..i];
        var ext := Lower(GetExtension(att.fileName));
        if ext == ".png" || ext == ".jpg" || ext == ".jpeg" || ext == ".gif" || ext == ".bmp" {
          text := text + Line("![" + att.fileName + "](" + att.fileName + ")");
        } else {
          text := text + Line("[Attachment: " + att.fileName + "](" + att.fileName + ")");
        }
        i := i + 1;
      }
      assert atts[..i] == atts;
    }

    /** The comment loop of one issue. */
    static method RenderComments(comments: seq<JiraComment>) returns (text: string)
      ensures text == ConcatMap(comments, CommentLine)
    {
      text := "";
      var i := 0;
      while i < |comments|
        invariant 0 <= i <= |comments|
        invariant text == ConcatMap(comments[..i], CommentLine)
      {
        assert comments[..i + 1][..i] == comments[..i];
        text := text + Line("- **" + comments[i].author + "**: " + comments[i].body);
        i := i + 1;
      }
      assert comments[..i] == comments;
    }

    /** The body of the issue loop: the block of one issue. */
    static method RenderIssue(issue: JiraIssue) returns (text: string)
      ensures text == IssueBlock(issue)
    {
      text := IssueHeading(issue);
      var desc := "";
      if !IsBlank(issue.description) {
        var markdownDesc := Replace(Replace(issue.description, "{code}", "```"), "{noformat}", "```");
        desc := Line(markdownDesc) + "\n";
      }
      text := text + desc;
      var attachments := "";
      if |issue.attachments| > 0 {
        var lines := RenderAttachments(issue.attachments);
        attachments := Line("### Attachments") + lines + "\n";
      }
      text := text + attachments;
      var comments := "";
      if |issue.comments| > 0 {
        var lines := RenderComments(issue.comments);
        comments := Line("### Comments") + lines + "\n";
      }
      text := text + comments;
    }

    /** The line loop of one file's diff. */
    method RenderDiffLines(lines: seq<DiffPiece>) returns (text: string)
      ensures text == DiffLines(config.includeUnchangedLinesInDiff, lines)
    {
      text := "";
      var i := 0;
      while i < |lines|
        invariant 0 <= i <= |lines|
        invariant text == DiffLines(config.includeUnchangedLinesInDiff, lines[..i])
      {
        var line := lines[i];
        assert lines[..i + 1][..i] == lines[..i];
        match line.kind {
          case Inserted =>
            text := text + Line("+" + line.text);
          case Deleted =>
            text := text + Line("-" + line.text);
          case Unchanged =>
            if config.includeUnchangedLinesInDiff {
              text := text + Line(" " + line.text);
            }
          case Imaginary =>
          case Modified =>
        }
        i := i + 1;
      }
      assert lines[..i] == lines;
    }

    /** The diff loop: the block of every file. */
    method RenderDiffs(diffs: seq<DiffInfo>) returns (text: string)
      ensures text == FileDiffBlocks(config.includeUnchangedLinesInDiff, diffs)
    {
      text := "";
      var i := 0;
      while i < |diffs|
        invariant 0 <= i <= |diffs|
        invariant text == FileDiffBlocks(config.includeUnchangedLinesInDiff, diffs[..i])
      {
        var diffInfo := diffs[i];
        assert diffs[..i + 1][..i] == diffs[..i];
        var lines := RenderDiffLines(diffInfo.lines);
        var block := Line("diff --git a" + diffInfo.filePath + " b" + diffInfo.filePath)
                     + Line("--- a" + diffInfo.filePath)
                     + Line("+++ b" + diffInfo.filePath)
                     + lines
                     + "\n";
        text := text + block;
        i := i + 1;
      }
      assert diffs[..i] == diffs;
    }

    /** The body of `FormatAsync` once its arguments are checked: the `StringBuilder` pass over the context. */
    method Render(details: PullRequestDetails, issues: seq<JiraIssue>, diffs: seq<DiffInfo>, prompt: string)
      returns (sb: string)
      ensures sb == Document(config.includeUnchangedLinesInDiff, details, issues, diffs, prompt)
    {
      sb := Line("# " + details.title) + "\n";
      var description := "";
      if !IsBlank(details.description) {
        description := Line(details.description) + "\n";
      }
      sb := sb + description;

      var issueText := "";
      var i := 0;
      while i < |issues|
        invariant 0 <= i <= |issues|
        invariant issueText == ConcatMap(issues[..i], IssueBlock)
      {
        assert issues[..i + 1][..i] == issues[..i];
        var block := RenderIssue(issues[i]);
        issueText := issueText + block;
        i := i + 1;
      }
      assert issues[..i] == issues;
      sb := sb + issueText;

      var diffText := "";
      if |diffs| > 0 {
        var blocks := RenderDiffs(diffs);
        diffText := Line("## Diff") + "\n" + Line("```diff") + blocks + Line("```") + "\n";
      }
      sb := sb + diffText;

      sb := sb + (Line("## Review Prompt") + "\n" + Line(prompt));
    }

    /**
     * `FormatAsync`: a context without details, output directory, output
     * file name or prompt is refused (`ok` is false) and left as it was;
     * otherwise the generated document is stored and nothing else changes.
     */
    method FormatAsync(context: CodeReviewContext) returns (ok: bool)
      modifies context
      ensures ok <==> CanFormat(old(context.State()))
      ensures !ok ==> context.State() == old(context.State())
      ensures ok ==> context.State() == old(context.State()).(
                generatedMarkdown := Some(DocumentOf(config.includeUnchangedLinesInDiff, old(context.State()))))
    {
      if context.pullRequestDetails.None? || IsNullOrEmpty(context.outputDirectory)
         || IsNullOrEmpty(context.outputFileName) || IsNullOrEmpty(context.reviewPrompt)
      {
        return false;
      }
      var markdown := Render(context.pullRequestDetails.value, context.jiraIssues, context.diffs,
                             context.reviewPrompt.value);
      context.generatedMarkdown := Some(markdown);
      ok := true;
    }
  }
}
