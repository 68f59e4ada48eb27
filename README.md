# CodeReviewAI, modelled in Dafny

CodeReviewAI gathers what a reviewer needs for one Azure DevOps pull request into a single
Markdown document:
- the pull request's title and description;
- the Jira issues the description mentions, with their attachments and comments;
- a line diff of every changed file;
- a fixed review prompt.

The repository holds two generations of this pipeline, and both are modelled.

- **Current generation** (`CodeReviewAi.Core`):
  - A `CodeReviewBuilder` fills a `CodeReviewContext` step by step: pull request details, diffs, Jira issues.
  - `AzureDevOpsService` reads the pull request and its changed files and computes one diff per file.
  - `JiraService` finds the issue keys in the description, fetches each issue, downloads its attachments into the pull request's folder, and keeps its non-empty comments.
  - `MarkdownOutputFormatter` renders the context into the document, which the builder then writes to `<output>/PR-<id>/PR-<id>-review.md`.
- **First generation** (`CodeReviewAI`):
  - A `CodeReviewBuilder` runs a list of modules over a context of title, description and text sections, then writes `PR-<n>/review.md`.
  - The `AzureDevOpsModule` sets the title and description and adds a diff section and the review prompt.
  - The `JiraModule` follows the first Jira browse link in the description, adds a section for that issue, and saves the issue's attachments.

## How the effects are modelled

**HTTP responses.** The servers are records of functions from a request to a `Response(status, body)`. Success means a status of 200 to 299. The JSON bodies are records whose absent or null properties are `None`.

**Diff library.** The line-diff library is a function parameter, `differ`.

**File effects.** Creating folders and writing files are recorded as a sequence of `FsOp` values, in the order they happen:
- the service methods return this sequence;
- the two builders keep it in a `fsLog` field.

**Mutable objects.** Each is a Dafny class whose methods state the whole new state:
- the current context (`Models.CodeReviewContext`);
- the first-generation context (`LegacyModel.LegacyContext`);
- both builders.

**Loops.** Every loop of the source is a method with a loop. Each is proved equal to a function that specifies it, and the properties are proved about those functions.

**Exceptions.** A first-generation module that throws is modelled as a step that returns `ok == false`. Such a step leaves the context as the failure point left it. The run then stops and writes nothing.

## Model

| member | source | states |
|---|---|---|
| AzureDevOps.CleanRef | CodeReviewAi.Core/Services/AzureDevOpsService.cs:74-79 | Strips one leading "refs/heads/": the input is the prefix followed by the result. Without the prefix, the input is returned unchanged. |
| AzureDevOps.CleanRefStripsOnce | CodeReviewAi.Core/Services/AzureDevOpsService.cs:74-79 | Cleaning "refs/heads/" + b gives back b, even when b itself starts with the prefix. |
| AzureDevOps.FileChangesMembership | CodeReviewAi.Core/Services/AzureDevOpsService.cs:109-128 | A change is listed if and only if it comes from an entry whose item is a blob with a non-empty path and a non-empty change type. |
| AzureDevOps.FileChangesAreNonEmpty | CodeReviewAi.Core/Services/AzureDevOpsService.cs:109-128 | Every listed change has a non-empty path and a non-empty change type. |
| AzureDevOps.FileChangesAppend | CodeReviewAi.Core/Services/AzureDevOpsService.cs:100-136 | The filter works entry by entry: filtering a concatenation gives the concatenation of the filtered parts, in order. |
| AzureDevOps.FileChangesOfAllFiles | CodeReviewAi.Core/Services/AzureDevOpsService.cs:109-128 | When every entry is a file change, all are kept, in order. |
| AzureDevOps.ParseChanges | CodeReviewAi.Core/Services/AzureDevOpsService.cs:100-136 | A missing `changes` array gives no change. Otherwise the result is the filtered list of the entries. |
| AzureDevOps.GetPullRequestDetails | CodeReviewAi.Core/Services/AzureDevOpsService.cs:45-150 | A failed pull request request gives no details. So does a failed commit-diff request, which asks for the cleaned target as base and the cleaned source as target. Otherwise the details carry the pull request's fields, the description defaulting to "", the diff's base commit and the filtered changes. |
| AzureDevOps.ItemContent | CodeReviewAi.Core/Services/AzureDevOpsService.cs:202-234 | A successful response gives its body. A 404, or any other failure, gives "". |
| AzureDevOps.RequestsFor | CodeReviewAi.Core/Services/AzureDevOpsService.cs:172-190 | An "add" fetches only the source commit. A "delete" fetches only the base commit. Any other change fetches base then source. |
| AzureDevOps.DiffFor | CodeReviewAi.Core/Services/AzureDevOpsService.cs:192-196 | The diff of a change carries the change's path. |
| AzureDevOps.GetDiffs | CodeReviewAi.Core/Services/AzureDevOpsService.cs:152-200 | There is exactly one diff per change, in change order, each the diff of that change. The content requests are made in the order the rules above give. |
| AzureDevOps.FailedFetchesDiffEmptyTexts | CodeReviewAi.Core/Services/AzureDevOpsService.cs:224-233 | When both content fetches fail, the file is diffed as "" against "". |
| JiraKeys.HostStart | CodeReviewAi.Core/Services/JiraService.cs:19 | The scheme of the key pattern is "http://" or "https://", compared ignoring case. The host starts right after it. |
| JiraKeys.HostRunEnd | CodeReviewAi.Core/Services/JiraService.cs:19 | The host is the longest run of characters other than whitespace and "/" after the scheme. |
| JiraKeys.KeyEnd | CodeReviewAi.Core/Services/JiraService.cs:19 | A found key is letters, a dash, then digits, and it takes every digit that follows. |
| JiraKeys.KeyEndFindsEveryKey | CodeReviewAi.Core/Services/JiraService.cs:19 | Wherever a well-formed key starts, the key is found. It ends exactly where the digits run out. |
| JiraKeys.MatchAt | CodeReviewAi.Core/Services/JiraService.cs:19 | A match at i is a key URL at i. The URL is a scheme, host characters ending in ".atlassian.net", "/browse/" ignoring case, then a key whose digits run to the end of the text or to a non-digit. |
| JiraKeys.CandidateIsKeyUrl | CodeReviewAi.Core/Services/JiraService.cs:19 | Every key URL at i is the candidate the host-then-key scan finds there. |
| JiraKeys.KeyUrlIsMatchAt | CodeReviewAi.Core/Services/JiraService.cs:19 | Every key URL at i is the match at i. |
| JiraKeys.MatchAtIffKeyUrl | CodeReviewAi.Core/Services/JiraService.cs:19 | The match at i is exactly the key URL at i, in both directions. There is no match at i exactly when no key URL starts there. |
| JiraKeys.MatchTable | CodeReviewAi.Core/Services/JiraService.cs:19 | The table holds, for every position, the match that starts there. |
| JiraKeys.MatchesFrom | CodeReviewAi.Core/Services/JiraService.cs:55-56 | Every reported match is the pattern's match at its own start, at or after the scan position. |
| JiraKeys.MatchesAreOrdered | CodeReviewAi.Core/Services/JiraService.cs:55-56 | The matches come in text order and do not overlap. |
| JiraKeys.MatchesAreComplete | CodeReviewAi.Core/Services/JiraService.cs:55-56 | Every position where the pattern matches is covered by some reported match. |
| JiraKeys.MatchedKeys | CodeReviewAi.Core/Services/JiraService.cs:55-57 | Every key taken from the matches is a well-formed issue key. |
| JiraKeys.DistinctKeepsFirsts | CodeReviewAi.Core/Services/JiraService.cs:58 | Case-insensitive de-duplication keeps exactly the first key of each kind, in order. |
| JiraKeys.DistinctCoversAll | CodeReviewAi.Core/Services/JiraService.cs:58 | No key is lost: the upper-cased keys before and after de-duplication are the same set. |
| JiraKeys.DistinctHasNoRepeats | CodeReviewAi.Core/Services/JiraService.cs:58 | After de-duplication, no two keys are equal ignoring case, and every kept key was in the input. |
| JiraKeys.IssueKeysAreDistinctKeys | CodeReviewAi.Core/Services/JiraService.cs:55-58 | The keys looked up are well-formed keys found in the text, pairwise distinct ignoring case. |
| JiraService.KeptCommentsMembership | CodeReviewAi.Core/Services/JiraService.cs:194-197 | A comment is kept if and only if its entry has a non-empty author and a non-empty body. |
| JiraService.KeptCommentsAreNonEmpty | CodeReviewAi.Core/Services/JiraService.cs:194-197 | Every kept comment has a non-empty author and body. |
| JiraService.KeptCommentsAppend | CodeReviewAi.Core/Services/JiraService.cs:179-201 | Comments are filtered one by one, keeping their order. |
| JiraService.ProcessComments | CodeReviewAi.Core/Services/JiraService.cs:179-201 | A missing comment list gives no comment. Otherwise the result is the kept comments, in order. |
| JiraService.DownloadOf | CodeReviewAi.Core/Services/JiraService.cs:137-167 | An entry gives one attachment exactly when it has a file name and a URL and its download succeeds. The attachment's name and URL are then non-empty. |
| JiraService.DownloadedMembership | CodeReviewAi.Core/Services/JiraService.cs:137-167 | An attachment is kept if and only if it is the successful download of some entry with a file name and a URL. |
| JiraService.FailedDownloadsKeepNothing | CodeReviewAi.Core/Services/JiraService.cs:148-167 | When every download fails, no attachment is kept. |
| JiraService.WritesOf | CodeReviewAi.Core/Services/JiraService.cs:157 | There is one write per kept attachment, in order: its bytes go to the folder joined with its file name. |
| JiraService.ProcessAttachments | CodeReviewAi.Core/Services/JiraService.cs:120-177 | With no attachment list, nothing is kept or written. Otherwise the folder is created first, then the kept attachments are saved in order. |
| JiraService.IssueFor | CodeReviewAi.Core/Services/JiraService.cs:76-118 | An issue exists exactly when its request succeeds. It then carries the key and the browse URL built from the server's base URL. |
| JiraService.OpsFor | CodeReviewAi.Core/Services/JiraService.cs:85-92 | A failed issue request touches no file. |
| JiraService.GetIssueDetails | CodeReviewAi.Core/Services/JiraService.cs:76-118 | Returns the issue and the file effects that specify one issue lookup. |
| JiraService.IssueForDefaults | CodeReviewAi.Core/Services/JiraService.cs:99-117 | A missing summary becomes "N/A" and a missing description becomes "". Present values are kept. Every comment has an author and a body. |
| JiraService.IssuesForMembership | CodeReviewAi.Core/Services/JiraService.cs:60-73 | An issue is in the result if and only if it is the issue found for one of the keys. |
| JiraService.IssuesForAreDistinct | CodeReviewAi.Core/Services/JiraService.cs:55-73 | Keys distinct ignoring case give issues whose keys are distinct ignoring case. |
| JiraService.FailedKeysContributeNothing | CodeReviewAi.Core/Services/JiraService.cs:85-92 | When every issue request fails, there is no issue and no file effect. |
| JiraService.GetIssues | CodeReviewAi.Core/Services/JiraService.cs:60-73 | The loop over the keys returns the issues found, in key order, and the file effects of each lookup, in order. |
| JiraService.GetIssuesFromText | CodeReviewAi.Core/Services/JiraService.cs:49-74 | Looks up the de-duplicated keys of the text. The issues it returns never repeat a key, ignoring case. |
| MarkdownFormatter.PrDescriptionBlock | CodeReviewAi.Core/Services/MarkdownOutputFormatter.cs:30-34 | The description is left out exactly when it is blank. |
| MarkdownFormatter.WikiToMarkdown | CodeReviewAi.Core/Services/MarkdownOutputFormatter.cs:46-48 | A description without "{code}" or "{noformat}" is unchanged. |
| MarkdownFormatter.WikiMarkersAreGone | CodeReviewAi.Core/Services/MarkdownOutputFormatter.cs:46-48 | After the conversion, neither "{code}" nor "{noformat}" occurs. |
| MarkdownFormatter.AttachmentsBlock | CodeReviewAi.Core/Services/MarkdownOutputFormatter.cs:54-71 | The attachment list is absent exactly when the issue has no attachment. |
| MarkdownFormatter.CommentsBlock | CodeReviewAi.Core/Services/MarkdownOutputFormatter.cs:74-82 | The comment list is absent exactly when the issue has no comment. |
| MarkdownFormatter.IssueBlock | CodeReviewAi.Core/Services/MarkdownOutputFormatter.cs:39-83 | An issue's block opens with its linked key heading and its bold summary. |
| MarkdownFormatter.DescriptionBlock | CodeReviewAi.Core/Services/MarkdownOutputFormatter.cs:43-51 | An issue's description is left out exactly when it is blank. |
| MarkdownFormatter.IssuesRenderInOrder | CodeReviewAi.Core/Services/MarkdownOutputFormatter.cs:37-83 | Adding issues to a context inserts their blocks, in order, right after the earlier issues' blocks. The rest of the document, from the diff section on, is unchanged. |
| MarkdownFormatter.DiffLine | CodeReviewAi.Core/Services/MarkdownOutputFormatter.cs:96-117 | A line is written unless it is imaginary, modified, or unchanged while unchanged lines are off. Every written line ends with a newline. |
| MarkdownFormatter.WithoutUnchanged | CodeReviewAi.Core/Services/MarkdownOutputFormatter.cs:106-111 | A line is kept if and only if it is a line of the input that is not unchanged. |
| MarkdownFormatter.UnchangedLinesAreLeftOut | CodeReviewAi.Core/Services/MarkdownOutputFormatter.cs:106-111 | With unchanged lines off, the rendering equals the full rendering of the lines without the unchanged ones. |
| MarkdownFormatter.DiffSection | CodeReviewAi.Core/Services/MarkdownOutputFormatter.cs:86-122 | The diff section is absent exactly when there is no diff. |
| MarkdownFormatter.DiffWithoutChangesIsEmptyUnlessConfigured | CodeReviewAi.Core/Services/MarkdownOutputFormatter.cs:106-111 | A diff of unchanged lines only renders to nothing, unless the option is on. With the option on, every line is written after a space, in order. |
| MarkdownFormatter.MarkdownOutputFormatter.constructor | CodeReviewAi.Core/Services/MarkdownOutputFormatter.cs:10-13 | The formatter keeps its configuration. |
| MarkdownFormatter.MarkdownOutputFormatter.RenderAttachments | CodeReviewAi.Core/Services/MarkdownOutputFormatter.cs:57-69 | The attachment loop writes each attachment's line, in order. |
| MarkdownFormatter.MarkdownOutputFormatter.RenderComments | CodeReviewAi.Core/Services/MarkdownOutputFormatter.cs:77-80 | The comment loop writes each comment's line, in order. |
| MarkdownFormatter.MarkdownOutputFormatter.RenderIssue | CodeReviewAi.Core/Services/MarkdownOutputFormatter.cs:39-82 | One iteration of the issue loop writes the issue's block. |
| MarkdownFormatter.MarkdownOutputFormatter.RenderDiffLines | CodeReviewAi.Core/Services/MarkdownOutputFormatter.cs:96-117 | The line loop writes the configured rendering of each line, in order. |
| MarkdownFormatter.MarkdownOutputFormatter.RenderDiffs | CodeReviewAi.Core/Services/MarkdownOutputFormatter.cs:91-119 | The file loop writes each file's three header lines, its lines and a blank line, in order. |
| MarkdownFormatter.MarkdownOutputFormatter.Render | CodeReviewAi.Core/Services/MarkdownOutputFormatter.cs:25-127 | The builder text is the document: title block, issue blocks, diff section, review prompt. |
| MarkdownFormatter.MarkdownOutputFormatter.FormatAsync | CodeReviewAi.Core/Services/MarkdownOutputFormatter.cs:15-133 | Fails and changes nothing without details, output directory, output file name or prompt. Otherwise it stores the document and changes nothing else. |
| ReviewBuilder.ReviewFileName | CodeReviewAi.Core/CodeReviewBuilder.cs:58 | The file name is "PR-" + id + "-review.md". |
| ReviewBuilder.ReviewFileNamesAreDistinct | CodeReviewAi.Core/CodeReviewBuilder.cs:58 | Different pull requests get different file names. |
| ReviewBuilder.PrFolderIsUnderOutputDirectory | CodeReviewAi.Core/CodeReviewBuilder.cs:94-97 | The issue folder is "PR-" + id directly under the output directory. |
| ReviewBuilder.CodeReviewBuilder.constructor | CodeReviewAi.Core/CodeReviewBuilder.cs:17-30 | Starts a fresh context whose prompt and output directory come from the options. No file has been touched. |
| ReviewBuilder.CodeReviewBuilder.SetPullRequestId | CodeReviewAi.Core/CodeReviewBuilder.cs:32-36 | Sets the id and changes nothing else. |
| ReviewBuilder.CodeReviewBuilder.AddAzureDevOpsDetails | CodeReviewAi.Core/CodeReviewBuilder.cs:38-61 | An id ≤ 0 changes nothing. Otherwise the details are stored, and when they exist the file name is set. |
| ReviewBuilder.CodeReviewBuilder.AddDiffs | CodeReviewAi.Core/CodeReviewBuilder.cs:63-78 | Without details nothing changes. Otherwise the diffs of every change are appended. |
| ReviewBuilder.CodeReviewBuilder.AddJiraDetails | CodeReviewAi.Core/CodeReviewBuilder.cs:80-106 | Without details or an output directory nothing changes. Otherwise the issues of the description's keys are appended, and their attachments are saved under the pull request's folder. |
| ReviewBuilder.CodeReviewBuilder.FormatOutput | CodeReviewAi.Core/CodeReviewBuilder.cs:108-114 | The formatter's effect on the context, as specified for FormatAsync. |
| ReviewBuilder.CodeReviewBuilder.BuildAsync | CodeReviewAi.Core/CodeReviewBuilder.cs:116-150 | The document is written exactly when writing is asked for and the directory, file name and document are all present. A warning is given exactly when writing is asked for but something is missing. |
| Models.ConfigWithDefaults | CodeReviewAi.Core/Configuration/CodeReviewConfig.cs:7-9 | By default the output directory is "CodeReviews" and unchanged lines are off. |
| Models.CodeReviewContext.constructor | CodeReviewAi.Core/Models/CodeReviewContext.cs:3-14 | A new context has id 0, no details, no diff, no issue, and no prompt, directory, file name or document. |
| Text.GetExtension | CodeReviewAi.Core/Services/MarkdownOutputFormatter.cs:59 | The extension is "" or a dot followed by a suffix of the name that contains no dot and no separator. |
| Text.ReplaceRemovesEveryOccurrence | CodeReviewAi.Core/Services/MarkdownOutputFormatter.cs:46-48 | Replacing a pattern by a text that shares no character with it leaves no occurrence. |
| Text.IndexOf | CodeReviewAI/JiraModule.cs:71 | The first position of the searched text, or -1 when it does not occur. |
| Text.LastSegment | CodeReviewAI/JiraModule.cs:36 | The part after the last '/', which ends the text and holds no '/'. |
| LegacyModel.FreshState | CodeReviewAI/CodeReviewBuilder.cs:39 | A fresh context has the pull request number, an empty title and description, and no section. |
| LegacyModel.LegacyContext.constructor | CodeReviewAI/CodeReviewBuilder.cs:64-70 | A new context is the fresh state. |
| LegacyAzureDevOps.CommitsFor | CodeReviewAI/AzureDevOpsModule.cs:78-104 | Commits exist exactly when the branch diff request succeeds and both commits are non-empty. The request asks for the target branch as base and the source branch as target. |
| LegacyAzureDevOps.FileText | CodeReviewAI/AzureDevOpsModule.cs:140-145 | A failed content fetch reads as "". |
| LegacyAzureDevOps.ChangeDiff | CodeReviewAI/AzureDevOpsModule.cs:131-132 | A change that is not a blob adds nothing. |
| LegacyAzureDevOps.DiffText | CodeReviewAI/AzureDevOpsModule.cs:113-119 | A failed commit-diff request gives an empty diff. |
| LegacyAzureDevOps.NonBlobChangesAddNothing | CodeReviewAI/AzureDevOpsModule.cs:131-132 | Changes none of which is a blob render to nothing. |
| LegacyAzureDevOps.DiffLineAsCurrentWithUnchanged | CodeReviewAI/AzureDevOpsModule.cs:156-169 | A line renders as the current formatter renders it with unchanged lines on. |
| LegacyAzureDevOps.DiffLinesAsCurrentWithUnchanged | CodeReviewAI/AzureDevOpsModule.cs:156-169 | A whole line list renders as the current formatter renders it with unchanged lines on. |
| LegacyAzureDevOps.FileDiffAsCurrentWithUnchanged | CodeReviewAI/AzureDevOpsModule.cs:150-169 | A file renders as the current formatter's file block with unchanged lines on, less the final blank line. |
| LegacyAzureDevOps.StepShape | CodeReviewAI/AzureDevOpsModule.cs:31-104 | A run completes exactly when the pull request is read and both commits of its cleaned branches are found. Once the pull request is read, the title and description are set, even if the commit lookup then fails. A completed run appends exactly the fenced diff of those two commits, then the prompt. A failed run adds no section. The module writes no file. |
| LegacyAzureDevOps.RenderLines | CodeReviewAI/AzureDevOpsModule.cs:156-169 | The line loop writes each line's rendering, in order. |
| LegacyAzureDevOps.RenderChange | CodeReviewAI/AzureDevOpsModule.cs:129-170 | One iteration of the change loop writes that change's diff. |
| LegacyAzureDevOps.GenerateDiff | CodeReviewAI/AzureDevOpsModule.cs:106-174 | The returned text is the diff of every change, in order. |
| LegacyAzureDevOps.ProcessAsync | CodeReviewAI/AzureDevOpsModule.cs:31-44 | The new context and the outcome are those of one module step. |
| LegacyJira.LegacyKeyIsIssueKey | CodeReviewAI/JiraModule.cs:29-32 | A key of the first-generation pattern is also a key of the current one, and holds no '/'. |
| LegacyJira.SchemeEnd | CodeReviewAI/JiraModule.cs:29-32 | The scheme is "https://" or "http://", compared ordinally, with the 's' taken when present. |
| LegacyJira.KeyEndIsKey | CodeReviewAI/JiraModule.cs:29-32 | A found key is upper-case letters, a dash, then digits, and is not followed by a digit. |
| LegacyJira.KeyEndFindsEveryKey | CodeReviewAI/JiraModule.cs:29-32 | Wherever a key starts, the key found there is at least as long. |
| LegacyJira.LastKeyAfter | CodeReviewAI/JiraModule.cs:29-32 | Finds the last "/browse/" in range followed by a key, or reports that there is none. |
| LegacyJira.UrlAtIsMatch | CodeReviewAI/JiraModule.cs:29-32 | What the matcher returns at a position is a match of the pattern. Its key takes every following digit, as `\d+` does. |
| LegacyJira.UrlAtIsCompleteAndGreedy | CodeReviewAI/JiraModule.cs:29-32 | Wherever a match starts, the matcher finds one. Its "/browse/" is the last possible one, as the greedy `[^\s]+` gives characters back, and its key takes every following digit. |
| LegacyJira.JiraUrl | CodeReviewAI/JiraModule.cs:29-32 | The result is a match with no match starting earlier, and its key ends where the digits run out. No result means no match anywhere. |
| LegacyJira.JiraUrlIsLeftmost | CodeReviewAI/JiraModule.cs:29-32 | If any match exists, one is found, starting no later than it. At the same start its "/browse/" is no earlier. Its key ends where the digits run out. |
| LegacyJira.UrlParts | CodeReviewAI/JiraModule.cs:36 | The last '/' segment of the matched URL is exactly its key, and the URL contains "/browse/". |
| LegacyJira.ApiUrl | CodeReviewAI/JiraModule.cs:71-72 | The API address is the URL up to its first "/browse/", then "/rest/api/2/issue/" and the key. |
| LegacyJira.AttachmentPart | CodeReviewAI/JiraModule.cs:46-54 | The attachment part is absent exactly when there is no attachment. |
| LegacyJira.CommentPart | CodeReviewAI/JiraModule.cs:56-64 | The comment part is absent exactly when there is no comment. |
| LegacyJira.Section | CodeReviewAI/JiraModule.cs:40-66 | An issue's section opens with its heading. |
| LegacyJira.SectionNamesKey | CodeReviewAI/JiraModule.cs:40-43 | The section's heading names the issue's key. |
| LegacyJira.HeadingAsCurrent | CodeReviewAI/JiraModule.cs:40-43 | The heading equals the current formatter's issue heading. |
| LegacyJira.LegacyImageIsImage | CodeReviewAI/JiraModule.cs:121-129 | Every name the first generation shows as an image, the current formatter shows as one too. |
| LegacyJira.ImageIsLegacyImageOrBitmap | CodeReviewAI/JiraModule.cs:121-129 | A current image is either a first-generation image or a bitmap. |
| LegacyJira.BitmapIsOnlyCurrentImage | CodeReviewAI/JiraModule.cs:121-129 | A ".bmp" is an image for the current formatter but a plain attachment for the first generation. |
| LegacyJira.AttachmentLineAsCurrent | CodeReviewAI/JiraModule.cs:121-129 | For every name but a bitmap, both generations write the same attachment line. |
| LegacyJira.DownloadOps | CodeReviewAI/JiraModule.cs:111-119 | There are never more writes than attachments. |
| LegacyJira.DownloadOpsMembership | CodeReviewAI/JiraModule.cs:111-119 | A file is written if and only if it is the save of an attachment whose download succeeded. |
| LegacyJira.Link | CodeReviewAI/JiraModule.cs:29-36 | A link exists exactly when the description holds a match, and its URL contains "/browse/". |
| LegacyJira.LinkIsLeftmostMatch | CodeReviewAI/JiraModule.cs:29-36 | The link's URL is the leftmost match's text, and its key is the key after that match's "/browse/", taking every digit that follows. |
| LegacyJira.StepShape | CodeReviewAI/JiraModule.cs:27-119 | The title and description are never changed. Without a link, nothing changes. Otherwise the run completes exactly when the request to the API URL built from the link succeeds. It then appends the issue's section, headed by the link's key, and writes exactly the downloaded attachments under PR-n. A failed request adds nothing and writes nothing. |
| LegacyJira.StepWithShape | CodeReviewAI/JiraModule.cs:34-66 | The same facts, for a link already found. |
| LegacyJira.SaveAttachments | CodeReviewAI/JiraModule.cs:46-54 | The attachment loop writes each attachment's line and saves each successful download, in order. |
| LegacyJira.RenderComments | CodeReviewAI/JiraModule.cs:56-64 | The comment loop writes each comment's line, in order. |
| LegacyJira.RenderIssue | CodeReviewAI/JiraModule.cs:40-66 | Builds the issue's section and saves its attachments. |
| LegacyJira.ProcessAsync | CodeReviewAI/JiraModule.cs:27-67 | The new context, the outcome and the files written are those of one module step. |
| LegacyBuilder.RunStopsAtFailure | CodeReviewAI/CodeReviewBuilder.cs:41-44 | Once a module has failed, the modules after it change nothing. |
| LegacyBuilder.LegacyDocument | CodeReviewAI/CodeReviewBuilder.cs:46-55 | The document opens with the title as a heading. |
| LegacyBuilder.DocumentGrowsBySection | CodeReviewAI/CodeReviewBuilder.cs:51-55 | Adding a section adds its text at the end of the document. |
| LegacyBuilder.JiraFirstFindsNothing | CodeReviewAI/Program.cs:15-19 | Run first, on a fresh context, the issue module finds nothing and changes nothing. |
| LegacyBuilder.StandardRunSections | CodeReviewAI/Program.cs:15-19 | With source control then issues, a completed run found the pull request's commits. Its first section is the fenced diff of those commits, its second the prompt, and at most one issue section follows. The title and description are the pull request's. |
| LegacyBuilder.JiraStepAddsAtMostAnIssue | CodeReviewAI/JiraModule.cs:27-67 | The issue module keeps the title, the description and the earlier sections. It adds at most one section, which opens with an issue heading. |
| LegacyBuilder.CodeReviewBuilder.constructor | CodeReviewAI/CodeReviewBuilder.cs:7-15 | No module, pull request 0, and the working directory as the output path. |
| LegacyBuilder.CodeReviewBuilder.ForPullRequest | CodeReviewAI/CodeReviewBuilder.cs:17-23 | The output path becomes "PR-n/review.md" and is no longer the working directory. That folder is created now. |
| LegacyBuilder.CodeReviewBuilder.AddAzureDevOps | CodeReviewAI/CodeReviewBuilder.cs:25-29 | The source-control module is appended to the module list. |
| LegacyBuilder.CodeReviewBuilder.AddJira | CodeReviewAI/CodeReviewBuilder.cs:31-35 | The issue module is appended to the module list. |
| LegacyBuilder.CodeReviewBuilder.OutputMarkdownAsync | CodeReviewAI/CodeReviewBuilder.cs:37-56 | The modules run in order over a fresh context. The files they write come first. The document is written to the output path exactly when all complete and the output path is not the working directory. Otherwise the call fails. |
| LegacyBuilder.RunModule | CodeReviewAI/CodeReviewBuilder.cs:43 | One module's run is its step. |
| LegacyBuilder.RunModules | CodeReviewAI/CodeReviewBuilder.cs:41-44 | The module loop is the run of the whole list, stopping at the first failure. |
| LegacyBuilder.RenderDocument | CodeReviewAI/CodeReviewBuilder.cs:46-55 | The writer loop produces the document. |

## Left out

- Networking, authentication headers, URL escaping and JSON parsing are not modelled. Servers are functions from a request to a response, and bodies are records.
- JSON whose shape is wrong is not modelled. In the source, a missing property or a value of the wrong kind throws. For example, a first-generation diff without `changes`, or an attachment without a file name or URL.
- Exceptions are not modelled. A throwing first-generation module is a step that returns `ok == false`. In the current generation, argument checks that throw are a method that returns `false` and changes nothing.
- Network failures during a first-generation attachment download are not modelled. A failed status skips saving the file, as in the source; the attachment's line is still written.
- Concurrency, cancellation tokens, console and logger output, the command-line front ends and dependency injection are not modelled.
- Lower- and upper-casing are ASCII-only, and so are `\d` and `[A-Z]`.
- Culture-sensitive `IndexOf`, `StartsWith` and `EndsWith` are modelled as ordinal comparisons.
- `AppendLine` and `WriteLine` end a line with "\n", and `Path.Combine` joins with '/'.
- The line-diff library is a function parameter. Nothing is proved about the diffs it computes.
- `CodeReviewOptions` is not part of this model's sources. Only its prompt and output directory are modelled, because the builder reads only those.
- The first-generation output path defaults to the working directory. That directory is a constructor parameter. Opening it as a file fails, and the model records that failure instead of a write.
- LegacyBuilder.CodeReviewBuilder.OutputMarkdownAsync: without `ForPullRequest`, the first-generation Jira module saves attachments into "PR-0", and those saves are recorded as writes. In the source they fail unless that folder already exists, because the file system's existing folders are not modelled.
- The first-generation attachment and comment lists are lazy projections of the JSON arrays, read twice (`Any`, then `foreach`). The model reads each once as a list, which gives the same values because the projection has no side effect.
- Files are not written to disk. Creating folders and writing files are recorded, in order, as `FsOp` values. The current builder's records are a ghost field, so its writes are specified but not returned.
