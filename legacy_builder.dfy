/**
 * The builder of the first-generation pipeline. It collects modules in the
 * order they are added, runs them one after the other over a fresh context,
 * and writes the title, the description and every section to
 * `PR-<number>/review.md`. A module that fails ends the run before anything
 * is written (the original propagates the exception).
 */
module LegacyBuilder {
  import opened Text
  import opened Models
  import opened LegacyModel
  import LegacyAzureDevOps
  import LegacyJira

  datatype ModuleKind = AzureDevOpsModule | JiraModule

  /** What the modules talk to. */
  datatype Services = Services(
    azure: LegacyAzureDevOps.Server,
    differ: (string, string) -> seq<DiffPiece>,
    jira: LegacyJira.Server)

  function ModuleStep(services: Services, kind: ModuleKind, st: LegacyState): StepResult {
    match kind
    case AzureDevOpsModule => LegacyAzureDevOps.Step(services.azure, services.differ, st)
    case JiraModule => LegacyJira.Step(services.jira, st)
  }

  /** The modules run in order over `st`, stopping at the first that fails; the files written are joined in order. */
  function Run(services: Services, modules: seq<ModuleKind>, st: LegacyState): StepResult
    decreases |modules|
  {
    if modules == [] then StepResult(true, st, [])
    else
      var before := Run(services, modules[..|modules| - 1], st);
      if !before.ok then before
      else
        var last := ModuleStep(services, modules[|modules| - 1], before.state);
        StepResult(last.ok, last.state, before.ops + last.ops)
  }

  /** Once a module has failed, the modules after it change nothing. */
  lemma {:induction false} RunStopsAtFailure(services: Services, modules: seq<ModuleKind>, n: nat, st: LegacyState)
    requires n <= |modules| && !Run(services, modules[..n], st).ok
    ensures Run(services, modules, st) == Run(services, modules[..n], st)
    decreases |modules| - n
  {
    if n < |modules| {
      var longer := modules[..n + 1];
      assert longer[..|longer| - 1] == modules[..n];
      RunStopsAtFailure(services, modules, n + 1, st);
    } else {
      assert modules[..n] == modules;
    }
  }

  /** A section as written: after a blank line. */
  function SectionText(section: string): string {
    "\n" + section + "\n"
  }

  /** The review document: the title as a heading, a blank line, the description, then each section after a blank line. */
  function LegacyDocument(st: LegacyState): (doc: string)
    ensures StartsWith(doc, "# " + st.prTitle + "\n")
  {
    var head := "# " + st.prTitle + "\n";
    var doc := head + "\n" + st.prDescription + "\n" + ConcatMap(st.sections, SectionText);
    assert doc[..|head|] == head;
    doc
  }

  /** Adding a section adds its text at the end of the document. */
  lemma DocumentGrowsBySection(st: LegacyState, section: string)
    ensures LegacyDocument(st.(sections := st.sections + [section])) == LegacyDocument(st) + SectionText(section)
  {
    var sections := st.sections + [section];
    assert sections[..|sections| - 1] == st.sections;
  }

  /**
   * The issue module reads the description the source-control module sets:
   * run first, on a fresh context, it finds no issue and changes nothing.
   */
  lemma JiraFirstFindsNothing(services: Services, prNumber: int)
    ensures ModuleStep(services, JiraModule, FreshState(prNumber)) == StepResult(true, FreshState(prNumber), [])
  {
    var t := LegacyJira.UrlTable("");
    assert t[0] == LegacyJira.UrlAt("", 0);
  }

  /**
   * The pipeline as the program wires it, source control then issues: when
   * it completes, the pull request's commits were found, the diff of those
   * commits and the review prompt come first, at most one issue section
   * follows, and the title and description are the pull request's.
   */
  lemma StandardRunSections(services: Services, prNumber: int)
    ensures var r := Run(services, [AzureDevOpsModule, JiraModule], FreshState(prNumber));
            var pr := services.azure.pullRequest(prNumber).body;
            var commits := LegacyAzureDevOps.BranchCommits(services.azure, pr);
            r.ok ==> && commits.Some?
                     && 2 <= |r.state.sections| <= 3
                     && r.state.sections[0] == LegacyAzureDevOps.DiffSection(
                          LegacyAzureDevOps.DiffText(services.azure, services.differ, commits.value.0, commits.value.1))
                     && r.state.sections[1] == LegacyAzureDevOps.ReviewPrompt
                     && (|r.state.sections| == 3 ==> StartsWith(r.state.sections[2], "## JIRA: ["))
                     && r.state.prTitle == pr.title.GetOr("")
                     && r.state.prDescription == pr.description.GetOr("")
  {
    var modules := [AzureDevOpsModule, JiraModule];
    var st := FreshState(prNumber);
    var one := [AzureDevOpsModule];
    assert one[..0] == [];
    assert modules[..1] == one;
    var first := Run(services, one, st);
    LegacyAzureDevOps.StepShape(services.azure, services.differ, st);
    assert first == LegacyAzureDevOps.Step(services.azure, services.differ, st);
    if first.ok {
      JiraStepAddsAtMostAnIssue(services.jira, first.state);
    }
  }

  /** The issue module keeps the sections before it and adds at most one, an issue section. */
  lemma JiraStepAddsAtMostAnIssue(server: LegacyJira.Server, st: LegacyState)
    ensures var r := LegacyJira.Step(server, st);
            && r.state.prTitle == st.prTitle && r.state.prDescription == st.prDescription
            && |st.sections| <= |r.state.sections| <= |st.sections| + 1
            && r.state.sections[..|st.sections|] == st.sections
            && (|r.state.sections| > |st.sections| ==> StartsWith(r.state.sections[|st.sections|], "## JIRA: ["))
  {
    LegacyJira.StepShape(server, st);
    var r := LegacyJira.Step(server, st);
    var link := LegacyJira.Link(st.prDescription);
    if r.ok && link.Some? {
      var section := r.state.sections[|st.sections|];
      StartsWithShorter(section, "## JIRA: [" + link.value.key, "](");
      StartsWithShorter(section, "## JIRA: [", link.value.key);
    }
  }

  class CodeReviewBuilder {
    const services: Services
    const currentDirectory: string
    var modules: seq<ModuleKind>
    var outputPath: string
    var prNumber: int
    /**
     * Whether the output path is still the working directory. A `StreamWriter`
     * cannot open a directory, so writing the document then fails.
     */
    var outputIsWorkingDirectory: bool
    /** The file effects so far, in order. */
    ghost var fsLog: seq<FsOp>

    /** No module, no pull request, and the working directory as the output path. */
    constructor (services: Services, currentDirectory: string)
      ensures this.services == services && this.currentDirectory == currentDirectory
      ensures modules == [] && outputPath == currentDirectory && prNumber == 0 && fsLog == []
      ensures outputIsWorkingDirectory
    {
      this.services := services;
      this.currentDirectory := currentDirectory;
      modules := [];
      outputPath := currentDirectory;
      outputIsWorkingDirectory := true;
      prNumber := 0;
      fsLog := [];
    }

    /** `ForPullRequest`: the document goes to `PR-<n>/review.md`, and that folder is created now. */
    method ForPullRequest(n: int) returns (self: CodeReviewBuilder)
      modifies this
      ensures self == this
      ensures prNumber == n && outputPath == PathCombine(PrFolder(n), "review.md") && !outputIsWorkingDirectory
      ensures fsLog == old(fsLog) + [CreateDirectory(PrFolder(n))]
      ensures modules == old(modules)
    {
      prNumber := n;
      outputPath := PathCombine(PrFolder(n), "review.md");
      outputIsWorkingDirectory := false;
      fsLog := fsLog + [CreateDirectory(PrFolder(n))];
      self := this;
    }

    /** `AddAzureDevOps`: the source-control module runs after those already added. */
    method AddAzureDevOps() returns (self: CodeReviewBuilder)
      modifies this`modules
      ensures self == this && modules == old(modules) + [AzureDevOpsModule]
    {
      modules := modules + [AzureDevOpsModule];
      self := this;
    }

    /** `AddJira`: the issue module runs after those already added. */
    method AddJira() returns (self: CodeReviewBuilder)
      modifies this`modules
      ensures self == this && modules == old(modules) + [JiraModule]
    {
      modules := modules + [JiraModule];
      self := this;
    }

    /**
     * `OutputMarkdownAsync`: the modules run in order over a fresh context;
     * when all complete, the document is written to the output path. The
     * files the modules wrote come first, in order. Without `ForPullRequest`
     * the output path is the working directory, opening it fails, and no
     * document is written.
     */
    method OutputMarkdownAsync() returns (ok: bool)
      modifies this`fsLog
      ensures var r := Run(services, modules, FreshState(prNumber));
              && (ok <==> r.ok && !outputIsWorkingDirectory)
              && fsLog == old(fsLog) + r.ops + (if ok then [WriteText(outputPath, LegacyDocument(r.state))] else [])
    {
      var context := new LegacyContext(prNumber);
      var writes;
      ok, writes := RunModules(services, modules, context);
      fsLog := fsLog + writes;
      if !ok || outputIsWorkingDirectory {
        return false;
      }
      var document := RenderDocument(context.State());
      fsLog := fsLog + [WriteText(outputPath, document)];
    }
  }

  /** One module's `ProcessAsync` on the context. */
  method RunModule(services: Services, kind: ModuleKind, context: LegacyContext) returns (ok: bool, writes: seq<FsOp>)
    modifies context
    ensures StepResult(ok, context.State(), writes) == ModuleStep(services, kind, old(context.State()))
  {
    match kind {
      case AzureDevOpsModule =>
        ok := LegacyAzureDevOps.ProcessAsync(context, services.azure, services.differ);
        writes := [];
      case JiraModule =>
        ok, writes := LegacyJira.ProcessAsync(context, services.jira);
    }
  }

  /** The module loop of `OutputMarkdownAsync`: each module in turn, until one fails. */
  method RunModules(services: Services, modules: seq<ModuleKind>, context: LegacyContext) returns (ok: bool, writes: seq<FsOp>)
    modifies context
    ensures StepResult(ok, context.State(), writes) == Run(services, modules, old(context.State()))
  {
    ghost var st := context.State();
    writes := [];
    var i := 0;
    assert modules[..0] == [];
    while i < |modules|
      invariant 0 <= i <= |modules|
      invariant Run(services, modules[..i], st) == StepResult(true, context.State(), writes)
    {
      assert modules[..i + 1][..i] == modules[..i];
      var stepOk, stepWrites := RunModule(services, modules[i], context);
      writes := writes + stepWrites;
      if !stepOk {
        RunStopsAtFailure(services, modules, i + 1, st);
        return false, writes;
      }
      i := i + 1;
    }
    assert modules[..i] == modules;
    ok := true;
  }

  /** The writing loop of `OutputMarkdownAsync`. */
  method RenderDocument(st: LegacyState) returns (document: string)
    ensures document == LegacyDocument(st)
  {
    var head := "# " + st.prTitle + "\n" + "\n" + st.prDescription + "\n";
    var body := "";
    var j := 0;
    while j < |st.sections|
      invariant 0 <= j <= |st.sections|
      invariant body == ConcatMap(st.sections[..j], SectionText)
    {
      assert st.sections[..j + 1][..j] == st.sections[..j];
      body := body + ("\n" + st.sections[j] + "\n");
      j := j + 1;
    }
    assert st.sections[..j] == st.sections;
    document := head + body;
  }
}
