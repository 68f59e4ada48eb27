/**
 * The working state of the first-generation pipeline: the pull-request
 * number, title and description, and the Markdown sections the modules add
 * one after the other.
 */
module LegacyModel {
  import opened Text
  import opened Models

  /** A snapshot of every field of a legacy `CodeReviewContext`. */
  datatype LegacyState = LegacyState(prNumber: int, prTitle: string, prDescription: string, sections: seq<string>)

  /** The context a run starts from: only the number is set. */
  function FreshState(prNumber: int): (st: LegacyState)
    ensures st.prNumber == prNumber && st.prTitle == "" && st.prDescription == "" && st.sections == []
  {
    LegacyState(prNumber, "", "", [])
  }

  /** The folder of pull request `n`, relative to the working directory: the review and the attachments go there. */
  function PrFolder(prNumber: int): string {
    "PR-" + IntToString(prNumber)
  }

  /** What one module run does: whether it completed, the context afterwards, and the files it wrote. */
  datatype StepResult = StepResult(ok: bool, state: LegacyState, ops: seq<FsOp>)

  class LegacyContext {
    var prNumber: int
    var prTitle: string
    var prDescription: string
    var sections: seq<string>

    constructor (prNumber: int)
      ensures State() == FreshState(prNumber)
    {
      this.prNumber := prNumber;
      prTitle := "";
      prDescription := "";
      sections := [];
    }

    function State(): LegacyState
      reads this
    {
      LegacyState(prNumber, prTitle, prDescription, sections)
    }
  }
}
