/** How the CodeCover dashboard portlet turns a build's CodeCover action into
    four percentages. Its loading code is the same as the Karma portlet's
    (module LoadData); its action carries statement, branch, loop and
    condition ratios, which fill the four positions of a Coverage in that
    order. */
module CodeCoverLoadData {
  import opened Wrappers
  import opened Builds
  import opened CoverageSummary
  import opened LoadData

  /** The CodeCover build action's four ratios (each may be missing). */
  datatype CodeCoverAction = CodeCoverAction(statementCoverage: Option<Ratio>, branchCoverage: Option<Ratio>,
                                             loopCoverage: Option<Ratio>, conditionCoverage: Option<Ratio>)

  /** getResult's percentages, in the order statement, branch, loop,
      condition: zeros without an action, a zero for each missing ratio. */
  function ResultCoverage(action: Option<CodeCoverAction>, percentageFloat: Ratio -> real): (c: Coverage)
    ensures action.None? ==> c == Zero
    ensures action.Some? ==> c == Coverage(Percent(action.value.statementCoverage, percentageFloat),
                                           Percent(action.value.branchCoverage, percentageFloat),
                                           Percent(action.value.loopCoverage, percentageFloat),
                                           Percent(action.value.conditionCoverage, percentageFloat))
  {
    if action.None? then Zero
    else
      var a := action.value;
      Coverage(Percent(a.statementCoverage, percentageFloat), Percent(a.branchCoverage, percentageFloat),
               Percent(a.loopCoverage, percentageFloat), Percent(a.conditionCoverage, percentageFloat))
  }

  /** getResultSummary's percentages: each present ratio's percentage
      rounded to one decimal by `round`. */
  function SummaryCoverage(action: Option<CodeCoverAction>, percentageFloat: Ratio -> real, round: real -> real): (c: Coverage)
    ensures c == ResultCoverage(action, r => round(percentageFloat(r)))
    ensures action.Some? && action.value.statementCoverage.None? ==> c.line == 0.0
    ensures action.Some? && action.value.statementCoverage.Some? ==>
              c.line == round(percentageFloat(action.value.statementCoverage.value))
  {
    ResultCoverage(action, r => round(percentageFloat(r)))
  }
}
