/** How the Karma dashboard portlet turns a build's Karma action into the
    four percentages the generic loading code of module LoadData sums. */
module KarmaLoadData {
  import opened Wrappers
  import opened Builds
  import opened CoverageSummary
  import opened LoadData
  import opened KarmaBuildAction

  /** getResult's percentages: zeros for a build without a Karma action, and
      a zero for each ratio the action lacks. */
  function ResultCoverage(action: Option<BuildAction>, percentageFloat: Ratio -> real): (c: Coverage)
    ensures action.None? ==> c == Zero
    ensures action.Some? ==> c == Coverage(Percent(action.value.lineCoverage, percentageFloat),
                                           Percent(action.value.statementCoverage, percentageFloat),
                                           Percent(action.value.functionCoverage, percentageFloat),
                                           Percent(action.value.branchCoverage, percentageFloat))
  {
    if action.None? then Zero
    else
      var a := action.value;
      Coverage(Percent(a.lineCoverage, percentageFloat), Percent(a.statementCoverage, percentageFloat),
               Percent(a.functionCoverage, percentageFloat), Percent(a.branchCoverage, percentageFloat))
  }

  /** getResultSummary's percentages: as getResult's, each present ratio's
      percentage rounded to one decimal by `round`; missing ones stay 0. */
  function SummaryCoverage(action: Option<BuildAction>, percentageFloat: Ratio -> real, round: real -> real): (c: Coverage)
    ensures c == ResultCoverage(action, r => round(percentageFloat(r)))
    ensures action.Some? && action.value.lineCoverage.None? ==> c.line == 0.0
    ensures action.Some? && action.value.lineCoverage.Some? ==> c.line == round(percentageFloat(action.value.lineCoverage.value))
  {
    ResultCoverage(action, r => round(percentageFloat(r)))
  }
}
