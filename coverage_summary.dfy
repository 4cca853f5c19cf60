/** The portlet's coverage summary bean: four running sums of coverage
    percentages, the list of results that contributed to them, and the
    averages shown on the dashboard. */
module CoverageSummary {
  import opened Wrappers

  /** The four coverage percentages of one result (floats in the source). */
  datatype Coverage = Coverage(line: real, statement: real, functions: real, branch: real)
  {
    function Plus(other: Coverage): Coverage {
      Coverage(line + other.line, statement + other.statement,
               functions + other.functions, branch + other.branch)
    }
  }

  const Zero: Coverage := Coverage(0.0, 0.0, 0.0, 0.0)

  /** Component-wise sum of a list of coverages. */
  function Sum(cs: seq<Coverage>): Coverage
    decreases |cs|
  {
    if cs == [] then Zero else Sum(cs[..|cs| - 1]).Plus(cs[|cs| - 1])
  }

  lemma SumAppend(cs: seq<Coverage>, c: Coverage)
    ensures Sum(cs + [c]) == Sum(cs).Plus(c)
  {
    assert (cs + [c])[..|cs|] == cs;
  }

  /** Sum of a list of reals: each component of Sum is one of these. */
  function Total(xs: seq<real>): real
    decreases |xs|
  {
    if xs == [] then 0.0 else Total(xs[..|xs| - 1]) + xs[|xs| - 1]
  }

  /** Each component of the summed coverage is the sum of that component. */
  lemma {:induction false} SumIsComponentwise(cs: seq<Coverage>)
    ensures Sum(cs).line == Total(seq(|cs|, i requires 0 <= i < |cs| => cs[i].line))
    ensures Sum(cs).statement == Total(seq(|cs|, i requires 0 <= i < |cs| => cs[i].statement))
    ensures Sum(cs).functions == Total(seq(|cs|, i requires 0 <= i < |cs| => cs[i].functions))
    ensures Sum(cs).branch == Total(seq(|cs|, i requires 0 <= i < |cs| => cs[i].branch))
    decreases |cs|
  {
    if cs != [] {
      var init := cs[..|cs| - 1];
      SumIsComponentwise(init);
      assert seq(|cs|, i requires 0 <= i < |cs| => cs[i].line)[..|init|] == seq(|init|, i requires 0 <= i < |init| => init[i].line);
      assert seq(|cs|, i requires 0 <= i < |cs| => cs[i].statement)[..|init|] == seq(|init|, i requires 0 <= i < |init| => init[i].statement);
      assert seq(|cs|, i requires 0 <= i < |cs| => cs[i].functions)[..|init|] == seq(|init|, i requires 0 <= i < |init| => init[i].functions);
      assert seq(|cs|, i requires 0 <= i < |cs| => cs[i].branch)[..|init|] == seq(|init|, i requires 0 <= i < |init| => init[i].branch);
    }
  }

  /** One average as the getTotal getters compute it: 0 for an empty list,
      otherwise the sum over the count, rounded by `round` (the rounding
      helper of the source is not part of this model). */
  function Average(sum: real, count: nat, round: real -> real): (r: real)
    ensures count == 0 ==> r == 0.0
    ensures count > 0 ==> r == round(sum / count as real)
  {
    if count <= 0 then 0.0 else round(sum / count as real)
  }

  /** KarmaCoverageResultSummary. As a date bucket it holds the sums of its
      results; as a result it holds one job's percentages. */
  class CoverageResultSummary {
    var job: Option<string>
    var lineCoverage: real
    var statementCoverage: real
    var functionCoverage: real
    var branchCoverage: real
    var coverageResults: seq<CoverageResultSummary>
    /** The values of the listed results at the time each was added. */
    ghost var addedValues: seq<Coverage>

    function Values(): Coverage
      reads this
    {
      Coverage(lineCoverage, statementCoverage, functionCoverage, branchCoverage)
    }

    /** The bucket invariant: one value per listed result, and the sums
        are the sums of those values. */
    ghost predicate Consistent()
      reads this
    {
      |addedValues| == |coverageResults| && Values() == Sum(addedValues)
    }

    /** The default constructor: no job, zero sums, an empty list. */
    constructor ()
      ensures job.None? && Values() == Zero && coverageResults == []
      ensures Consistent()
    {
      job := None;
      lineCoverage, statementCoverage, functionCoverage, branchCoverage := 0.0, 0.0, 0.0, 0.0;
      coverageResults := [];
      addedValues := [];
    }

    /** The constructor with a job and its four percentages. */
    constructor WithValues(job: Option<string>, lineCoverage: real, statementCoverage: real,
                           functionCoverage: real, branchCoverage: real)
      ensures this.job == job
      ensures Values() == Coverage(lineCoverage, statementCoverage, functionCoverage, branchCoverage)
      ensures coverageResults == []
    {
      this.job := job;
      this.lineCoverage := lineCoverage;
      this.statementCoverage := statementCoverage;
      this.functionCoverage := functionCoverage;
      this.branchCoverage := branchCoverage;
      coverageResults := [];
      addedValues := [];
    }

    /** addCoverageResult: each sum grows by the result's value, the result
        is appended to the list, and the object itself is returned. A
        consistent bucket stays consistent. */
    method AddCoverageResult(c: CoverageResultSummary) returns (self: CoverageResultSummary)
      modifies this
      ensures self == this
      ensures Values() == old(Values()).Plus(old(c.Values()))
      ensures coverageResults == old(coverageResults) + [c]
      ensures addedValues == old(addedValues) + [old(c.Values())]
      ensures job == old(job)
      ensures old(Consistent()) ==> Consistent()
    {
      var added := c.Values();
      ghost var start := Values();
      lineCoverage := lineCoverage + added.line;
      statementCoverage := statementCoverage + added.statement;
      functionCoverage := functionCoverage + added.functions;
      branchCoverage := branchCoverage + added.branch;
      coverageResults := coverageResults + [c];
      assert Values() == start.Plus(added);
      ghost var sum := Sum(addedValues);
      SumAppend(addedValues, added);
      addedValues := addedValues + [added];
      assert Sum(addedValues) == sum.Plus(added);
      return this;
    }

    /** getKarmaCoverageResults: the same list as getCoverageResults. */
    function KarmaCoverageResults(): (r: seq<CoverageResultSummary>)
      reads this
      ensures r == coverageResults
    {
      coverageResults
    }

    method SetJob(job: Option<string>)
      modifies this
      ensures this.job == job && Values() == old(Values()) && coverageResults == old(coverageResults)
      ensures addedValues == old(addedValues)
    {
      this.job := job;
    }

    method SetCoverageResults(results: seq<CoverageResultSummary>)
      modifies this
      ensures coverageResults == results && job == old(job) && Values() == old(Values())
      ensures addedValues == old(addedValues)
    {
      coverageResults := results;
    }

    /** getTotalLineCoverage: for a consistent bucket, the rounded mean of
        its results' line coverage, or 0 when it has none. */
    function TotalLineCoverage(round: real -> real): (r: real)
      reads this
      ensures coverageResults == [] ==> r == 0.0
      ensures Average(lineCoverage, |coverageResults|, round) == r
    {
      Average(lineCoverage, |coverageResults|, round)
    }

    function TotalStatementCoverage(round: real -> real): (r: real)
      reads this
      ensures coverageResults == [] ==> r == 0.0
      ensures Average(statementCoverage, |coverageResults|, round) == r
    {
      Average(statementCoverage, |coverageResults|, round)
    }

    function TotalFunctionCoverage(round: real -> real): (r: real)
      reads this
      ensures coverageResults == [] ==> r == 0.0
      ensures Average(functionCoverage, |coverageResults|, round) == r
    {
      Average(functionCoverage, |coverageResults|, round)
    }

    function TotalBranchCoverage(round: real -> real): (r: real)
      reads this
      ensures coverageResults == [] ==> r == 0.0
      ensures Average(branchCoverage, |coverageResults|, round) == r
    {
      Average(branchCoverage, |coverageResults|, round)
    }
  }

  /** For a consistent bucket, each dashboard average is the rounded mean of
      that component over the values of the results it lists. */
  lemma TotalsAreMeans(b: CoverageResultSummary, values: seq<Coverage>, round: real -> real)
    requires b.Consistent() && values == b.addedValues
    ensures b.TotalLineCoverage(round)
            == Average(Total(seq(|values|, i requires 0 <= i < |values| => values[i].line)), |values|, round)
    ensures b.TotalStatementCoverage(round)
            == Average(Total(seq(|values|, i requires 0 <= i < |values| => values[i].statement)), |values|, round)
    ensures b.TotalFunctionCoverage(round)
            == Average(Total(seq(|values|, i requires 0 <= i < |values| => values[i].functions)), |values|, round)
    ensures b.TotalBranchCoverage(round)
            == Average(Total(seq(|values|, i requires 0 <= i < |values| => values[i].branch)), |values|, round)
  {
    SumIsComponentwise(values);
  }
}
