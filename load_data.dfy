/** The dashboard portlets' data loading over the heap: the HashMap from
    dates to bucket objects that loadChartDataWithinRange fills, summarize
    with its search of the bucket's list, getResult and getResultSummary.
    The Karma and CodeCover portlets share this code and differ only in how
    a build's action becomes four percentages (`extract`). */
module LoadData {
  import opened Wrappers
  import opened Builds
  import opened CoverageSummary
  import opened ChartSpec

  /** One percentage of getResult: the ratio's percentage, or 0 when the
      action lacks the ratio. */
  function Percent(ratio: Option<Ratio>, percentageFloat: Ratio -> real): (p: real)
    ensures ratio.None? ==> p == 0.0
    ensures ratio.Some? ==> p == percentageFloat(ratio.value)
  {
    if ratio.Some? then percentageFloat(ratio.value) else 0.0
  }

  /** The job and the four percentages of each listed result. */
  ghost function EntriesOf(items: seq<CoverageResultSummary>): (r: seq<ResultEntry>)
    reads items
  {
    seq(|items|, i reads items requires 0 <= i < |items| => ResultEntry(items[i].job, items[i].Values()))
  }

  /** The value a bucket object holds. */
  ghost function BucketOf(b: CoverageResultSummary): Bucket
    reads b, b.coverageResults
  {
    Bucket(b.job, b.Values(), EntriesOf(b.coverageResults))
  }

  /** The HashMap `summaries` holds the chart: one distinct bucket object per
      date, no bucket listed as a result, every listed result in `items`,
      and each bucket's value the chart's bucket for its date. */
  ghost predicate Represents(summaries: map<int, CoverageResultSummary>, chart: Chart,
                             items: set<CoverageResultSummary>)
    reads summaries.Values, items
  {
    && summaries.Keys == chart.Keys
    && (forall d1, d2 :: d1 in summaries && d2 in summaries && d1 != d2 ==> summaries[d1] != summaries[d2])
    && (forall d :: d in summaries ==> summaries[d] !in items)
    && (forall d, o :: d in summaries && o in summaries[d].coverageResults ==> o in items)
    && (forall d :: d in summaries ==> BucketOf(summaries[d]) == chart[d])
  }

  /** The search loop of summarize: whether some listed result belongs to
      a job of this name (results without a job never match). */
  method FindJob(listResults: seq<CoverageResultSummary>, name: string) returns (found: bool)
    ensures found <==> HasJob(EntriesOf(listResults), name)
  {
    found := false;
    for i := 0 to |listResults|
      invariant !found
      invariant forall k :: 0 <= k < i ==> listResults[k].job != Some(name)
    {
      var item := listResults[i];
      if item.job.Some? && item.job.value == name {
        found := true;
        assert EntriesOf(listResults)[i].job == Some(name);
        return;
      }
    }
    assert forall k :: 0 <= k < |listResults| ==> EntriesOf(listResults)[k].job == listResults[k].job;
  }

  /** getResult: a new result object for the build, named after its job,
      holding the build's four percentages. */
  method GetResult<A>(run: Build<A>, name: string, extract: Option<A> -> Coverage)
    returns (r: CoverageResultSummary)
    ensures fresh(r)
    ensures r.job == Some(name) && r.Values() == extract(run.action) && r.coverageResults == []
  {
    var c := extract(run.action);
    r := new CoverageResultSummary.WithValues(Some(name), c.line, c.statement, c.functions, c.branch);
  }

  /** The first branch of summarize: a new bucket listing the result,
      its job set to the result's job. */
  method NewBucket(result: CoverageResultSummary, name: string) returns (bucket: CoverageResultSummary)
    ensures fresh(bucket)
    ensures bucket.coverageResults == [result]
    ensures BucketOf(bucket) == Bucket(Some(name), Zero.Plus(result.Values()), [ResultEntry(result.job, result.Values())])
  {
    bucket := new CoverageResultSummary();
    var _ := bucket.AddCoverageResult(result);
    bucket.SetJob(Some(name));
    assert EntriesOf(bucket.coverageResults) == [ResultEntry(result.job, result.Values())];
  }

  /** The second branch of summarize: the result joins an existing bucket
      unless the bucket already lists a result of the same job. */
  method JoinBucket(bucket: CoverageResultSummary, result: CoverageResultSummary, name: string)
    requires bucket != result && bucket !in bucket.coverageResults
    modifies bucket
    ensures HasJob(old(BucketOf(bucket)).entries, name) ==> BucketOf(bucket) == old(BucketOf(bucket))
    ensures HasJob(old(BucketOf(bucket)).entries, name) ==> bucket.coverageResults == old(bucket.coverageResults)
    ensures !HasJob(old(BucketOf(bucket)).entries, name) ==>
              BucketOf(bucket) == Bucket(Some(name), old(bucket.Values()).Plus(result.Values()),
                                         old(BucketOf(bucket)).entries + [ResultEntry(result.job, result.Values())])
    ensures !HasJob(old(BucketOf(bucket)).entries, name) ==> bucket.coverageResults == old(bucket.coverageResults) + [result]
  {
    ghost var before := bucket.coverageResults;
    ghost var entries := EntriesOf(before);
    var found := FindJob(bucket.KarmaCoverageResults(), name);
    if !found {
      var _ := bucket.AddCoverageResult(result);
      bucket.SetJob(Some(name));
      assert bucket.coverageResults == before + [result];
      assert EntriesOf(before) == entries;
      assert EntriesOf(bucket.coverageResults) == entries + [ResultEntry(result.job, result.Values())];
    }
  }

  /** summarize: the build's result joins its date's bucket (a new one if
      the date has none) unless that bucket already lists a result of the
      same job; the map then holds the bucket under the date. */
  method Summarize<A>(summaries: map<int, CoverageResultSummary>, run: Build<A>, runDate: int, name: string,
                      extract: Option<A> -> Coverage, ghost chart: Chart, ghost items: set<CoverageResultSummary>,
                      ghost buckets: set<CoverageResultSummary>)
    returns (updated: map<int, CoverageResultSummary>, ghost items': set<CoverageResultSummary>)
    requires Represents(summaries, chart, items)
    requires forall d :: d in summaries ==> summaries[d] in buckets
    modifies buckets
    ensures Represents(updated, ChartSpec.Summarize(chart, runDate, name, extract(run.action)), items')
    ensures updated.Keys == summaries.Keys + {runDate}
    ensures forall d :: d in summaries ==> updated[d] == summaries[d]
    ensures runDate !in summaries ==> fresh(updated[runDate])
    ensures forall o :: o in items' ==> o in items || fresh(o)
  {
    var result := GetResult(run, name, extract);
    items' := items + {result};
    if runDate !in summaries {
      updated := AddNewDate(summaries, runDate, result, name, chart, items);
    } else {
      JoinExisting(summaries, runDate, result, name, chart, items);
      updated := summaries;
    }
  }

  /** The first branch of summarize, on the whole map: a fresh bucket for
      the new date, as ChartSpec.Summarize says. */
  method AddNewDate(summaries: map<int, CoverageResultSummary>, runDate: int, result: CoverageResultSummary,
                    name: string, ghost chart: Chart, ghost items: set<CoverageResultSummary>)
    returns (updated: map<int, CoverageResultSummary>)
    requires Represents(summaries, chart, items)
    requires runDate !in summaries
    requires result.job == Some(name)
    requires result !in items && forall d :: d in summaries ==> summaries[d] != result
    ensures runDate in updated && fresh(updated[runDate])
    ensures updated == summaries[runDate := updated[runDate]]
    ensures Represents(updated, ChartSpec.Summarize(chart, runDate, name, result.Values()), items + {result})
  {
    var bucket := NewBucket(result, name);
    updated := summaries[runDate := bucket];
    NewBucketRepresents(summaries, chart, items, runDate, bucket, result, name);
  }

  /** The second branch of summarize, on the whole map: only the date's
      bucket changes, as ChartSpec.Summarize says. */
  method JoinExisting(summaries: map<int, CoverageResultSummary>, runDate: int, result: CoverageResultSummary,
                      name: string, ghost chart: Chart, ghost items: set<CoverageResultSummary>)
    requires Represents(summaries, chart, items)
    requires runDate in summaries
    requires result.job == Some(name)
    requires result !in items && forall d :: d in summaries ==> summaries[d] != result
    modifies summaries[runDate]
    ensures Represents(summaries, ChartSpec.Summarize(chart, runDate, name, result.Values()), items + {result})
  {
    var bucket := summaries[runDate];
    JoinBucket(bucket, result, name);
    forall d | d in summaries && d != runDate
      ensures BucketOf(summaries[d]) == old(BucketOf(summaries[d]))
    {
      assert summaries[d] != bucket;
      assert forall o :: o in summaries[d].coverageResults ==> o != bucket;
    }
  }

  /** Adding a fresh bucket under a new date keeps the representation. */
  lemma NewBucketRepresents(summaries: map<int, CoverageResultSummary>, chart: Chart, items: set<CoverageResultSummary>,
                            runDate: int, bucket: CoverageResultSummary, result: CoverageResultSummary, name: string)
    requires Represents(summaries, chart, items)
    requires runDate !in summaries
    requires bucket !in items && bucket != result
    requires forall d :: d in summaries ==> summaries[d] != bucket && summaries[d] != result
    requires bucket.coverageResults == [result]
    requires BucketOf(bucket) == Bucket(Some(name), Zero.Plus(result.Values()), [ResultEntry(Some(name), result.Values())])
    ensures Represents(summaries[runDate := bucket],
                       ChartSpec.Summarize(chart, runDate, name, result.Values()), items + {result})
  {
    var updated := summaries[runDate := bucket];
    var chart' := ChartSpec.Summarize(chart, runDate, name, result.Values());
    forall d1, d2 | d1 in updated && d2 in updated && d1 != d2 ensures updated[d1] != updated[d2] {
      if d1 != runDate && d2 != runDate {
        assert updated[d1] == summaries[d1] && updated[d2] == summaries[d2];
      }
    }
    forall d, o | d in updated && o in updated[d].coverageResults ensures o in items + {result} {
      if d != runDate {
        assert updated[d] == summaries[d];
      }
    }
    forall d | d in updated ensures BucketOf(updated[d]) == chart'[d] {
      if d != runDate {
        assert updated[d] == summaries[d];
      }
    }
  }

  /** One visited build of the walk: summarize, with the map's key list
      kept alongside it. */
  method Visit<A>(summaries: map<int, CoverageResultSummary>, dates: seq<int>, run: Build<A>, name: string,
                  extract: Option<A> -> Coverage, ghost chart: Chart, ghost items: set<CoverageResultSummary>,
                  ghost owned: set<CoverageResultSummary>)
    returns (updated: map<int, CoverageResultSummary>, dates': seq<int>, ghost items': set<CoverageResultSummary>,
             ghost owned': set<CoverageResultSummary>)
    requires Represents(summaries, chart, items)
    requires forall d :: d in summaries <==> d in dates
    requires forall d :: d in summaries ==> summaries[d] in owned
    modifies owned
    ensures Represents(updated, ChartSpec.Summarize(chart, run.day, name, extract(run.action)), items')
    ensures forall d :: d in updated <==> d in dates'
    ensures forall d :: d in updated ==> updated[d] in owned'
    ensures forall o :: o in owned' ==> o in owned || fresh(o)
    ensures forall o :: o in items' ==> o in items || fresh(o)
  {
    updated, items' := Summarize(summaries, run, run.day, name, extract, chart, items, owned);
    owned' := owned + {updated[run.day]};
    dates' := dates;
    if run.day !in dates {
      dates' := dates + [run.day];
    }
  }

  /** The walk over one job's builds, latest first, while the build's date
      is after the cutoff; `dates` lists the map's keys. */
  method WalkJob<A>(summaries: map<int, CoverageResultSummary>, dates: seq<int>, job: Job<A>, firstDate: int,
                    extract: Option<A> -> Coverage, ghost chart: Chart, ghost items: set<CoverageResultSummary>,
                    ghost buckets: set<CoverageResultSummary>)
    returns (updated: map<int, CoverageResultSummary>, dates': seq<int>, ghost items': set<CoverageResultSummary>,
             ghost owned: set<CoverageResultSummary>)
    requires Represents(summaries, chart, items)
    requires forall d :: d in summaries <==> d in dates
    requires forall d :: d in summaries ==> summaries[d] in buckets
    modifies buckets
    ensures Represents(updated, ChartSpec.WalkJob(chart, job, firstDate, extract), items')
    ensures forall d :: d in updated <==> d in dates'
    ensures forall d :: d in updated ==> updated[d] in owned
    ensures forall o :: o in owned ==> o in buckets || fresh(o)
    ensures forall o :: o in items' ==> o in items || fresh(o)
  {
    updated, dates', items' := summaries, dates, items;
    ghost var chart' := chart;
    owned := buckets;
    var k := |job.builds| - 1;
    if k < 0 {
      return;
    }
    var run := job.builds[k];
    var runDate := run.day;
    while runDate > firstDate
      invariant 0 <= k < |job.builds| && run == job.builds[k] && runDate == run.day
      invariant Represents(updated, chart', items')
      invariant forall d :: d in updated <==> d in dates'
      invariant forall d :: d in updated ==> updated[d] in owned
      invariant forall o :: o in owned ==> o in buckets || fresh(o)
      invariant forall o :: o in items' ==> o in items || fresh(o)
      invariant WalkFrom(chart', job.name, job.builds, k, firstDate, extract) == ChartSpec.WalkJob(chart, job, firstDate, extract)
      decreases k
    {
      ghost var before := chart';
      updated, dates', items', owned := Visit(updated, dates', run, job.name, extract, chart', items', owned);
      chart' := ChartSpec.Summarize(chart', runDate, job.name, extract(run.action));
      assert WalkFrom(before, job.name, job.builds, k, firstDate, extract)
          == WalkFrom(chart', job.name, job.builds, k - 1, firstDate, extract);
      if k == 0 {
        return;
      }
      k := k - 1;
      run := job.builds[k];
      runDate := run.day;
    }
  }

  /** loadChartDataWithinRange: None when there is no last date; otherwise
      the buckets of the builds after the cutoff, in ascending date order. */
  method LoadChartDataWithinRange<A>(jobs: seq<Job<A>>, lastDate: Option<int>, daysNumber: int,
                                     extract: Option<A> -> Coverage)
    returns (r: Option<seq<(int, CoverageResultSummary)>>)
    ensures r.None? <==> lastDate.None?
    ensures r.Some? ==> forall i, j :: 0 <= i < j < |r.value| ==> r.value[i].0 < r.value[j].0
    ensures r.Some? ==> (set i | 0 <= i < |r.value| :: r.value[i].0) == ChartOf(jobs, lastDate.value - daysNumber, extract).Keys
    ensures r.Some? ==> forall i :: 0 <= i < |r.value| ==>
              r.value[i].0 in ChartOf(jobs, lastDate.value - daysNumber, extract) &&
              BucketOf(r.value[i].1) == ChartOf(jobs, lastDate.value - daysNumber, extract)[r.value[i].0]
  {
    if lastDate.None? {
      return None;
    }
    var firstDate := lastDate.value - daysNumber;
    var summaries: map<int, CoverageResultSummary> := map[];
    var dates: seq<int> := [];
    ghost var chart: Chart := map[];
    ghost var items: set<CoverageResultSummary> := {};
    ghost var buckets: set<CoverageResultSummary> := {};
    for j := 0 to |jobs|
      invariant Represents(summaries, chart, items)
      invariant forall d :: d in summaries <==> d in dates
      invariant forall d :: d in summaries ==> summaries[d] in buckets
      invariant forall o :: o in buckets ==> fresh(o)
      invariant forall o :: o in items ==> fresh(o)
      invariant WalkJobs(chart, jobs, j, firstDate, extract) == ChartOf(jobs, firstDate, extract)
    {
      summaries, dates, items, buckets := WalkJob(summaries, dates, jobs[j], firstDate, extract, chart, items, buckets);
      chart := ChartSpec.WalkJob(chart, jobs[j], firstDate, extract);
    }
    var entries := ToTreeMap(summaries, dates);
    r := Some(entries);
  }

  /** new TreeMap(summaries): the map's entries in ascending date order. */
  method ToTreeMap(summaries: map<int, CoverageResultSummary>, dates: seq<int>)
    returns (entries: seq<(int, CoverageResultSummary)>)
    requires forall d :: d in summaries <==> d in dates
    ensures forall i, j :: 0 <= i < j < |entries| ==> entries[i].0 < entries[j].0
    ensures (set i | 0 <= i < |entries| :: entries[i].0) == summaries.Keys
    ensures forall i :: 0 <= i < |entries| ==> entries[i].0 in summaries && entries[i].1 == summaries[entries[i].0]
  {
    var sorted := SortDates(dates);
    assert forall i :: 0 <= i < |sorted| ==> sorted[i] in summaries by {
      forall i | 0 <= i < |sorted| ensures sorted[i] in summaries {
        assert sorted[i] in sorted;
      }
    }
    entries := seq(|sorted|, i requires 0 <= i < |sorted| => (sorted[i], summaries[sorted[i]]));
    assert (set i | 0 <= i < |entries| :: entries[i].0) == summaries.Keys by {
      forall d | d in summaries ensures d in (set i | 0 <= i < |entries| :: entries[i].0) {
        assert d in sorted;
        var i :| 0 <= i < |sorted| && sorted[i] == d;
        assert entries[i].0 == d;
      }
    }
  }

  /** What getResultSummary lists for one job: its name and the
      percentages of its last successful build (zeros without one). */
  function JobEntry<A>(job: Job<A>, extract: Option<A> -> Coverage): (e: ResultEntry)
    ensures e.job == Some(job.name)
    ensures LastSuccessfulIndex(job.builds) < 0 ==> e.coverage == Zero
    ensures LastSuccessfulIndex(job.builds) >= 0 ==>
              e.coverage == extract(job.builds[LastSuccessfulIndex(job.builds)].action)
  {
    var k := LastSuccessfulIndex(job.builds);
    ResultEntry(Some(job.name), if k < 0 then Zero else extract(job.builds[k].action))
  }

  function JobEntries<A>(jobs: seq<Job<A>>, extract: Option<A> -> Coverage): (r: seq<ResultEntry>)
    ensures |r| == |jobs|
    ensures forall i :: 0 <= i < |jobs| ==> r[i] == JobEntry(jobs[i], extract)
  {
    seq(|jobs|, i requires 0 <= i < |jobs| => JobEntry(jobs[i], extract))
  }

  lemma JobEntriesStep<A>(jobs: seq<Job<A>>, j: nat, extract: Option<A> -> Coverage)
    requires j < |jobs|
    ensures JobEntries(jobs[..j + 1], extract) == JobEntries(jobs[..j], extract) + [JobEntry(jobs[j], extract)]
    ensures Sum(Coverages(JobEntries(jobs[..j + 1], extract)))
            == Sum(Coverages(JobEntries(jobs[..j], extract))).Plus(JobEntry(jobs[j], extract).coverage)
  {
    var before := JobEntries(jobs[..j], extract);
    var e := JobEntry(jobs[j], extract);
    assert JobEntries(jobs[..j + 1], extract) == before + [e];
    assert Coverages(before + [e]) == Coverages(before) + [e.coverage];
    SumAppend(Coverages(before), e.coverage);
  }

  /** The loop body of getResultSummary for one job: a new result for the
      job is appended to the summary. */
  method AddJobResult<A>(summary: CoverageResultSummary, job: Job<A>, extract: Option<A> -> Coverage)
    requires summary !in summary.coverageResults
    modifies summary
    ensures summary !in summary.coverageResults
    ensures |summary.coverageResults| == |old(summary.coverageResults)| + 1
    ensures summary.coverageResults[..|old(summary.coverageResults)|] == old(summary.coverageResults)
    ensures fresh(summary.coverageResults[|old(summary.coverageResults)|])
    ensures EntriesOf(summary.coverageResults) == old(EntriesOf(summary.coverageResults)) + [JobEntry(job, extract)]
    ensures summary.Values() == old(summary.Values()).Plus(JobEntry(job, extract).coverage)
    ensures summary.job == old(summary.job)
  {
    var c := Zero;
    var run := LastSuccessfulIndex(job.builds);
    if run >= 0 {
      c := extract(job.builds[run].action);
    }
    var result := new CoverageResultSummary.WithValues(Some(job.name), c.line, c.statement, c.functions, c.branch);
    ghost var before := summary.coverageResults;
    ghost var entries := EntriesOf(before);
    var _ := summary.AddCoverageResult(result);
    assert summary.coverageResults == before + [result];
    assert EntriesOf(before) == entries;
    assert EntriesOf(summary.coverageResults) == entries + [JobEntry(job, extract)];
  }

  /** getResultSummary: one result per job, in job order, each holding the
      job's last successful build's percentages (zeros without one); the
      summary's sums are the sums of those results. */
  method GetResultSummary<A>(jobs: seq<Job<A>>, extract: Option<A> -> Coverage)
    returns (summary: CoverageResultSummary)
    ensures fresh(summary)
    ensures summary.job.None?
    ensures EntriesOf(summary.coverageResults) == JobEntries(jobs, extract)
    ensures summary.Values() == Sum(Coverages(JobEntries(jobs, extract)))
  {
    summary := new CoverageResultSummary();
    assert JobEntries(jobs[..0], extract) == [];
    for j := 0 to |jobs|
      invariant fresh(summary) && summary.job.None?
      invariant summary !in summary.coverageResults
      invariant EntriesOf(summary.coverageResults) == JobEntries(jobs[..j], extract)
      invariant summary.Values() == Sum(Coverages(JobEntries(jobs[..j], extract)))
    {
      AddJobResult(summary, jobs[j], extract);
      JobEntriesStep(jobs, j, extract);
    }
    assert jobs[..|jobs|] == jobs;
  }
}
