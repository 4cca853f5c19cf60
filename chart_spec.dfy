/** The dashboard portlets' date-bucketed aggregation, as values: what the
    map from dates to coverage buckets holds after the walk over the jobs'
    recent builds. The heap-level methods of module LoadData are proved to
    produce exactly this. */
module ChartSpec {
  import opened Wrappers
  import opened Builds
  import opened CoverageSummary

  /** One contributed result: its job's name and its four percentages. */
  datatype ResultEntry = ResultEntry(job: Option<string>, coverage: Coverage)

  /** A date bucket: the job last set on it, the four sums and the list of
      contributed results. */
  datatype Bucket = Bucket(job: Option<string>, sums: Coverage, entries: seq<ResultEntry>)

  type Chart = map<int, Bucket>

  /** The found-loop of summarize: some listed result names the job. */
  predicate HasJob(entries: seq<ResultEntry>, name: string) {
    exists i :: 0 <= i < |entries| && entries[i].job == Some(name)
  }

  /** summarize: a result goes into its date's bucket unless that bucket
      already holds a result of the same job. */
  function Summarize(chart: Chart, date: int, name: string, c: Coverage): (r: Chart)
    ensures r.Keys == chart.Keys + {date}
    ensures forall d :: d in chart && d != date ==> r[d] == chart[d]
    ensures date in chart && HasJob(chart[date].entries, name) ==> r == chart
    ensures date !in chart ==> r[date] == Bucket(Some(name), Zero.Plus(c), [ResultEntry(Some(name), c)])
    ensures date in chart && !HasJob(chart[date].entries, name) ==>
              r[date] == Bucket(Some(name), chart[date].sums.Plus(c), chart[date].entries + [ResultEntry(Some(name), c)])
  {
    if date !in chart then chart[date := Bucket(Some(name), Zero.Plus(c), [ResultEntry(Some(name), c)])]
    else if HasJob(chart[date].entries, name) then chart
    else chart[date := Bucket(Some(name), chart[date].sums.Plus(c), chart[date].entries + [ResultEntry(Some(name), c)])]
  }

  /** The walk over one job's builds from position k down, while the
      build's date is after the cutoff; each visited build is summarized. */
  function WalkFrom<A>(chart: Chart, name: string, builds: seq<Build<A>>, k: int, cutoff: int,
                       extract: Option<A> -> Coverage): Chart
    requires -1 <= k < |builds|
    decreases k + 1
  {
    if k < 0 || builds[k].day <= cutoff then chart
    else WalkFrom(Summarize(chart, builds[k].day, name, extract(builds[k].action)), name, builds, k - 1, cutoff, extract)
  }

  /** The walk over one job, from its last build. */
  function WalkJob<A>(chart: Chart, job: Job<A>, cutoff: int, extract: Option<A> -> Coverage): Chart {
    WalkFrom(chart, job.name, job.builds, |job.builds| - 1, cutoff, extract)
  }

  /** The walks over the jobs from position j on, in job order. */
  function WalkJobs<A>(chart: Chart, jobs: seq<Job<A>>, j: nat, cutoff: int, extract: Option<A> -> Coverage): Chart
    requires j <= |jobs|
    decreases |jobs| - j
  {
    if j == |jobs| then chart
    else WalkJobs(WalkJob(chart, jobs[j], cutoff, extract), jobs, j + 1, cutoff, extract)
  }

  /** The buckets of loadChartDataWithinRange before sorting. */
  function ChartOf<A>(jobs: seq<Job<A>>, cutoff: int, extract: Option<A> -> Coverage): (r: Chart)
    ensures forall d :: d in r ==> d > cutoff
  {
    WalkJobsKeepsGood(map[], jobs, 0, cutoff, extract);
    WalkJobs(map[], jobs, 0, cutoff, extract)
  }

  /** The positions visited by the walk from position k down. */
  function VisitFrom<A>(builds: seq<Build<A>>, k: int, cutoff: int): (v: seq<int>)
    requires -1 <= k < |builds|
    ensures |v| <= k + 1
    ensures forall i :: 0 <= i < |v| ==> v[i] == k - i && builds[k - i].day > cutoff
    ensures |v| <= k ==> builds[k - |v|].day <= cutoff
    decreases k + 1
  {
    if k < 0 || builds[k].day <= cutoff then [] else [k] + VisitFrom(builds, k - 1, cutoff)
  }

  /** The walk summarizes exactly the builds VisitFrom lists, latest first:
      the run of builds after the cutoff that ends the history, stopping at
      the first build on or before the cutoff. */
  lemma {:induction false} WalkVisits<A>(chart: Chart, name: string, builds: seq<Build<A>>, k: int, cutoff: int,
                                         extract: Option<A> -> Coverage)
    requires -1 <= k < |builds|
    ensures WalkFrom(chart, name, builds, k, cutoff, extract)
            == SummarizeAll(chart, name, builds, VisitFrom(builds, k, cutoff), extract)
    decreases k + 1
  {
    if !(k < 0 || builds[k].day <= cutoff) {
      var next := Summarize(chart, builds[k].day, name, extract(builds[k].action));
      WalkVisits(next, name, builds, k - 1, cutoff, extract);
      SummarizeAllCons(chart, name, builds, k, VisitFrom(builds, k - 1, cutoff), extract);
    }
  }

  /** Summarizing [k] + rest is summarizing k first, then the rest. */
  lemma SummarizeAllCons<A>(chart: Chart, name: string, builds: seq<Build<A>>, k: int, rest: seq<int>,
                            extract: Option<A> -> Coverage)
    requires 0 <= k < |builds| && forall i :: 0 <= i < |rest| ==> 0 <= rest[i] < |builds|
    ensures SummarizeAll(chart, name, builds, [k] + rest, extract)
            == SummarizeAll(Summarize(chart, builds[k].day, name, extract(builds[k].action)), name, builds, rest, extract)
  {
    var visits := [k] + rest;
    assert visits[0] == k && visits[1..] == rest;
  }

  /** Summarizing the listed builds in order. */
  function SummarizeAll<A>(chart: Chart, name: string, builds: seq<Build<A>>, visits: seq<int>,
                           extract: Option<A> -> Coverage): Chart
    requires forall i :: 0 <= i < |visits| ==> 0 <= visits[i] < |builds|
    decreases |visits|
  {
    if visits == [] then chart
    else
      var k := visits[0];
      SummarizeAll(Summarize(chart, builds[k].day, name, extract(builds[k].action)), name, builds, visits[1..], extract)
  }

  /** The invariant every bucket of the chart keeps. */
  predicate GoodBucket(b: Bucket) {
    && b.entries != []
    && b.job == b.entries[|b.entries| - 1].job
    && b.sums == Sum(Coverages(b.entries))
    && (forall i, j :: 0 <= i < j < |b.entries| ==> b.entries[i].job != b.entries[j].job)
  }

  function Coverages(entries: seq<ResultEntry>): (r: seq<Coverage>)
    ensures |r| == |entries|
    ensures forall i :: 0 <= i < |r| ==> r[i] == entries[i].coverage
  {
    seq(|entries|, i requires 0 <= i < |entries| => entries[i].coverage)
  }

  /** Every key is after the cutoff, and every bucket is good. */
  predicate GoodChart(chart: Chart, cutoff: int) {
    forall d :: d in chart ==> d > cutoff && GoodBucket(chart[d])
  }

  /** summarize keeps every bucket good: at most one result per job name,
      the sums are the sums of the listed results, and the bucket's job is
      the job of its last result. */
  lemma SummarizeKeepsGood(chart: Chart, cutoff: int, date: int, name: string, c: Coverage)
    requires GoodChart(chart, cutoff) && date > cutoff
    ensures GoodChart(Summarize(chart, date, name, c), cutoff)
  {
    var r := Summarize(chart, date, name, c);
    forall d | d in r ensures d > cutoff && GoodBucket(r[d]) {
      if d != date {
        assert r[d] == chart[d];
      } else if date !in chart {
        assert Coverages(r[date].entries) == [c];
        assert [c][..0] == [];
      } else if !HasJob(chart[date].entries, name) {
        var old_ := chart[date].entries;
        var new_ := old_ + [ResultEntry(Some(name), c)];
        assert Coverages(new_) == Coverages(old_) + [c];
        SumAppend(Coverages(old_), c);
        forall i, j | 0 <= i < j < |new_| ensures new_[i].job != new_[j].job {
          if j == |old_| {
            assert new_[i] == old_[i];
          } else {
            assert new_[i] == old_[i] && new_[j] == old_[j];
          }
        }
      }
    }
  }

  lemma {:induction false} WalkFromKeepsGood<A>(chart: Chart, name: string, builds: seq<Build<A>>, k: int, cutoff: int,
                                                extract: Option<A> -> Coverage)
    requires -1 <= k < |builds| && GoodChart(chart, cutoff)
    ensures GoodChart(WalkFrom(chart, name, builds, k, cutoff, extract), cutoff)
    decreases k + 1
  {
    if !(k < 0 || builds[k].day <= cutoff) {
      SummarizeKeepsGood(chart, cutoff, builds[k].day, name, extract(builds[k].action));
      WalkFromKeepsGood(Summarize(chart, builds[k].day, name, extract(builds[k].action)), name, builds, k - 1, cutoff, extract);
    }
  }

  lemma {:induction false} WalkJobsKeepsGood<A>(chart: Chart, jobs: seq<Job<A>>, j: nat, cutoff: int,
                                                extract: Option<A> -> Coverage)
    requires j <= |jobs| && GoodChart(chart, cutoff)
    ensures GoodChart(WalkJobs(chart, jobs, j, cutoff, extract), cutoff)
    decreases |jobs| - j
  {
    if j < |jobs| {
      WalkFromKeepsGood(chart, jobs[j].name, jobs[j].builds, |jobs[j].builds| - 1, cutoff, extract);
      WalkJobsKeepsGood(WalkJob(chart, jobs[j], cutoff, extract), jobs, j + 1, cutoff, extract);
    }
  }

  /** Every date of the chart is strictly after the cutoff, each bucket
      holds at most one result per job name, and its sums are the sums of
      its results. */
  lemma ChartIsGood<A>(jobs: seq<Job<A>>, cutoff: int, extract: Option<A> -> Coverage)
    ensures GoodChart(ChartOf(jobs, cutoff, extract), cutoff)
  {
    WalkJobsKeepsGood(map[], jobs, 0, cutoff, extract);
  }

  /** Results already in a bucket stay there, in place: later builds only
      append. Together with the walk order (latest build first), the first
      visited build of a job on a date is the one that counts. */
  lemma SummarizeKeepsEntries(chart: Chart, date: int, name: string, c: Coverage, d: int)
    requires d in chart
    ensures d in Summarize(chart, date, name, c)
    ensures chart[d].entries <= Summarize(chart, date, name, c)[d].entries
  {
  }

  lemma {:induction false} WalkFromKeepsEntries<A>(chart: Chart, name: string, builds: seq<Build<A>>, k: int,
                                                   cutoff: int, extract: Option<A> -> Coverage, d: int)
    requires -1 <= k < |builds| && d in chart
    ensures d in WalkFrom(chart, name, builds, k, cutoff, extract)
    ensures chart[d].entries <= WalkFrom(chart, name, builds, k, cutoff, extract)[d].entries
    decreases k + 1
  {
    if !(k < 0 || builds[k].day <= cutoff) {
      var next := Summarize(chart, builds[k].day, name, extract(builds[k].action));
      SummarizeKeepsEntries(chart, builds[k].day, name, extract(builds[k].action), d);
      WalkFromKeepsEntries(next, name, builds, k - 1, cutoff, extract, d);
    }
  }

  /** Two builds of one job on the same date: the later one, visited
      first, is the one the bucket keeps. */
  lemma LaterBuildOfTheDayWins<A>(name: string, first: Build<A>, second: Build<A>, cutoff: int,
                                  extract: Option<A> -> Coverage)
    requires first.day == second.day && first.day > cutoff
    ensures WalkJob(map[], Job(name, [first, second]), cutoff, extract)
            == map[first.day := Bucket(Some(name), Zero.Plus(extract(second.action)),
                                       [ResultEntry(Some(name), extract(second.action))])]
  {
    var b := [first, second];
    var c := map[first.day := Bucket(Some(name), Zero.Plus(extract(second.action)),
                                     [ResultEntry(Some(name), extract(second.action))])];
    assert Summarize(map[], b[1].day, name, extract(b[1].action)) == c;
    assert HasJob(c[first.day].entries, name) by {
      assert c[first.day].entries[0].job == Some(name);
    }
  }

  /** The bucket of date d holds exactly one result of the job, e. */
  predicate OnlyEntry(chart: Chart, d: int, name: string, e: ResultEntry) {
    && d in chart
    && e.job == Some(name)
    && (exists i :: 0 <= i < |chart[d].entries| && chart[d].entries[i] == e)
    && (forall i, i' ::
          (0 <= i < |chart[d].entries| && 0 <= i' < |chart[d].entries| &&
           chart[d].entries[i].job == Some(name) && chart[d].entries[i'].job == Some(name)) ==> i == i')
  }

  /** The first result of a job on a date is the bucket's only one of it. */
  lemma SummarizeCreatesOnlyEntry(chart: Chart, d: int, name: string, c: Coverage)
    requires !(d in chart && HasJob(chart[d].entries, name))
    ensures OnlyEntry(Summarize(chart, d, name, c), d, name, ResultEntry(Some(name), c))
  {
    var e := ResultEntry(Some(name), c);
    var es := Summarize(chart, d, name, c)[d].entries;
    if d in chart {
      var before := chart[d].entries;
      assert es == before + [e];
      assert es[|before|] == e;
      assert forall i :: 0 <= i < |before| ==> es[i] == before[i];
    } else {
      assert es == [e] && es[0] == e;
    }
  }

  /** Once a job has its result on a date, summarize leaves it alone. */
  lemma SummarizeKeepsOnlyEntry(chart: Chart, date: int, name: string, c: Coverage, d: int, e: ResultEntry)
    requires OnlyEntry(chart, d, name, e)
    ensures OnlyEntry(Summarize(chart, date, name, c), d, name, e)
  {
    if date == d {
      var i :| 0 <= i < |chart[d].entries| && chart[d].entries[i] == e;
      assert HasJob(chart[d].entries, name);
    }
  }

  lemma {:induction false} WalkFromKeepsOnlyEntry<A>(chart: Chart, name: string, builds: seq<Build<A>>, k: int,
                                                     cutoff: int, extract: Option<A> -> Coverage, d: int, e: ResultEntry)
    requires -1 <= k < |builds| && OnlyEntry(chart, d, name, e)
    ensures OnlyEntry(WalkFrom(chart, name, builds, k, cutoff, extract), d, name, e)
    decreases k + 1
  {
    if !(k < 0 || builds[k].day <= cutoff) {
      SummarizeKeepsOnlyEntry(chart, builds[k].day, name, extract(builds[k].action), d, e);
      WalkFromKeepsOnlyEntry(Summarize(chart, builds[k].day, name, extract(builds[k].action)),
                             name, builds, k - 1, cutoff, extract, d, e);
    }
  }

  /** The general rule: when the job has no result on date d yet, the walk
      leaves exactly one result of it there, the one of the latest visited
      build of that date (position j; the walk goes from the latest build
      down). */
  lemma {:induction false} FirstVisitOfTheDayWins<A>(chart: Chart, name: string, builds: seq<Build<A>>, k: int,
                                                     cutoff: int, extract: Option<A> -> Coverage, d: int, j: int)
    requires -1 <= k < |builds|
    requires j in VisitFrom(builds, k, cutoff) && builds[j].day == d
    requires forall i :: i in VisitFrom(builds, k, cutoff) && j < i ==> builds[i].day != d
    requires !(d in chart && HasJob(chart[d].entries, name))
    ensures OnlyEntry(WalkFrom(chart, name, builds, k, cutoff, extract), d, name,
                      ResultEntry(Some(name), extract(builds[j].action)))
    decreases k + 1
  {
    VisitFromStep(builds, k, cutoff);
    var next := Summarize(chart, builds[k].day, name, extract(builds[k].action));
    if k == j {
      SummarizeCreatesOnlyEntry(chart, d, name, extract(builds[k].action));
      WalkFromKeepsOnlyEntry(next, name, builds, k - 1, cutoff, extract, d,
                             ResultEntry(Some(name), extract(builds[j].action)));
    } else {
      SummarizeOtherDate(chart, builds[k].day, name, extract(builds[k].action), d);
      FirstVisitOfTheDayWins(next, name, builds, k - 1, cutoff, extract, d, j);
    }
  }

  /** A visited position k means the walk goes on from k - 1, visiting
      the rest of the positions. */
  lemma VisitFromStep<A>(builds: seq<Build<A>>, k: int, cutoff: int)
    requires -1 <= k < |builds| && VisitFrom(builds, k, cutoff) != []
    ensures 0 <= k && builds[k].day > cutoff
    ensures VisitFrom(builds, k, cutoff) == [k] + VisitFrom(builds, k - 1, cutoff)
  {
  }

  /** summarize on another date leaves date d as it was. */
  lemma SummarizeOtherDate(chart: Chart, date: int, name: string, c: Coverage, d: int)
    requires date != d
    ensures var r := Summarize(chart, date, name, c);
            (d in r <==> d in chart) && (d in chart ==> r[d] == chart[d])
  {
  }

  predicate Ascending(ds: seq<int>) {
    forall i, j :: 0 <= i < j < |ds| ==> ds[i] < ds[j]
  }

  /** Inserting one date into an ascending list of dates. */
  function Insert(sorted: seq<int>, d: int): (r: seq<int>)
    requires Ascending(sorted)
    ensures Ascending(r)
    ensures forall x :: x in r <==> x in sorted || x == d
    decreases |sorted|
  {
    if sorted == [] then [d]
    else if d < sorted[0] then [d] + sorted
    else if d == sorted[0] then sorted
    else
      var rest := Insert(sorted[1..], d);
      assert forall x :: x in sorted[1..] ==> sorted[0] < x;
      assert forall j :: 0 <= j < |rest| ==> sorted[0] < rest[j] by {
        forall j | 0 <= j < |rest| ensures sorted[0] < rest[j] {
          assert rest[j] in rest;
        }
      }
      [sorted[0]] + rest
  }

  /** The dates in ascending order, as a TreeMap iterates its keys. */
  function SortDates(ds: seq<int>): (r: seq<int>)
    ensures Ascending(r)
    ensures forall x :: x in r <==> x in ds
    decreases |ds|
  {
    if ds == [] then [] else Insert(SortDates(ds[..|ds| - 1]), ds[|ds| - 1])
  }
}
